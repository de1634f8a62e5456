/** Main results about tokenizing: the tree is fit for every later stage, the source is conserved, and printing undoes
    parsing. */
module TokenizerResults {
  import opened Base
  import opened Template
  import opened Strings
  import opened SourceTree
  import opened TokenizerSpec
  import opened Tiling
  import opened TokenizerTheorems
  import opened TokenizerBudget
  import opened ArchiveGraph
  import opened Printer
  import opened Indentation

  /** The tree of a template. */
  function TreeOf(items: seq<Item>, tmpl: Bytes, buffer: nat): Node
    requires AllPlaced(items, tmpl)
  {
    RootNode(EraseAll(items, tmpl, buffer))
  }

  lemma {:induction false} PiecesRun(tmpl: Bytes, delims: Delims, o: Options) returns (items: seq<Item>)
    requires Usable(delims) && Pieces(tmpl, delims, o).Ok?
    ensures items == Pieces(tmpl, delims, o).value && AllSpelled(items, tmpl, o) && AllPlaced(items, tmpl)
    ensures Tiles(items, 0, |tmpl|) && Settled(items) && StopFree(items)
  {
    hide ParseFrom;
    items := Pieces(tmpl, delims, o).value;
    PiecesTile(tmpl, delims, o);
    AllSpelledPlaced(items, tmpl, o);
  }

  lemma {:induction false} PiecesBudget(tmpl: Bytes, delims: Delims, o: Options)
    requires Usable(delims) && Pieces(tmpl, delims, o).Ok?
    ensures AllDeep(Pieces(tmpl, delims, o).value, 0, o.limits.maxNestingDepth)
    ensures ItemsNodes(Pieces(tmpl, delims, o).value) <= o.limits.maxNodes && |tmpl| <= o.limits.maxInputBytes
  {
    hide ParseFrom, Deep;
    InitialBudget(delims, o);
    ParseBudget(tmpl, 0, Initial(delims), o);
    var levels := ParseFrom(tmpl, 0, Initial(delims), o).value.levels;
    assert levels[..0] == [];
  }

  lemma {:induction false} InitialBudget(delims: Delims, o: Options)
    ensures Budgeted(Initial(delims), o)
  {
    var levels := Initial(delims).levels;
    assert levels[..0] == [];
  }

  /** The root over its children. */
  lemma {:induction false} RootFits(ns: seq<Node>, count: nat, depth: nat, size: nat, maxTagBytes: nat)
    requires WellShapedAll(ns) && MarkersPlaced(ns) && ClosedAll(ns) && Bounded(ns, count, depth, size, maxTagBytes)
    ensures var root := RootNode(ns);
            && WellShaped(root, false) && Closed(root) && Height(root) <= depth + 1 && NodeCount(root) == count + 1
            && PartsWithin(root, maxTagBytes + 1) && PartCount(root) <= size + count
  {
    hide WellShapedAll, MarkersPlaced, ClosedAll, HeightAll, NodeCountAll, PartsWithinAll, PartCountAll;
  }

  /** Every accepted template becomes a tree that the archive and the legacy codec consider well shaped, whose sections
      end in their closing tags, and whose size the tokenizer's limits bound: two levels and one node more than it
      counted, one component more per name than bytes in a tag, and one more in all for every node. */
  lemma {:induction false} TokenizedTreeIsFit(tmpl: Bytes, delims: Delims, buffer: nat, o: Options)
    requires Usable(delims) && Pieces(tmpl, delims, o).Ok?
    ensures AllPlaced(Pieces(tmpl, delims, o).value, tmpl)
    ensures var root := TreeOf(Pieces(tmpl, delims, o).value, tmpl, buffer);
            && WellShaped(root, false) && Closed(root)
            && Height(root) <= o.limits.maxNestingDepth + 2 && NodeCount(root) <= o.limits.maxNodes + 1
            && PartsWithin(root, o.limits.maxTagBytes + 1)
            && PartCount(root) <= o.limits.maxInputBytes + o.limits.maxNodes
  {
    hide Pieces, AllDeep, AllSpelled, Tiles, Settled, Bounded, WellShaped, WellShapedAll, Closed, ClosedAll, MarkersPlaced;
    hide Height, NodeCount, PartsWithin, PartCount, AllPlaced, EraseAll, ItemsNodes;
    var items := PiecesRun(tmpl, delims, o);
    PiecesBudget(tmpl, delims, o);
    ItemsShape(items, tmpl, buffer, o);
    ItemsBounds(items, 0, 0, |tmpl|, tmpl, buffer, o);
    RootFits(EraseAll(items, tmpl, buffer), ItemsNodes(items), o.limits.maxNestingDepth + 1, |tmpl|, o.limits.maxTagBytes);
  }

  /** Taking the tags out of the source, and nothing else, leaves the data of the output nodes in document order. */
  lemma {:induction false} LiteralsConserved(tmpl: Bytes, delims: Delims, buffer: nat, o: Options)
    requires Usable(delims) && Pieces(tmpl, delims, o).Ok? && !o.escapeOutput
    ensures var items := Pieces(tmpl, delims, o).value;
            AllPlaced(items, tmpl) && InOrder(TagSpansAll(items), 0, |tmpl|)
            && OutputText(TreeOf(items, tmpl, buffer)) == Cut(tmpl, TagSpansAll(items), 0, |tmpl|)
  {
    hide Pieces, Spelled, Tiles, Settled;
    var items := PiecesRun(tmpl, delims, o);
    ItemsConserve(items, 0, |tmpl|, tmpl, buffer, o);
  }

  /** The source a section keeps runs from the end of its opening tag, a third brace included, to the start of the
      closing tag that matches it; all its pieces lie in between. */
  lemma {:induction false} SectionRangeExact(item: Item, tmpl: Bytes, buffer: nat, o: Options)
    requires Spelled(item, tmpl, o) && item.Block? && item.head.kind.TypeSection?
    ensures Placed(item, tmpl)
    ensures OriginalText(Erase(item, tmpl, buffer)[0]) == Some(tmpl[item.body..item.close])
    ensures tmpl[item.from..item.body] == TagText(item.spelling, false)
    ensures item.items != [] && var stop := item.items[|item.items| - 1];
            stop.Tag? && stop.head.name == item.head.name && tmpl[item.close..item.to] == TagText(stop.spelling, false)
    ensures forall i :: 0 <= i < |item.items| - 1 ==>
              item.body <= item.items[i].from <= item.items[i].to <= item.close
  {
    hide Classify, TagText;
    SpelledPlaced(item, tmpl, o);
    var n := |item.items| - 1;
    var front, stop := item.items[..n], item.items[n];
    assert item.items == front + [stop];
    TilesSplit(front, [stop], item.body, item.to);
    TilesOrdered(front, item.body, item.close);
    assert forall i :: 0 <= i < n ==> item.items[i] == front[i];
  }

  lemma {:induction false} TilesSplit(a: seq<Item>, b: seq<Item>, from: nat, to: nat)
    requires Tiles(a + b, from, to) && b != []
    ensures Tiles(a, from, b[0].from) && Tiles(b, b[0].from, to)
  {
    if a == [] {
      assert a + b == b;
    } else {
      assert (a + b)[0] == a[0] && (a + b)[1..] == a[1..] + b;
      TilesSplit(a[1..], b, a[0].to, to);
    }
  }

  // ---- Printing undoes parsing ----------------------------------------------------------------------

  /** No white space next to the delimiters or after the sigil. */
  predicate Unpadded(raw: Bytes) {
    Trim(raw, WHITESPACE) == raw
    && (raw != [] && (!KindOf(raw[0]).TypeVariable? || raw[0] == '&' as int) ==> Trim(raw[1..], WHITESPACE) == raw[1..])
  }

  predicate PlainTag(head: Head, spelling: Spelling) {
    head.change.None? && !spelling.triple && Unpadded(spelling.raw)
  }

  predicate Plain(item: Item) {
    match item
    case Literal(_, _, _, _) => true
    case Tag(head, spelling, _, _) => PlainTag(head, spelling)
    case Block(head, spelling, _, _, _, _, items) =>
      PlainTag(head, spelling) && forall i :: 0 <= i < |items| ==> Plain(items[i])
  }

  predicate AllPlain(items: seq<Item>) {
    forall i :: 0 <= i < |items| ==> Plain(items[i])
  }

  /** All tags are written with these delimiters. */
  predicate Uniform(item: Item, delims: Delims) {
    match item
    case Literal(_, _, _, _) => true
    case Tag(_, spelling, _, _) => spelling.delims == delims
    case Block(_, spelling, _, _, _, _, items) =>
      spelling.delims == delims && forall i :: 0 <= i < |items| ==> Uniform(items[i], delims)
  }

  predicate AllUniform(items: seq<Item>, delims: Delims) {
    forall i :: 0 <= i < |items| ==> Uniform(items[i], delims)
  }

  lemma {:induction false} PrintConcat(a: seq<Node>, b: seq<Node>, d: Delims, skipStops: bool)
    ensures NodesText(a + b, d.start, d.stop, skipStops)
         == NodesText(a, d.start, d.stop, skipStops) + NodesText(b, d.start, d.stop, skipStops)
  {
    if a == [] {
      assert a + b == b;
    } else {
      assert (a + b)[0] == a[0] && (a + b)[1..] == a[1..] + b;
      PrintConcat(a[1..], b, d, skipStops);
      var x, y, z := ChildText(a[0], d.start, d.stop, skipStops), NodesText(a[1..], d.start, d.stop, skipStops),
                     NodesText(b, d.start, d.stop, skipStops);
      assert x + (y + z) == (x + y) + z;
    }
  }

  /** What classifying found in the trimmed content of a tag. */
  lemma {:induction false} Classified(raw: Bytes, triple: bool, escapeByDefault: bool, maxDelimiterBytes: nat, head: Head)
    requires Classify(raw, triple, escapeByDefault, maxDelimiterBytes) == Ok(head) && head.change.None?
    ensures var text := Trim(raw, WHITESPACE);
            text != [] && head.kind == KindOf(text[0])
            && (if head.kind.TypeVariable? then
                  var ampersand := text[0] == '&' as int;
                  head.flags == EscapeFlag(ampersand, triple, escapeByDefault)
                  && head.name == if ampersand then Trim(text[1..], WHITESPACE) else text
                else head.name == Trim(text[1..], WHITESPACE))
  {
    hide Trim, Words, EscapeFlag;
  }

  /** The sigil that is printed: the one in the source, unless triple braces turned it around. */
  lemma {:induction false} PrintedSigil(n: Node, first: byte, triple: bool)
    requires n.Node? && n.kind == KindOf(first)
    requires n.kind.TypeVariable? ==> n.flags == EscapeFlag(first == '&' as int, triple, true)
    ensures Sigil(n) == if !n.kind.TypeVariable? || (first == '&' as int && !triple) then [first]
                        else if triple && first != '&' as int then ['&' as int] else []
  {
  }

  lemma {:induction false} TrimShrinks(s: Bytes)
    ensures |Trim(s, WHITESPACE)| <= |s| && (|Trim(s, WHITESPACE)| == |s| ==> Trim(s, WHITESPACE) == s)
  {
    var a, b := TrimCuts(s, WHITESPACE);
  }

  /** The sigil and the name are no longer than what the tag was written with, and equal to it exactly when the tag is
      plain. */
  lemma {:induction false} PrintedRaw(head: Head, spelling: Spelling, maxDelimiterBytes: nat, n: Node)
    requires Classify(spelling.raw, spelling.triple, true, maxDelimiterBytes) == Ok(head)
    requires head.change.None? && n.Node? && n.kind == head.kind && n.flags == head.flags
    ensures |Sigil(n) + head.name| <= |spelling.raw| + if spelling.triple then 1 else 0
    ensures PlainTag(head, spelling) ==> Sigil(n) + head.name == spelling.raw
    ensures |Sigil(n) + head.name| == |spelling.raw| && !spelling.triple ==> PlainTag(head, spelling)
    ensures spelling.triple && |Sigil(n) + head.name| == |spelling.raw| + 1 ==> (Sigil(n) + head.name)[0] == '&' as int
  {
    hide Classify, Trim, Sigil, KindOf, EscapeFlag;
    Classified(spelling.raw, spelling.triple, true, maxDelimiterBytes, head);
    var text := Trim(spelling.raw, WHITESPACE);
    PrintedSigil(n, text[0], spelling.triple);
    TrimShrinks(spelling.raw);
    TrimShrinks(text[1..]);
    assert text == [text[0]] + text[1..];
  }

  /** Printing never makes a tag longer, and gives back exactly the plain tags. */
  lemma {:induction false} PrintedTag(head: Head, spelling: Spelling, from: nat, to: nat, tmpl: Bytes, o: Options, n: Node)
    requires SpelledTag(head, spelling, from, to, tmpl, o) && o.escapeByDefault && head.change.None?
    requires n.Node? && n.kind == head.kind && n.flags == head.flags && n.data == Some(head.name)
    ensures var text := HeadText(n, spelling.delims.start, spelling.delims.stop);
            |text| <= to - from && (text == tmpl[from..to] <==> PlainTag(head, spelling))
  {
    hide Classify, Sigil, Unpadded;
    PrintedRaw(head, spelling, o.limits.maxDelimiterBytes, n);
    SpelledKind(head, spelling, from, to, tmpl, o);
    var d, inner, brace := spelling.delims, Sigil(n) + head.name, if spelling.triple then BRACE else [];
    var text := HeadText(n, d.start, d.stop);
    var extra := if ExtraBrace(spelling, false) then CLOSING_BRACE else [];
    assert text == d.start + inner + d.stop;
    assert tmpl[from..to] == d.start + (brace + spelling.raw) + (d.stop + extra);
    SameMiddle(d.start, inner, brace + spelling.raw, d.stop);
    if spelling.triple {
      assert inner != brace + spelling.raw;
    } else {
      assert brace + spelling.raw == spelling.raw;
    }
    assert d.stop + [] == d.stop;
  }

  lemma {:induction false} SameMiddle(a: Bytes, x: Bytes, y: Bytes, c: Bytes)
    ensures a + x + c == a + y + c <==> x == y
  {
    if a + x + c == a + y + c {
      assert (a + x + c)[|a|..][..|x|] == x && (a + y + c)[|a|..][..|y|] == y;
    }
  }

  // ---- Whole trees --------------------------------------------------------------------------------------

  function Printed(ns: seq<Node>, d: Delims): Bytes {
    NodesText(ns, d.start, d.stop, false)
  }

  /** Two texts that are no longer than the stretches they come from agree with both exactly when they agree with each. */
  lemma {:induction false} SplitText(a: Bytes, b: Bytes, tmpl: Bytes, from: nat, middle: nat, to: nat)
    requires from <= middle <= to <= |tmpl| && |a| <= middle - from && |b| <= to - middle
    ensures a + b == tmpl[from..to] <==> a == tmpl[from..middle] && b == tmpl[middle..to]
  {
    assert tmpl[from..to] == tmpl[from..middle] + tmpl[middle..to];
    if a + b == tmpl[from..to] {
      assert (a + b)[..|a|] == a && (a + b)[|a|..] == b;
      assert tmpl[from..to][..middle - from] == tmpl[from..middle] && tmpl[from..to][middle - from..] == tmpl[middle..to];
    }
  }

  lemma {:induction false} ItemPrints(item: Item, delims: Delims, tmpl: Bytes, buffer: nat, o: Options)
    requires Spelled(item, tmpl, o) && Uniform(item, delims) && delims.start != [] && o.escapeByDefault && !o.escapeOutput
    requires item.from <= item.to
    ensures Placed(item, tmpl) && item.to <= |tmpl|
    ensures var text := Printed(Erase(item, tmpl, buffer), delims);
            |text| <= item.to - item.from && (text == tmpl[item.from..item.to] <==> Plain(item))
    decreases item, 1
  {
    hide SpelledTag, ClosedBy, Settled, Classify, PlainTag, HeadText, TagText;
    SpelledPlaced(item, tmpl, o);
    match item {
      case Literal(_, _, from, to) =>
        OnePrinted(Erase(item, tmpl, buffer)[0], delims);
        OutputPrinted(Erase(item, tmpl, buffer)[0], delims);
      case Tag(head, spelling, from, to) =>
        SpelledOrder(head, spelling, from, to, tmpl, o);
        if head.change.None? {
          var n := Leaf(head.kind, head.flags, head.name);
          OnePrinted(n, delims);
          LeafPrinted(n, delims);
          PrintedTag(head, spelling, from, to, tmpl, o, n);
        } else {
          ChangeNotEmpty(head, spelling, from, to, tmpl, o);
        }
      case Block(head, spelling, from, body, close, to, items) =>
        SpelledOrder(head, spelling, from, body, tmpl, o);
        TilesOrdered(items, body, to);
        ItemsPrint(items, body, to, delims, tmpl, buffer, o);
        var n := Erase(item, tmpl, buffer)[0];
        OnePrinted(n, delims);
        PrintedTag(head, spelling, from, body, tmpl, o, n);
        SplitText(HeadText(n, delims.start, delims.stop), Printed(n.children, delims), tmpl, from, body, to);
    }
  }

  lemma {:induction false} OnePrinted(n: Node, delims: Delims)
    ensures Printed([n], delims) == NodeText(n, delims.start, delims.stop)
  {
    NothingPrinted(delims);
    var one, text := [n], NodeText(n, delims.start, delims.stop);
    assert one[1..] == [] && text + [] == text;
    assert ChildText(n, delims.start, delims.stop, false) == text;
    assert NodesText(one, delims.start, delims.stop, false)
        == ChildText(one[0], delims.start, delims.stop, false) + NodesText(one[1..], delims.start, delims.stop, false);
  }

  lemma {:induction false} OutputPrinted(n: Node, delims: Delims)
    requires n.Node? && n.kind.TypeOutput? && n.data.Some?
    ensures NodeText(n, delims.start, delims.stop) == n.data.value
  {
  }

  lemma {:induction false} LeafPrinted(n: Node, delims: Delims)
    requires n.Node? && n.children == []
    ensures NodeText(n, delims.start, delims.stop) == HeadText(n, delims.start, delims.stop)
  {
    hide HeadText;
  }

  /** A change of delimiters leaves nothing to print, so it is lost. */
  lemma {:induction false} ChangeNotEmpty(head: Head, spelling: Spelling, from: nat, to: nat, tmpl: Bytes, o: Options)
    requires SpelledTag(head, spelling, from, to, tmpl, o) && head.change.Some? && spelling.delims.start != []
    ensures from < to && !PlainTag(head, spelling)
  {
    hide Classify;
  }

  lemma {:induction false} ItemsPrint(items: seq<Item>, from: nat, to: nat, delims: Delims, tmpl: Bytes, buffer: nat,
                                      o: Options)
    requires AllSpelled(items, tmpl, o) && AllUniform(items, delims) && Tiles(items, from, to) && to <= |tmpl|
    requires delims.start != [] && o.escapeByDefault && !o.escapeOutput
    ensures AllPlaced(items, tmpl) && from <= to
    ensures var text := Printed(EraseAll(items, tmpl, buffer), delims);
            |text| <= to - from && (text == tmpl[from..to] <==> AllPlain(items))
    decreases items, 0
  {
    hide Spelled, Uniform, Placed, Erase, Plain, NodesText;
    AllSpelledPlaced(items, tmpl, o);
    TilesOrdered(items, from, to);
    if items == [] {
      NothingPrinted(delims);
      assert tmpl[from..to] == [];
    } else {
      var first, rest := Erase(items[0], tmpl, buffer), EraseAll(items[1..], tmpl, buffer);
      TilesOrdered(items[1..], items[0].to, to);
      ItemPrints(items[0], delims, tmpl, buffer, o);
      ItemsPrint(items[1..], items[0].to, to, delims, tmpl, buffer, o);
      PrintConcat(first, rest, delims, false);
      SplitText(Printed(first, delims), Printed(rest, delims), tmpl, from, items[0].to, to);
      assert AllPlain(items) <==> Plain(items[0]) && AllPlain(items[1..]) by {
        PlainCons(items);
      }
    }
  }

  lemma {:induction false} NothingPrinted(delims: Delims)
    ensures Printed([], delims) == []
  {
  }

  lemma {:induction false} PlainCons(items: seq<Item>)
    requires items != []
    ensures AllPlain(items) <==> Plain(items[0]) && AllPlain(items[1..])
  {
    hide Plain;
    if AllPlain(items[1..]) {
      forall i | 1 <= i < |items|
        ensures Plain(items[i]) <==> Plain(items[1..][i - 1])
      {
      }
    }
  }

  /** Printing the tree of a template gives the template back exactly when no tag of it changes delimiters, has triple
      braces or is padded with white space. The template is written with one pair of delimiters throughout and escapes by
      default. */
  lemma {:induction false} UniformPrintAfterParse(tmpl: Bytes, delims: Delims, buffer: nat, o: Options)
    requires Usable(delims) && Pieces(tmpl, delims, o).Ok? && o.escapeByDefault && !o.escapeOutput
    requires AllUniform(Pieces(tmpl, delims, o).value, delims)
    ensures var items := Pieces(tmpl, delims, o).value;
            AllPlaced(items, tmpl)
            && (NodeText(TreeOf(items, tmpl, buffer), delims.start, delims.stop) == tmpl <==> AllPlain(items))
  {
    hide Pieces, Spelled, Tiles, Settled, Uniform, Plain, NodesText;
    var items := PiecesRun(tmpl, delims, o);
    ItemsPrint(items, 0, |tmpl|, delims, tmpl, buffer, o);
    assert tmpl[0..|tmpl|] == tmpl;
    RootPrinted(EraseAll(items, tmpl, buffer), delims);
  }

  lemma {:induction false} RootPrinted(ns: seq<Node>, delims: Delims)
    ensures NodeText(RootNode(ns), delims.start, delims.stop) == Printed(ns, delims)
  {
    assert [] + Printed(ns, delims) == Printed(ns, delims);
  }

  /** Printing the children of a section, its closing tag left out, gives the source text the section kept. */
  lemma {:induction false} ChildrenAfterParse(item: Item, delims: Delims, tmpl: Bytes, buffer: nat, o: Options)
    requires Spelled(item, tmpl, o) && item.Block? && item.head.kind.TypeSection? && Uniform(item, delims)
    requires delims.start != [] && o.escapeByDefault && !o.escapeOutput && Plain(item)
    ensures Placed(item, tmpl)
    ensures var section := Erase(item, tmpl, buffer)[0];
            Some(NodesText(section.children, delims.start, delims.stop, true)) == OriginalText(section)
  {
    hide Spelled, Uniform, Plain, NodesText, Tiles;
    SpelledPlaced(item, tmpl, o);
    SectionRangeExact(item, tmpl, buffer, o);
    var n := |item.items| - 1;
    var front, stop := item.items[..n], item.items[n];
    assert item.items == front + [stop];
    BlockParts(item, delims, tmpl, o);
    ItemsPrint(front, item.body, item.close, delims, tmpl, buffer, o);
    AllSpelledPlaced(front, tmpl, o);
    SpelledPlaced(stop, tmpl, o);
    EraseSnoc(front, stop, tmpl, buffer);
    PrintConcat(EraseAll(front, tmpl, buffer), Erase(stop, tmpl, buffer), delims, true);
    NoStopPrinted(front, delims, tmpl, buffer, o);
    StopSkipped(Erase(stop, tmpl, buffer)[0], delims);
    var text := Printed(EraseAll(front, tmpl, buffer), delims);
    assert text + [] == text;
  }

  lemma {:induction false} BlockParts(item: Item, delims: Delims, tmpl: Bytes, o: Options)
    requires Spelled(item, tmpl, o) && item.Block? && Uniform(item, delims) && Plain(item)
    ensures item.items != []
    ensures var n := |item.items| - 1;
            var front, stop := item.items[..n], item.items[n];
            && AllSpelled(front, tmpl, o) && AllUniform(front, delims) && AllPlain(front) && StopFree(front)
            && Tiles(front, item.body, item.close) && Spelled(stop, tmpl, o) && IsTagOf(stop, TypeStop)
            && item.close <= |tmpl|
  {
    hide SpelledTag, PlainTag, Settled;
    var n := |item.items| - 1;
    var front, stop := item.items[..n], item.items[n];
    assert item.items == front + [stop];
    TilesSplit(front, [stop], item.body, item.to);
  }

  lemma {:induction false} StopSkipped(n: Node, delims: Delims)
    requires n.Node? && n.kind.TypeStop?
    ensures NodesText([n], delims.start, delims.stop, true) == []
  {
    assert [n][1..] == [];
  }

  /** Without closing tags among them, pieces print the same either way. */
  lemma {:induction false} NoStopPrinted(items: seq<Item>, delims: Delims, tmpl: Bytes, buffer: nat, o: Options)
    requires AllPlaced(items, tmpl) && StopFree(items) && AllSpelled(items, tmpl, o)
    ensures NodesText(EraseAll(items, tmpl, buffer), delims.start, delims.stop, true) == Printed(EraseAll(items, tmpl, buffer), delims)
  {
    hide NodeText;
    if items != [] {
      var first, rest := Erase(items[0], tmpl, buffer), EraseAll(items[1..], tmpl, buffer);
      NoStopPrinted(items[1..], delims, tmpl, buffer, o);
      PrintConcat(first, rest, delims, true);
      PrintConcat(first, rest, delims, false);
      assert !IsTagOf(items[0], TypeStop) && Spelled(items[0], tmpl, o);
      if first != [] {
        assert first == [first[0]] && first[1..] == [];
      }
    }
  }
}
