/** The original text of every section in the tree of an accepted template. */
module SectionSources {
  import opened Base
  import opened Template
  import opened SourceTree
  import opened TokenizerSpec
  import opened Tiling
  import opened TokenizerTheorems
  import opened TokenizerResults
  import opened DelimiterChanges
  import opened Printer

  /** Right before this stretch of the source is the tag that opens the section, right behind it the one that closes it. */
  ghost predicate Framed(n: Node, body: nat, close: nat, tmpl: Bytes, o: Options)
    requires n.Node? && n.data.Some?
  {
    exists from: nat, to: nat, opening: Spelling, closing: Spelling ::
      && SpelledTag(Head(n.kind, n.flags, n.data.value, None), opening, from, body, tmpl, o)
      && SpelledTag(Head(TypeStop, FLAG_NONE, n.data.value, None), closing, close, to, tmpl, o)
      && n.start == Some(opening.delims.start) && n.stop == Some(opening.delims.stop)
  }

  /** Every section keeps exactly the source between its tags, within that of the section around it. */
  ghost predicate Sourced(n: Node, tmpl: Bytes, buffer: nat, from: nat, to: nat, o: Options) {
    match n
    case Null => true
    case Node(kind, _, data, children, _, _, _, source) =>
      if kind.TypeSection? then
        data.Some? && source.Some?
        && var s := source.value;
           && s.buffer == buffer && s.text == tmpl && from <= s.begin && s.begin + s.length <= to
           && Framed(n, s.begin, s.begin + s.length, tmpl, o)
           && SourcedAll(children, tmpl, buffer, s.begin, s.begin + s.length, o)
      else SourcedAll(children, tmpl, buffer, from, to, o)
  }

  ghost predicate SourcedAll(ns: seq<Node>, tmpl: Bytes, buffer: nat, from: nat, to: nat, o: Options) {
    ns == [] || (Sourced(ns[0], tmpl, buffer, from, to, o) && SourcedAll(ns[1..], tmpl, buffer, from, to, o))
  }

  lemma {:induction false} SourcedConcat(a: seq<Node>, b: seq<Node>, tmpl: Bytes, buffer: nat, from: nat, to: nat, o: Options)
    requires SourcedAll(a, tmpl, buffer, from, to, o) && SourcedAll(b, tmpl, buffer, from, to, o)
    ensures SourcedAll(a + b, tmpl, buffer, from, to, o)
  {
    hide Sourced;
    if a == [] {
      assert a + b == b;
    } else {
      assert (a + b)[0] == a[0] && (a + b)[1..] == a[1..] + b;
      SourcedConcat(a[1..], b, tmpl, buffer, from, to, o);
    }
  }

  lemma {:induction false} LeafSourced(ns: seq<Node>, tmpl: Bytes, buffer: nat, from: nat, to: nat, o: Options)
    requires |ns| <= 1 && forall n :: n in ns ==> n.Node? && !n.kind.TypeSection? && n.children == []
    ensures SourcedAll(ns, tmpl, buffer, from, to, o)
  {
    if ns != [] {
      assert ns[0] in ns && ns[1..] == [];
    }
  }

  /** Only sections have a place in the source. */
  predicate LiesWithin(item: Item, from: nat, to: nat) {
    item.Block? ==> from <= item.from && item.to <= to
  }

  lemma {:induction false} ItemSourced(item: Item, tmpl: Bytes, buffer: nat, from: nat, to: nat, o: Options)
    requires Spelled(item, tmpl, o) && LiesWithin(item, from, to) && item.from <= item.to
    ensures Placed(item, tmpl) && SourcedAll(Erase(item, tmpl, buffer), tmpl, buffer, from, to, o)
    decreases item, 1
  {
    hide SpelledTag, Settled, Classify, TagText;
    SpelledPlaced(item, tmpl, o);
    match item {
      case Literal(_, _, _, _) => LeafSourced(Erase(item, tmpl, buffer), tmpl, buffer, from, to, o);
      case Tag(head, spelling, begin, end) =>
        SpelledKind(head, spelling, begin, end, tmpl, o);
        LeafSourced(Erase(item, tmpl, buffer), tmpl, buffer, from, to, o);
      case Block(head, spelling, begin, body, close, end, items) =>
        SpelledOrder(head, spelling, begin, body, tmpl, o);
        BlockCloses(items, head.name, body, close, end);
        var section := head.kind.TypeSection?;
        PartsWithinBlock(items, body, close, end);
        if section {
          ItemsSourced(items, body, end, tmpl, buffer, body, close, o);
          BlockFramed(item, tmpl, buffer, o);
        } else {
          ItemsSourced(items, body, end, tmpl, buffer, from, to, o);
        }
        var n := Erase(item, tmpl, buffer)[0];
        assert Sourced(n, tmpl, buffer, from, to, o);
        assert [n][1..] == [];
    }
  }

  lemma {:induction false} PartsWithinBlock(items: seq<Item>, body: nat, close: nat, end: nat)
    requires Tiles(items, body, end) && items != [] && items[|items| - 1].Tag? && items[|items| - 1].from == close
    ensures forall i :: 0 <= i < |items| ==> LiesWithin(items[i], body, close)
  {
    var n := |items| - 1;
    assert items == items[..n] + [items[n]];
    TilesSplit(items[..n], [items[n]], body, end);
    TilesOrdered(items[..n], body, close);
    assert forall i :: 0 <= i < n ==> items[i] == items[..n][i];
  }

  lemma {:induction false} BlockFramed(item: Item, tmpl: Bytes, buffer: nat, o: Options)
    requires Spelled(item, tmpl, o) && item.Block? && item.head.kind.TypeSection? && Placed(item, tmpl)
    ensures Framed(Erase(item, tmpl, buffer)[0], item.body, item.close, tmpl, o)
  {
    hide Classify, TagText;
    var stop := item.items[|item.items| - 1];
    assert Spelled(stop, tmpl, o);
    SpelledKind(stop.head, stop.spelling, stop.from, stop.to, tmpl, o);
    assert item.head == Head(item.head.kind, item.head.flags, item.head.name, None);
    assert stop.head == Head(TypeStop, FLAG_NONE, item.head.name, None);
    assert SpelledTag(item.head, item.spelling, item.from, item.body, tmpl, o);
    assert SpelledTag(stop.head, stop.spelling, item.close, stop.to, tmpl, o);
  }

  lemma {:induction false} ItemsSourced(items: seq<Item>, begin: nat, end: nat, tmpl: Bytes, buffer: nat, from: nat, to: nat,
                                        o: Options)
    requires AllSpelled(items, tmpl, o) && Tiles(items, begin, end)
    requires forall i :: 0 <= i < |items| ==> LiesWithin(items[i], from, to)
    ensures AllPlaced(items, tmpl) && SourcedAll(EraseAll(items, tmpl, buffer), tmpl, buffer, from, to, o)
    decreases items, 0
  {
    hide Spelled, Placed, Erase, Sourced, LiesWithin;
    AllSpelledPlaced(items, tmpl, o);
    if items != [] {
      ItemSourced(items[0], tmpl, buffer, from, to, o);
      ItemsSourced(items[1..], items[0].to, end, tmpl, buffer, from, to, o);
      SourcedConcat(Erase(items[0], tmpl, buffer), EraseAll(items[1..], tmpl, buffer), tmpl, buffer, from, to, o);
    }
  }

  /** In the tree of every accepted template, every section keeps the source from the end of its opening tag to the start of
      its closing tag, both written as the source has them, and the stretches of nested sections nest. */
  lemma {:induction false} SectionsExact(tmpl: Bytes, delims: Delims, buffer: nat, o: Options)
    requires Usable(delims) && Pieces(tmpl, delims, o).Ok?
    ensures AllPlaced(Pieces(tmpl, delims, o).value, tmpl)
    ensures Sourced(TreeOf(Pieces(tmpl, delims, o).value, tmpl, buffer), tmpl, buffer, 0, |tmpl|, o)
  {
    hide Pieces, Spelled, Settled, SourcedAll;
    var items := PiecesRun(tmpl, delims, o);
    TilesOrdered(items, 0, |tmpl|);
    ItemsSourced(items, 0, |tmpl|, tmpl, buffer, 0, |tmpl|, o);
  }

  // ---- Printing it again --------------------------------------------------------------------------------

  /** Printing the children of any section, its closing tag left out, gives its original text. */
  predicate Reprints(n: Node) {
    match n
    case Null => true
    case Node(kind, _, _, children, _, _, _, _) =>
      (kind.TypeSection? ==> Some(NodesText(children, OPEN, CLOSE, true)) == OriginalText(n)) && ReprintsAll(children)
  }

  predicate ReprintsAll(ns: seq<Node>) {
    ns == [] || (Reprints(ns[0]) && ReprintsAll(ns[1..]))
  }

  lemma {:induction false} ReprintsConcat(a: seq<Node>, b: seq<Node>)
    requires ReprintsAll(a) && ReprintsAll(b)
    ensures ReprintsAll(a + b)
  {
    hide Reprints;
    if a == [] {
      assert a + b == b;
    } else {
      assert (a + b)[0] == a[0] && (a + b)[1..] == a[1..] + b;
      ReprintsConcat(a[1..], b);
    }
  }

  lemma {:induction false} ItemReprints(item: Item, tmpl: Bytes, buffer: nat, o: Options)
    requires Spelled(item, tmpl, o) && Uniform(item, DEFAULT) && Plain(item) && o.escapeByDefault && !o.escapeOutput
    ensures Placed(item, tmpl) && ReprintsAll(Erase(item, tmpl, buffer))
    decreases item, 1
  {
    hide SpelledTag, ClosedBy, Settled, Classify, PlainTag, NodesText;
    SpelledPlaced(item, tmpl, o);
    match item {
      case Literal(_, _, _, _) =>
        var ns := Erase(item, tmpl, buffer);
        assert ns[1..] == [] && ns[0].children == [];
        assert ReprintsAll([]) && Reprints(ns[0]);
      case Tag(head, spelling, from, to) =>
        SpelledKind(head, spelling, from, to, tmpl, o);
        var ns := Erase(item, tmpl, buffer);
        assert ns == [] || (ns == [ns[0]] && ns[1..] == []);
        assert ReprintsAll([]);
      case Block(head, _, _, _, _, _, items) =>
        AllSpelledPlaced(items, tmpl, o);
        ItemsReprint(items, tmpl, buffer, o);
        if head.kind.TypeSection? {
          ChildrenAfterParse(item, DEFAULT, tmpl, buffer, o);
        }
        assert Erase(item, tmpl, buffer)[1..] == [];
    }
  }

  lemma {:induction false} ItemsReprint(items: seq<Item>, tmpl: Bytes, buffer: nat, o: Options)
    requires AllSpelled(items, tmpl, o) && AllUniform(items, DEFAULT) && AllPlain(items) && o.escapeByDefault && !o.escapeOutput
    ensures AllPlaced(items, tmpl) && ReprintsAll(EraseAll(items, tmpl, buffer))
    decreases items, 0
  {
    hide Spelled, Uniform, Plain, Placed, Erase, Reprints;
    AllSpelledPlaced(items, tmpl, o);
    if items != [] {
      ItemReprints(items[0], tmpl, buffer, o);
      ItemsReprint(items[1..], tmpl, buffer, o);
      ReprintsConcat(Erase(items[0], tmpl, buffer), EraseAll(items[1..], tmpl, buffer));
    }
  }

  /** In the tree of a plain template, every section can be printed back to its original text. */
  lemma {:induction false} SectionsReprint(tmpl: Bytes, buffer: nat, o: Options)
    requires Pieces(tmpl, DEFAULT, o).Ok? && o.escapeByDefault && !o.escapeOutput
    requires AllPlain(Pieces(tmpl, DEFAULT, o).value)
    ensures AllPlaced(Pieces(tmpl, DEFAULT, o).value, tmpl)
    ensures Reprints(TreeOf(Pieces(tmpl, DEFAULT, o).value, tmpl, buffer))
  {
    hide Pieces, Spelled, Settled, Tiles, Uniform, Plain, ReprintsAll;
    var items := PiecesRun(tmpl, DEFAULT, o);
    PlainIsUniform(tmpl, o);
    ItemsReprint(items, tmpl, buffer, o);
  }
}
