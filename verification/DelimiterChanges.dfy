/** Printing a template that changes delimiters never gives it back: once the printed text lags behind the source, it can
    never catch up again, whatever the delimiters are. */
module DelimiterChanges {
  import opened Base
  import opened Template
  import opened Strings
  import opened SourceTree
  import opened TokenizerSpec
  import opened Tiling
  import opened TokenizerTheorems
  import opened TokenizerResults
  import opened Printer

  // ---- The pieces in a row ----------------------------------------------------------------------------

  /** Literal text or a single tag; an opening tag stands for itself only. */
  datatype Piece = Text(flags: int, from: nat, to: nat) | Mark(head: Head, spelling: Spelling, from: nat, to: nat)

  function Row(item: Item): seq<Piece> {
    match item
    case Literal(flags, _, from, to) => [Text(flags, from, to)]
    case Tag(head, spelling, from, to) => [Mark(head, spelling, from, to)]
    case Block(head, spelling, from, body, _, _, items) => [Mark(head, spelling, from, body)] + RowAll(items)
  }

  function RowAll(items: seq<Item>): seq<Piece> {
    if items == [] then [] else Row(items[0]) + RowAll(items[1..])
  }

  lemma {:induction false} RowConcat(a: seq<Item>, b: seq<Item>)
    ensures RowAll(a + b) == RowAll(a) + RowAll(b)
  {
    if a == [] {
      assert a + b == b;
    } else {
      assert (a + b)[0] == a[0] && (a + b)[1..] == a[1..] + b;
      RowConcat(a[1..], b);
    }
  }

  lemma {:induction false} RowOne(item: Item)
    ensures RowAll([item]) == Row(item)
  {
    assert [item][1..] == [];
  }

  /** Each tag is written with the delimiters in force there; the result are those in force at the end. */
  function Chain(row: seq<Piece>, d: Delims): Option<Delims> {
    if row == [] then Some(d)
    else
      match row[0]
      case Text(_, _, _) => Chain(row[1..], d)
      case Mark(head, spelling, _, _) =>
        if spelling.delims != d || !Tight(spelling) then None else Chain(row[1..], NextDelims(head, d))
  }

  function NextDelims(head: Head, d: Delims): Delims {
    match head.change
    case Some(change) => change
    case None => d
  }

  lemma {:induction false} ChainConcat(a: seq<Piece>, b: seq<Piece>, d: Delims)
    ensures Chain(a + b, d) == match Chain(a, d) case Some(e) => Chain(b, e) case None => None
  {
    hide Tight;
    if a == [] {
      assert a + b == b;
    } else {
      assert (a + b)[0] == a[0] && (a + b)[1..] == a[1..] + b;
      match a[0] {
        case Text(_, _, _) => ChainConcat(a[1..], b, d);
        case Mark(head, spelling, _, _) => ChainConcat(a[1..], b, NextDelims(head, d));
      }
    }
  }

  // ---- The scan keeps the chain ----------------------------------------------------------------------

  /** What has been read so far: the pieces of every open section behind its tag. */
  function RowOf(levels: seq<Level>): seq<Piece> {
    if levels == [] then []
    else
      var top := levels[|levels| - 1];
      RowOf(levels[..|levels| - 1])
      + (if |levels| == 1 then [] else [Mark(top.head, top.spelling, top.from, top.body)]) + RowAll(top.items)
  }

  predicate Linked(st: Parse, d: Delims) {
    st.levels != [] && Chain(RowOf(st.levels), d) == Some(st.delims)
  }

  lemma {:induction false} RowAdd(st: Parse, items: seq<Item>)
    requires st.levels != []
    ensures RowOf(AddAll(st, items).levels) == RowOf(st.levels) + RowAll(items)
  {
    var n := |st.levels| - 1;
    assert AddAll(st, items).levels[..n] == st.levels[..n];
    RowConcat(st.levels[n].items, items);
  }

  lemma {:induction false} RowOpen(levels: seq<Level>, level: Level)
    requires levels != [] && level.items == []
    ensures RowOf(levels + [level]) == RowOf(levels) + [Mark(level.head, level.spelling, level.from, level.body)]
  {
    assert (levels + [level])[..|levels|] == levels;
  }

  /** Closing a section changes nothing about the row. */
  lemma {:induction false} RowClose(st: Parse, f: Found)
    requires |st.levels| > 1
    ensures RowOf(CloseBlock(st, f).levels) == RowOf(st.levels)
  {
    var n := |st.levels| - 1;
    var top := st.levels[n];
    var below := st.(levels := st.levels[..n]);
    var block := Block(top.head, top.spelling, top.from, top.body, f.open, f.End(), top.items);
    RowAdd(below, [block]);
    RowOne(block);
    var a, b, c := RowOf(st.levels[..n]), [Mark(top.head, top.spelling, top.from, top.body)], RowAll(top.items);
    assert a + (b + c) == (a + b) + c;
  }

  /** Literal text does not matter. */
  lemma {:induction false} TextsLinked(st: Parse, items: seq<Item>, d: Delims)
    requires Linked(st, d) && forall i :: 0 <= i < |items| ==> items[i].Literal?
    ensures Linked(AddAll(st, items), d)
  {
    RowAdd(st, items);
    ChainConcat(RowOf(st.levels), RowAll(items), d);
    TextsChain(items, st.delims);
  }

  lemma {:induction false} TextsChain(items: seq<Item>, d: Delims)
    requires forall i :: 0 <= i < |items| ==> items[i].Literal?
    ensures Chain(RowAll(items), d) == Some(d)
  {
    if items != [] {
      TextsChain(items[1..], d);
      var one := Row(items[0]);
      assert (one + RowAll(items[1..]))[1..] == RowAll(items[1..]);
    }
  }

  lemma {:induction false} OneMark(head: Head, spelling: Spelling, from: nat, to: nat, d: Delims)
    requires spelling.delims == d && Tight(spelling)
    ensures Chain([Mark(head, spelling, from, to)], d) == Some(NextDelims(head, d))
  {
    assert [Mark(head, spelling, from, to)][1..] == [];
  }

  lemma {:induction false} TagLinked(st: Parse, f: Found, o: Options, d: Delims)
    requires Linked(st, d) && f.spelling.delims == st.delims && Tight(f.spelling) && AddTag(st, f, o).Ok?
    ensures Linked(AddTag(st, f, o).value, d)
  {
    hide Tight;
    var tag := Tag(f.head, f.spelling, f.open, f.End());
    RowAdd(st, [tag]);
    RowOne(tag);
    OneMark(f.head, f.spelling, f.open, f.End(), st.delims);
    ChainConcat(RowOf(st.levels), [Mark(f.head, f.spelling, f.open, f.End())], d);
    if f.head.change.None? {
      if Opens(f.head.kind) {
        RowOpen(st.levels, Level(f.head, f.spelling, f.open, f.End(), []));
      } else if f.head.kind.TypeStop? {
        RowClose(Add(st, tag), f);
      }
    }
  }

  lemma {:induction false} StepLinked(tmpl: Bytes, st: Parse, f: Found, o: Options, d: Delims)
    requires st.levels != [] && Linked(st, d) && f.Within(tmpl) && f.spelling.delims == st.delims && Tight(f.spelling)
    requires TagStep(tmpl, st, f, o).Ok?
    ensures Linked(TagStep(tmpl, st, f, o).value.parse, d)
  {
    hide Linked, Tight, AddBefore, AddAfter, LineStart, LineEnd, PrefixIsIndent, AddTag;
    var lineEnd := Standalone(tmpl, f);
    AddBeforeAdds(tmpl, st, f, lineEnd, o);
    var before := AddBefore(tmpl, st, f, lineEnd, o).value;
    BeforeTexts(tmpl, f, lineEnd);
    CountLinked(st, before.count, d);
    TextsLinked(st.(count := before.count), Before(tmpl, f, lineEnd), d);
    TagLinked(before, f, o, d);
    var tagged := AddTag(before, f, o).value;
    AddAfterAdds(tagged, f, lineEnd, o);
    var after := AddAfter(tagged, f, lineEnd, o).value;
    CountLinked(tagged, after.count, d);
    TextsLinked(tagged.(count := after.count), Behind(f, lineEnd), d);
  }

  lemma {:induction false} CountLinked(st: Parse, count: nat, d: Delims)
    requires Linked(st, d)
    ensures Linked(st.(count := count), d)
  {
  }

  lemma {:induction false} BeforeTexts(tmpl: Bytes, f: Found, lineEnd: Option<nat>)
    requires f.Within(tmpl) && (lineEnd.Some? ==> f.text <= LineStart(tmpl, f.open))
    ensures forall i :: 0 <= i < |Before(tmpl, f, lineEnd)| ==> Before(tmpl, f, lineEnd)[i].Literal?
  {
    hide LineStart;
  }

  lemma {:induction false} ParseLinked(tmpl: Bytes, text: nat, st: Parse, o: Options, d: Delims)
    requires text <= |tmpl| && Usable(st.delims) && Linked(st, d)
    ensures var r := ParseFrom(tmpl, text, st, o); r.Ok? ==> Chain(RowAll(r.value.levels[0].items), d).Some?
    decreases |tmpl| - text
  {
    hide Tight, ParseTag, TagStep, FindAt, Recognized;
    var r := ParseFrom(tmpl, text, st, o);
    if r.Ok? {
      var open := FindAt(tmpl, text, st.delims.start);
      if open.Some? {
        var f, stepped := ParsedTag(tmpl, text, open.value, st, o);
        StepLinked(tmpl, st, f, o, d);
        ParseLinked(tmpl, stepped.next, stepped.parse, o, d);
      } else {
        LastText(tmpl, text, st, o, d);
      }
    }
  }

  /** The end of the scan. */
  lemma {:induction false} LastText(tmpl: Bytes, text: nat, st: Parse, o: Options, d: Delims)
    requires text <= |tmpl| && Usable(st.delims) && Linked(st, d)
    requires FindAt(tmpl, text, st.delims.start).None? && ParseFrom(tmpl, text, st, o).Ok?
    ensures Chain(RowAll(ParseFrom(tmpl, text, st, o).value.levels[0].items), d).Some?
  {
    hide FindAt, Tight;
    var r := ParseFrom(tmpl, text, st, o).value;
    if text < |tmpl| {
      var item := Literal(FLAG_NONE, o.escapeOutput, text, |tmpl|);
      CountLinked(st, r.count, d);
      TextsLinked(st.(count := r.count), [item], d);
    }
    assert Linked(r, d) && r.levels[..0] == [];
    assert RowOf(r.levels) == [] + [] + RowAll(r.levels[0].items) == RowAll(r.levels[0].items);
  }

  lemma {:induction false} PiecesLinked(tmpl: Bytes, d: Delims, o: Options)
    requires Usable(d) && Pieces(tmpl, d, o).Ok?
    ensures Chain(RowAll(Pieces(tmpl, d, o).value), d).Some?
  {
    hide ParseFrom;
    assert Initial(d).levels[..0] == [];
    assert RowOf(Initial(d).levels) == [];
    ParseLinked(tmpl, 0, Initial(d), o, d);
  }

  // ---- Positions and printed text of a row --------------------------------------------------------------

  /** What a piece prints. */
  function PieceText(piece: Piece, tmpl: Bytes): Bytes
    requires piece.Text? ==> piece.from <= piece.to <= |tmpl|
  {
    match piece
    case Text(_, from, to) => tmpl[from..to]
    case Mark(head, _, _, _) =>
      if head.change.Some? then [] else HeadText(Leaf(head.kind, head.flags, head.name), OPEN, CLOSE)
  }

  /** The pieces follow each other from one position to the other, and each tag is what the source has there. */
  predicate InRow(row: seq<Piece>, from: nat, to: nat, tmpl: Bytes, o: Options) {
    if row == [] then from == to
    else
      row[0].from == from <= row[0].to <= |tmpl| && InRow(row[1..], row[0].to, to, tmpl, o)
      && (row[0].Mark? ==> SpelledTag(row[0].head, row[0].spelling, from, row[0].to, tmpl, o))
  }

  function RowText(row: seq<Piece>, from: nat, to: nat, tmpl: Bytes, o: Options): Bytes
    requires InRow(row, from, to, tmpl, o)
  {
    if row == [] then [] else PieceText(row[0], tmpl) + RowText(row[1..], row[0].to, to, tmpl, o)
  }

  lemma {:induction false} InRowConcat(a: seq<Piece>, b: seq<Piece>, from: nat, middle: nat, to: nat, tmpl: Bytes, o: Options)
    requires InRow(a, from, middle, tmpl, o) && InRow(b, middle, to, tmpl, o)
    ensures InRow(a + b, from, to, tmpl, o)
    ensures RowText(a + b, from, to, tmpl, o) == RowText(a, from, middle, tmpl, o) + RowText(b, middle, to, tmpl, o)
    decreases |a|
  {
    hide SpelledTag, PieceText;
    if a == [] {
      assert a + b == b;
    } else {
      assert (a + b)[0] == a[0] && (a + b)[1..] == a[1..] + b;
      InRowConcat(a[1..], b, a[0].to, middle, to, tmpl, o);
      var x, y, z := PieceText(a[0], tmpl), RowText(a[1..], a[0].to, middle, tmpl, o), RowText(b, middle, to, tmpl, o);
      assert x + (y + z) == (x + y) + z;
    }
  }

  lemma {:induction false} OnePiece(piece: Piece, tmpl: Bytes, o: Options)
    requires piece.from <= piece.to <= |tmpl|
    requires piece.Mark? ==> SpelledTag(piece.head, piece.spelling, piece.from, piece.to, tmpl, o)
    ensures InRow([piece], piece.from, piece.to, tmpl, o)
    ensures RowText([piece], piece.from, piece.to, tmpl, o) == PieceText(piece, tmpl)
  {
    hide SpelledTag, PieceText;
    var one := [piece];
    assert one[1..] == [];
    assert PieceText(piece, tmpl) + [] == PieceText(piece, tmpl);
  }

  /** The row of an item prints what its node prints. */
  lemma {:induction false} ItemInRow(item: Item, tmpl: Bytes, buffer: nat, o: Options)
    requires Spelled(item, tmpl, o) && item.from <= item.to && !o.escapeOutput
    ensures Placed(item, tmpl) && InRow(Row(item), item.from, item.to, tmpl, o)
    ensures RowText(Row(item), item.from, item.to, tmpl, o) == Printed(Erase(item, tmpl, buffer), DEFAULT)
    decreases item, 1
  {
    hide SpelledTag, ClosedBy, Settled, Classify, HeadText, TagText, NodesText;
    SpelledPlaced(item, tmpl, o);
    match item {
      case Literal(_, _, from, to) =>
        OnePiece(Row(item)[0], tmpl, o);
        OnePrinted(Erase(item, tmpl, buffer)[0], DEFAULT);
        OutputPrinted(Erase(item, tmpl, buffer)[0], DEFAULT);
      case Tag(head, spelling, from, to) =>
        SpelledOrder(head, spelling, from, to, tmpl, o);
        OnePiece(Mark(head, spelling, from, to), tmpl, o);
        if head.change.None? {
          OnePrinted(Leaf(head.kind, head.flags, head.name), DEFAULT);
          LeafPrinted(Leaf(head.kind, head.flags, head.name), DEFAULT);
        } else {
          NothingPrinted(DEFAULT);
        }
      case Block(head, spelling, from, body, close, to, items) =>
        SpelledOrder(head, spelling, from, body, tmpl, o);
        ItemsInRow(items, body, to, tmpl, buffer, o);
        OnePiece(Mark(head, spelling, from, body), tmpl, o);
        InRowConcat([Mark(head, spelling, from, body)], RowAll(items), from, body, to, tmpl, o);
        var n := Erase(item, tmpl, buffer)[0];
        OnePrinted(n, DEFAULT);
        SameHead(n, Leaf(head.kind, head.flags, head.name));
    }
  }

  lemma {:induction false} SameHead(n: Node, m: Node)
    requires n.Node? && m.Node? && n.kind == m.kind && n.flags == m.flags && n.data == m.data
    ensures HeadText(n, OPEN, CLOSE) == HeadText(m, OPEN, CLOSE)
  {
  }

  lemma {:induction false} ItemsInRow(items: seq<Item>, from: nat, to: nat, tmpl: Bytes, buffer: nat, o: Options)
    requires AllSpelled(items, tmpl, o) && Tiles(items, from, to) && to <= |tmpl| && !o.escapeOutput
    ensures AllPlaced(items, tmpl) && InRow(RowAll(items), from, to, tmpl, o)
    ensures RowText(RowAll(items), from, to, tmpl, o) == Printed(EraseAll(items, tmpl, buffer), DEFAULT)
    decreases items, 0
  {
    hide Spelled, Placed, Erase, Row, NodesText;
    AllSpelledPlaced(items, tmpl, o);
    if items == [] {
      NothingPrinted(DEFAULT);
    } else {
      ItemInRow(items[0], tmpl, buffer, o);
      ItemsInRow(items[1..], items[0].to, to, tmpl, buffer, o);
      InRowConcat(Row(items[0]), RowAll(items[1..]), from, items[0].to, to, tmpl, o);
      PrintConcat(Erase(items[0], tmpl, buffer), EraseAll(items[1..], tmpl, buffer), DEFAULT, false);
    }
  }

  // ---- One tag --------------------------------------------------------------------------------------------

  const BRACES_AS_DELIMITERS := Delims(BRACE, CLOSE)

  /** What a printed tag looks like, and how it compares with its source in length. */
  lemma {:induction false} MarkShape(m: Piece, tmpl: Bytes, o: Options) returns (inner: Bytes)
    requires m.Mark? && SpelledTag(m.head, m.spelling, m.from, m.to, tmpl, o) && m.head.change.None? && o.escapeByDefault
    ensures PieceText(m, tmpl) == OPEN + inner + CLOSE
    ensures |inner| <= |m.spelling.raw| + if m.spelling.triple then 1 else 0
  {
    hide Classify, Sigil, Unpadded, TagText;
    var n := Leaf(m.head.kind, m.head.flags, m.head.name);
    PrintedRaw(m.head, m.spelling, o.limits.maxDelimiterBytes, n);
    SpelledKind(m.head, m.spelling, m.from, m.to, tmpl, o);
    inner := Sigil(n) + m.head.name;
    assert OPEN + Sigil(n) + m.head.name + CLOSE == OPEN + inner + CLOSE;
  }

  /** The source of a tag: its delimiters at both ends, and some content in between. */
  lemma {:induction false} MarkSource(m: Piece, tmpl: Bytes, o: Options, d: Delims)
    requires m.Mark? && SpelledTag(m.head, m.spelling, m.from, m.to, tmpl, o) && m.spelling.delims == d && Usable(d)
    ensures m.to <= |tmpl| && m.spelling.raw != []
    ensures var brace, extra := if m.spelling.triple then 1 else 0, if ExtraBrace(m.spelling, m.head.change.Some?) then 1 else 0;
            && m.to == m.from + |d.start| + brace + |m.spelling.raw| + |d.stop| + extra
            && tmpl[m.from] == d.start[0]
            && tmpl[m.to - extra - |d.stop|..m.to - extra] == d.stop
            && tmpl[m.to - extra - |d.stop| - 1] == m.spelling.raw[|m.spelling.raw| - 1]
            && (extra == 1 ==> tmpl[m.to - 1] == CLOSE[0])
  {
    hide Classify, TagText, ExtraBrace;
    NotBlank(m, tmpl, o);
    var text, extra := TagText(m.spelling, m.head.change.Some?), if ExtraBrace(m.spelling, m.head.change.Some?) then 1 else 0;
    TagParts(m.spelling, m.head.change.Some?);
    var stop := |text| - extra - |d.stop|;
    assert forall i :: 0 <= i < |text| ==> tmpl[m.from + i] == text[i];
    assert tmpl[m.from + stop..m.from + stop + |d.stop|] == text[stop..stop + |d.stop|];
  }

  lemma {:induction false} TagParts(s: Spelling, change: bool)
    requires Usable(s.delims) && s.raw != []
    ensures var text, brace, extra := TagText(s, change), if s.triple then 1 else 0, if ExtraBrace(s, change) then 1 else 0;
            && |text| == |s.delims.start| + brace + |s.raw| + |s.delims.stop| + extra && text[0] == s.delims.start[0]
            && text[|text| - extra - |s.delims.stop|..|text| - extra] == s.delims.stop
            && text[|text| - extra - |s.delims.stop| - 1] == s.raw[|s.raw| - 1]
            && (extra == 1 ==> text[|text| - 1] == CLOSE[0])
  {
  }

  lemma {:induction false} NotBlank(m: Piece, tmpl: Bytes, o: Options)
    requires m.Mark? && SpelledTag(m.head, m.spelling, m.from, m.to, tmpl, o)
    ensures m.spelling.raw != []
  {
    hide TagText;
    assert Trim([], WHITESPACE) == [];
  }

  /** A copy: the text printed for a stretch of the source is found in the template where it is printed. */
  predicate PrintedAt(tmpl: Bytes, at: nat, text: Bytes) {
    at + |text| <= |tmpl| && tmpl[at..at + |text|] == text
  }

  lemma {:induction false} PrintedFirst(tmpl: Bytes, at: nat, a: Bytes, b: Bytes)
    requires PrintedAt(tmpl, at, a + b)
    ensures PrintedAt(tmpl, at, a) && PrintedAt(tmpl, at + |a|, b)
  {
    assert tmpl[at..at + |a|] == tmpl[at..at + |a + b|][..|a|];
    assert tmpl[at + |a|..at + |a| + |b|] == tmpl[at..at + |a + b|][|a|..];
  }

  /** The brackets of a printed tag, where it is printed. */
  lemma {:induction false} Bracketed(tmpl: Bytes, at: nat, inner: Bytes)
    requires PrintedAt(tmpl, at, OPEN + inner + CLOSE)
    ensures var end := at + |inner| + 4;
            end <= |tmpl| && tmpl[at] == tmpl[at + 1] == OPEN[0] && tmpl[end - 1] == tmpl[end - 2] == CLOSE[0]
  {
    var text := OPEN + inner + CLOSE;
    assert forall i :: 0 <= i < |text| ==> tmpl[at + i] == text[i];
  }

  // ---- Behind and ahead -------------------------------------------------------------------------------------

  /** Literal text that is copied from a little further on, over and over, repeats. */
  lemma {:induction false} Repeats(tmpl: Bytes, from: nat, to: nat, k: nat, b: byte, i: nat)
    requires from <= to && to + k <= |tmpl| && k > 0
    requires forall j :: from <= j < to ==> tmpl[j + k] == tmpl[j]
    requires forall j :: from <= j < from + k ==> tmpl[j] == b
    requires from <= i < to + k
    ensures tmpl[i] == b
    decreases i
  {
    if i >= from + k {
      Repeats(tmpl, from, to, k, b, i - k);
      assert tmpl[(i - k) + k] == tmpl[i - k];
    }
  }

  /** The copy of a stretch of the source that is printed k positions later or earlier. */
  lemma {:induction false} Copied(tmpl: Bytes, from: nat, to: nat, at: nat, i: nat)
    requires from <= to <= |tmpl| && PrintedAt(tmpl, at, tmpl[from..to]) && from <= i < to
    ensures at + (i - from) < |tmpl| && tmpl[at + (i - from)] == tmpl[i]
  {
    assert tmpl[at..at + (to - from)][i - from] == tmpl[from..to][i - from];
  }

  /** The printed text is one or two bytes ahead, and the source goes on with closing braces, although tags open with `{`:
      this cannot end well. */
  lemma {:induction false} NeverAhead(row: seq<Piece>, from: nat, at: nat, tmpl: Bytes, o: Options, d: Delims)
    requires InRow(row, from, |tmpl|, tmpl, o) && Chain(row, d).Some? && Usable(d)
    requires from < at <= from + 2 && at <= |tmpl| && (forall j :: from <= j < at ==> tmpl[j] == CLOSE[0])
    requires d.start[0] == OPEN[0]
    requires PrintedAt(tmpl, at, RowText(row, from, |tmpl|, tmpl, o)) && at + |RowText(row, from, |tmpl|, tmpl, o)| == |tmpl|
    ensures false
    decreases |row|
  {
    hide SpelledTag, Tight;
    if row != [] {
      match row[0] {
        case Text(_, _, to) =>
          var k := at - from;
          PrintedFirst(tmpl, at, tmpl[from..to], RowText(row[1..], to, |tmpl|, tmpl, o));
          forall j | from <= j < to
            ensures tmpl[j + k] == tmpl[j]
          {
            Copied(tmpl, from, to, at, j);
          }
          forall j | to <= j < to + k
            ensures tmpl[j] == CLOSE[0]
          {
            Repeats(tmpl, from, to, k, CLOSE[0], j);
          }
          NeverAhead(row[1..], to, to + k, tmpl, o, d);
        case Mark(_, _, _, _) =>
          MarkSource(row[0], tmpl, o, d);
      }
    }
  }

  /** One byte behind, with single braces to open tags, the last byte was no opening brace. */
  predicate Guarded(tmpl: Bytes, from: nat, at: nat, d: Delims)
    requires at <= from <= |tmpl|
  {
    from == at + 1 && d == BRACES_AS_DELIMITERS ==> tmpl[from - 1] != OPEN[0]
  }

  /** From a tag that starts level or behind: where the printed text is at its end. */
  lemma {:induction false} TagKeepsBehind(m: Piece, at: nat, tmpl: Bytes, o: Options, d: Delims)
    requires m.Mark? && m.head.change.None? && SpelledTag(m.head, m.spelling, m.from, m.to, tmpl, o) && o.escapeByDefault
    requires m.spelling.delims == d && Tight(m.spelling) && Usable(d) && m.to <= |tmpl|
    requires at <= m.from && Guarded(tmpl, m.from, at, d) && PrintedAt(tmpl, at, PieceText(m, tmpl))
    ensures var end := at + |PieceText(m, tmpl)|;
            && (at < m.from ==> end != m.to)
            && (end < m.to ==> Guarded(tmpl, m.to, end, d))
            && (end > m.to ==> end <= m.to + 2 && d.start[0] == OPEN[0] && forall j :: m.to <= j < end ==> tmpl[j] == CLOSE[0])
  {
    hide SpelledTag, Classify, TagText;
    var inner := MarkShape(m, tmpl, o);
    Bracketed(tmpl, at, inner);
    MarkSource(m, tmpl, o, d);
    var end, stop := at + |inner| + 4, |d.stop|;
    assert |PieceText(m, tmpl)| == |inner| + 4;
    if end < m.to && d == BRACES_AS_DELIMITERS {
      assert tmpl[m.to - 1] == CLOSE[0] by {
        LastByte(m, tmpl, o, d);
      }
    }
    if at < m.from {
      NeverLevel(m, at, inner, tmpl, o, d);
    }
  }

  /** No tag catches up: its closing delimiter would be in its content, or the brace before it would be its own. */
  lemma {:induction false} NeverLevel(m: Piece, at: nat, inner: Bytes, tmpl: Bytes, o: Options, d: Delims)
    requires m.Mark? && m.head.change.None? && SpelledTag(m.head, m.spelling, m.from, m.to, tmpl, o)
    requires m.spelling.delims == d && Tight(m.spelling) && Usable(d) && m.to <= |tmpl| && at < m.from
    requires Guarded(tmpl, m.from, at, d) && |inner| <= |m.spelling.raw| + if m.spelling.triple then 1 else 0
    requires at + |inner| + 4 <= |tmpl| && tmpl[at] == tmpl[at + 1] == OPEN[0]
    requires tmpl[at + |inner| + 3] == tmpl[at + |inner| + 2] == CLOSE[0]
    ensures at + |inner| + 4 != m.to
  {
    hide SpelledTag, Tight;
    if at + |inner| + 4 == m.to {
      if |d.stop| == 1 {
        ShortStop(m, tmpl, o, d);
      } else {
        LongStop(m, at, inner, tmpl, o, d);
      }
    }
  }

  lemma {:induction false} LastByte(m: Piece, tmpl: Bytes, o: Options, d: Delims)
    requires m.Mark? && m.head.change.None? && SpelledTag(m.head, m.spelling, m.from, m.to, tmpl, o)
    requires m.spelling.delims == d && Usable(d)
    ensures m.to <= |tmpl| && m.to > 0
    ensures !ExtraBrace(m.spelling, false) ==> tmpl[m.to - 1] == d.stop[|d.stop| - 1]
    ensures ExtraBrace(m.spelling, false) ==> tmpl[m.to - 1] == CLOSE[0]
  {
    hide SpelledTag;
    MarkSource(m, tmpl, o, d);
    if !ExtraBrace(m.spelling, false) {
      assert tmpl[m.to - |d.stop|..m.to][|d.stop| - 1] == tmpl[m.to - 1];
    }
  }

  /** A closing delimiter of one byte is not the last byte of the content as well. */
  lemma {:induction false} ShortStop(m: Piece, tmpl: Bytes, o: Options, d: Delims)
    requires m.Mark? && m.head.change.None? && SpelledTag(m.head, m.spelling, m.from, m.to, tmpl, o)
    requires m.spelling.delims == d && Tight(m.spelling) && Usable(d) && |d.stop| == 1
    ensures 2 <= m.to <= |tmpl| && tmpl[m.to - 1] != tmpl[m.to - 2]
  {
    hide SpelledTag;
    MarkSource(m, tmpl, o, d);
    LastByte(m, tmpl, o, d);
    var raw := m.spelling.raw;
    assert raw[|raw| - 1] in raw;
  }

  /** A tag with a longer closing delimiter that catches up is `{name}}`, and its brace follows the one that is printed. */
  lemma {:induction false} LongStop(m: Piece, at: nat, inner: Bytes, tmpl: Bytes, o: Options, d: Delims)
    requires m.Mark? && m.head.change.None? && SpelledTag(m.head, m.spelling, m.from, m.to, tmpl, o)
    requires m.spelling.delims == d && Tight(m.spelling) && Usable(d) && m.to <= |tmpl| && |d.stop| > 1
    requires at < m.from && at + |inner| + 4 == m.to
    requires |inner| <= |m.spelling.raw| + if m.spelling.triple then 1 else 0
    requires tmpl[at] == tmpl[at + 1] == OPEN[0] && tmpl[m.to - 1] == tmpl[m.to - 2] == CLOSE[0]
    ensures d == BRACES_AS_DELIMITERS && m.from == at + 1 && tmpl[m.from - 1] == OPEN[0]
  {
    hide SpelledTag;
    MarkSource(m, tmpl, o, d);
    assert !m.spelling.triple && |d.start| == 1 && |d.stop| == 2 && m.from == at + 1;
    assert d.stop == tmpl[m.to - 2..m.to];
    assert d.stop == CLOSE && d.start == BRACE;
  }

  /** Once behind, printing stays behind, and never gives the template back. */
  lemma {:induction false} NeverBehind(row: seq<Piece>, from: nat, at: nat, tmpl: Bytes, o: Options, d: Delims)
    requires InRow(row, from, |tmpl|, tmpl, o) && Chain(row, d).Some? && Usable(d) && o.escapeByDefault
    requires at < from <= |tmpl| && Guarded(tmpl, from, at, d)
    requires PrintedAt(tmpl, at, RowText(row, from, |tmpl|, tmpl, o)) && at + |RowText(row, from, |tmpl|, tmpl, o)| == |tmpl|
    ensures false
    decreases |row|
  {
    hide SpelledTag, Tight, PieceText;
    if row != [] {
      var first, to := row[0], row[0].to;
      PrintedFirst(tmpl, at, PieceText(first, tmpl), RowText(row[1..], to, |tmpl|, tmpl, o));
      match first {
        case Text(_, _, _) =>
          TextLevel(first, tmpl);
          TextGuarded(tmpl, from, to, at, d);
          NeverBehind(row[1..], to, at + (to - from), tmpl, o, d);
        case Mark(head, _, _, _) =>
          if head.change.Some? {
            ChangeUnprinted(first, tmpl, o, d);
            NeverBehind(row[1..], to, at, tmpl, o, NextDelims(head, d));
          } else {
            TagKeepsBehind(first, at, tmpl, o, d);
            var end := at + |PieceText(first, tmpl)|;
            if end < to {
              NeverBehind(row[1..], to, end, tmpl, o, d);
            } else {
              NeverAhead(row[1..], to, end, tmpl, o, d);
            }
          }
      }
    }
  }

  /** Literal text keeps the distance. */
  lemma {:induction false} TextGuarded(tmpl: Bytes, from: nat, to: nat, at: nat, d: Delims)
    requires at < from <= to <= |tmpl| && Guarded(tmpl, from, at, d)
    requires PrintedAt(tmpl, at, tmpl[from..to])
    ensures Guarded(tmpl, to, at + (to - from), d)
  {
    if from == at + 1 && d == BRACES_AS_DELIMITERS && tmpl[to - 1] == OPEN[0] {
      forall j | from <= j < to
        ensures tmpl[j - 1] == tmpl[j]
      {
        Copied(tmpl, from, to, at, j);
      }
      RepeatsBack(tmpl, from, to);
    }
  }

  lemma {:induction false} RepeatsBack(tmpl: Bytes, from: nat, to: nat)
    requires 0 < from <= to <= |tmpl| && forall j :: from <= j < to ==> tmpl[j - 1] == tmpl[j]
    ensures tmpl[from - 1] == tmpl[to - 1]
  {
    if from < to {
      RepeatsBack(tmpl, from, to - 1);
    }
  }

  /** A change of delimiters prints nothing but takes more than one byte of the source. */
  lemma {:induction false} ChangeUnprinted(m: Piece, tmpl: Bytes, o: Options, d: Delims)
    requires m.Mark? && m.head.change.Some? && SpelledTag(m.head, m.spelling, m.from, m.to, tmpl, o)
    requires m.spelling.delims == d && Usable(d)
    ensures PieceText(m, tmpl) == [] && m.to >= m.from + 3 && Usable(NextDelims(m.head, d))
  {
    hide TagText, Classify;
    MarkSource(m, tmpl, o, d);
    ChangeUsable(m.spelling.raw, m.spelling.triple, o.escapeByDefault, o.limits.maxDelimiterBytes);
  }

  predicate Unchanged(row: seq<Piece>) {
    forall i :: 0 <= i < |row| && row[i].Mark? ==> row[i].head.change.None?
  }

  /** If the printed text is the template, nothing changes the delimiters. */
  lemma {:induction false} LevelUnchanged(row: seq<Piece>, from: nat, tmpl: Bytes, o: Options, d: Delims)
    requires InRow(row, from, |tmpl|, tmpl, o) && Chain(row, d).Some? && Usable(d) && o.escapeByDefault && from <= |tmpl|
    requires PrintedAt(tmpl, from, RowText(row, from, |tmpl|, tmpl, o)) && from + |RowText(row, from, |tmpl|, tmpl, o)| == |tmpl|
    ensures Unchanged(row)
    decreases |row|
  {
    hide SpelledTag, Tight, PieceText;
    if row != [] {
      var first, to := row[0], row[0].to;
      PrintedFirst(tmpl, from, PieceText(first, tmpl), RowText(row[1..], to, |tmpl|, tmpl, o));
      match first {
        case Text(_, _, _) =>
          TextLevel(first, tmpl);
          LevelUnchanged(row[1..], to, tmpl, o, d);
        case Mark(head, _, _, _) =>
          if head.change.Some? {
            ChangeUnprinted(first, tmpl, o, d);
            NeverBehind(row[1..], to, from, tmpl, o, NextDelims(head, d));
          } else {
            TagKeepsBehind(first, from, tmpl, o, d);
            var end := from + |PieceText(first, tmpl)|;
            if end < to {
              NeverBehind(row[1..], to, end, tmpl, o, d);
            } else if end > to {
              NeverAhead(row[1..], to, end, tmpl, o, d);
            }
            LevelUnchanged(row[1..], to, tmpl, o, d);
          }
      }
      UnchangedCons(row);
    }
  }

  lemma {:induction false} TextLevel(piece: Piece, tmpl: Bytes)
    requires piece.Text? && piece.from <= piece.to <= |tmpl|
    ensures PieceText(piece, tmpl) == tmpl[piece.from..piece.to] && |PieceText(piece, tmpl)| == piece.to - piece.from
  {
  }

  lemma {:induction false} UnchangedCons(row: seq<Piece>)
    requires row != [] && Unchanged(row[1..]) && (row[0].Mark? ==> row[0].head.change.None?)
    ensures Unchanged(row)
  {
    forall i | 0 <= i < |row| && row[i].Mark?
      ensures row[i].head.change.None?
    {
      if i > 0 {
        assert row[i] == row[1..][i - 1];
      }
    }
  }

  // ---- Back to the tree ----------------------------------------------------------------------------------------

  /** Without changes, the delimiters are the same throughout. */
  lemma {:induction false} UnchangedUniform(item: Item, d: Delims)
    requires Unchanged(Row(item)) && Chain(Row(item), d).Some?
    ensures Uniform(item, d) && Chain(Row(item), d) == Some(d)
    decreases item, 1
  {
    hide Tight;
    match item {
      case Literal(_, _, _, _) =>
        assert Row(item)[1..] == [];
      case Tag(_, _, _, _) =>
        assert Row(item)[0].Mark? && Row(item)[1..] == [];
      case Block(head, spelling, from, body, _, _, items) =>
        var mark := Mark(head, spelling, from, body);
        assert Row(item)[0] == mark && Row(item)[1..] == RowAll(items);
        forall i | 0 <= i < |RowAll(items)|
          ensures RowAll(items)[i] == Row(item)[i + 1]
        {
        }
        UnchangedAllUniform(items, d);
    }
  }

  lemma {:induction false} UnchangedAllUniform(items: seq<Item>, d: Delims)
    requires Unchanged(RowAll(items)) && Chain(RowAll(items), d).Some?
    ensures AllUniform(items, d) && Chain(RowAll(items), d) == Some(d)
    decreases items, 0
  {
    hide Row, Uniform, Tight;
    if items != [] {
      var a, b := Row(items[0]), RowAll(items[1..]);
      forall i | 0 <= i < |a| && a[i].Mark?
        ensures a[i].head.change.None?
      {
        assert (a + b)[i] == a[i];
      }
      forall i | 0 <= i < |b| && b[i].Mark?
        ensures b[i].head.change.None?
      {
        assert (a + b)[|a| + i] == b[i];
      }
      ChainConcat(a, b, d);
      UnchangedUniform(items[0], d);
      UnchangedAllUniform(items[1..], d);
      forall i | 0 <= i < |items|
        ensures Uniform(items[i], d)
      {
        assert i > 0 ==> items[i] == items[1..][i - 1];
      }
    }
  }

  lemma {:induction false} PlainUnchanged(item: Item)
    requires Plain(item)
    ensures Unchanged(Row(item))
    decreases item, 1
  {
    hide Unpadded;
    if item.Block? {
      PlainAllUnchanged(item.items);
    }
  }

  lemma {:induction false} PlainAllUnchanged(items: seq<Item>)
    requires AllPlain(items)
    ensures Unchanged(RowAll(items))
    decreases items, 0
  {
    hide Plain, Row;
    if items != [] {
      PlainUnchanged(items[0]);
      PlainAllUnchanged(items[1..]);
    }
  }

  /** A template without changes of delimiters is written in the default ones throughout. */
  lemma {:induction false} PlainIsUniform(tmpl: Bytes, o: Options)
    requires Pieces(tmpl, DEFAULT, o).Ok? && AllPlain(Pieces(tmpl, DEFAULT, o).value)
    ensures AllUniform(Pieces(tmpl, DEFAULT, o).value, DEFAULT)
  {
    hide Pieces, Uniform, Plain, Row, Chain;
    var items := Pieces(tmpl, DEFAULT, o).value;
    PiecesLinked(tmpl, DEFAULT, o);
    PlainAllUnchanged(items);
    UnchangedAllUniform(items, DEFAULT);
  }

  /** Printing the tree of any accepted template gives the template back exactly when none of its tags changes delimiters,
      has triple braces or is padded. No assumption is made about the delimiters the template goes on to use. */
  lemma {:induction false} PrintAfterParse(tmpl: Bytes, buffer: nat, o: Options)
    requires Pieces(tmpl, DEFAULT, o).Ok? && o.escapeByDefault && !o.escapeOutput
    ensures var items := Pieces(tmpl, DEFAULT, o).value;
            AllPlaced(items, tmpl) && (NodeText(TreeOf(items, tmpl, buffer), OPEN, CLOSE) == tmpl <==> AllPlain(items))
  {
    hide Pieces, Spelled, Tiles, Settled, Uniform, Plain, NodesText, Row, Chain, InRow, RowText;
    var items := PiecesRun(tmpl, DEFAULT, o);
    PiecesLinked(tmpl, DEFAULT, o);
    ItemsInRow(items, 0, |tmpl|, tmpl, buffer, o);
    RootPrinted(EraseAll(items, tmpl, buffer), DEFAULT);
    assert tmpl[0..|tmpl|] == tmpl;
    if NodeText(TreeOf(items, tmpl, buffer), OPEN, CLOSE) == tmpl {
      LevelUnchanged(RowAll(items), 0, tmpl, o, DEFAULT);
    }
    if AllPlain(items) {
      PlainAllUnchanged(items);
    }
    if Unchanged(RowAll(items)) {
      UnchangedAllUniform(items, DEFAULT);
      UniformPrintAfterParse(tmpl, DEFAULT, buffer, o);
    }
  }
}
