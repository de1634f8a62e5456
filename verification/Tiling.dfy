/** The pieces of a template cover it without gaps, and each of them is what the source says there. */
module Tiling {
  import opened Base
  import opened Template
  import opened Strings
  import opened SourceTree
  import opened TokenizerSpec

  // ---- Well-formed pieces -------------------------------------------------------------------------

  /** The items follow each other without a gap from one position to the other. */
  predicate Tiles(items: seq<Item>, from: nat, to: nat) {
    if items == [] then from == to else items[0].from == from && from <= items[0].to && Tiles(items[1..], items[0].to, to)
  }

  predicate IsMarkerItem(item: Item) {
    item.Literal? && item.flags == FLAGS_MARKER
  }

  predicate IsTagOf(item: Item, kind: Type) {
    item.Tag? && item.head.change.None? && item.head.kind == kind
  }

  /** Every indentation marker directly precedes a partial. */
  predicate Settled(items: seq<Item>) {
    forall i :: 0 <= i < |items| && IsMarkerItem(items[i]) ==> i + 1 < |items| && IsTagOf(items[i + 1], TypePartial)
  }

  predicate StopFree(items: seq<Item>) {
    forall i :: 0 <= i < |items| ==> !IsTagOf(items[i], TypeStop)
  }

  /** The last item, and only the last, is the closing tag of that name. */
  predicate ClosedBy(items: seq<Item>, name: Bytes, close: nat) {
    items != []
    && var last := items[|items| - 1];
       IsTagOf(last, TypeStop) && last.head.name == name && last.from == close && StopFree(items[..|items| - 1])
  }

  /** The source has that tag there. */
  predicate SpelledTag(head: Head, spelling: Spelling, from: nat, to: nat, tmpl: Bytes, o: Options) {
    && from <= to <= |tmpl| && tmpl[from..to] == TagText(spelling, head.change.Some?)
    && Classify(spelling.raw, spelling.triple, o.escapeByDefault, o.limits.maxDelimiterBytes) == Ok(head)
    && |spelling.raw| <= o.limits.maxTagBytes
  }

  predicate SpelledLiteral(flags: int, escaped: bool, from: nat, to: nat, tmpl: Bytes, o: Options) {
    && from <= to <= |tmpl| && (flags == FLAG_NONE || flags == FLAG_LAMBDA_ONLY || flags == FLAGS_MARKER)
    && (flags == FLAGS_MARKER ==> IsIndentation(tmpl[from..to])) && (escaped ==> flags == FLAG_NONE && o.escapeOutput)
  }

  predicate Spelled(item: Item, tmpl: Bytes, o: Options) {
    match item
    case Literal(flags, escaped, from, to) => SpelledLiteral(flags, escaped, from, to, tmpl, o)
    case Tag(head, spelling, from, to) => SpelledTag(head, spelling, from, to, tmpl, o) && !Opens(head.kind)
    case Block(head, spelling, from, body, close, to, items) =>
      && SpelledTag(head, spelling, from, body, tmpl, o) && head.change.None? && Opens(head.kind)
      && Tiles(items, body, to) && ClosedBy(items, head.name, close) && Settled(items)
      && close <= to <= |tmpl| && forall i :: 0 <= i < |items| ==> Spelled(items[i], tmpl, o)
  }

  predicate AllSpelled(items: seq<Item>, tmpl: Bytes, o: Options) {
    forall i :: 0 <= i < |items| ==> Spelled(items[i], tmpl, o)
  }

  // ---- Runs of pieces -----------------------------------------------------------------------------

  lemma {:induction false} TilesOrdered(items: seq<Item>, from: nat, to: nat)
    requires Tiles(items, from, to)
    ensures from <= to
    ensures forall i :: 0 <= i < |items| ==> from <= items[i].from <= items[i].to <= to
  {
    if items != [] {
      TilesOrdered(items[1..], items[0].to, to);
      forall i | 0 <= i < |items|
        ensures from <= items[i].from <= items[i].to <= to
      {
        if i > 0 {
          assert items[i] == items[1..][i - 1];
        }
      }
    }
  }

  lemma {:induction false} TilesConcat(a: seq<Item>, b: seq<Item>, from: nat, middle: nat, to: nat)
    requires Tiles(a, from, middle) && Tiles(b, middle, to)
    ensures Tiles(a + b, from, to)
  {
    if a == [] {
      assert a + b == b;
    } else {
      assert (a + b)[0] == a[0] && (a + b)[1..] == a[1..] + b;
      TilesConcat(a[1..], b, a[0].to, middle, to);
    }
  }

  lemma {:induction false} SettledConcat(a: seq<Item>, b: seq<Item>)
    requires Settled(a) && Settled(b)
    ensures Settled(a + b)
  {
    forall i | 0 <= i < |a + b| && IsMarkerItem((a + b)[i])
      ensures i + 1 < |a + b| && IsTagOf((a + b)[i + 1], TypePartial)
    {
      if i < |a| {
        assert IsMarkerItem(a[i]) && (a + b)[i + 1] == a[i + 1];
      } else {
        assert IsMarkerItem(b[i - |a|]) && (a + b)[i + 1] == b[i - |a| + 1];
      }
    }
  }

  /** A run of whole pieces that may be added inside an open section. */
  predicate Run(items: seq<Item>, from: nat, to: nat, tmpl: Bytes, o: Options) {
    Tiles(items, from, to) && AllSpelled(items, tmpl, o) && Settled(items) && StopFree(items)
  }

  lemma {:induction false} RunConcat(a: seq<Item>, b: seq<Item>, from: nat, middle: nat, to: nat, tmpl: Bytes, o: Options)
    requires Run(a, from, middle, tmpl, o) && Run(b, middle, to, tmpl, o)
    ensures Run(a + b, from, to, tmpl, o)
  {
    hide Spelled;
    TilesConcat(a, b, from, middle, to);
    SettledConcat(a, b);
  }

  // ---- The open sections --------------------------------------------------------------------------

  /** Each open section has its tag in the source, and its pieces cover the source from there to where the next begins. */
  predicate Stacked(levels: seq<Level>, to: nat, tmpl: Bytes, o: Options) {
    levels != []
    && var top := levels[|levels| - 1];
       && Run(top.items, top.body, to, tmpl, o)
       && if |levels| == 1 then top.head == ROOT_HEAD && top.body == 0
          else SpelledTag(top.head, top.spelling, top.from, top.body, tmpl, o) && top.head.change.None?
               && Opens(top.head.kind) && Stacked(levels[..|levels| - 1], top.from, tmpl, o)
  }

  lemma {:induction false} StackedAdd(st: Parse, items: seq<Item>, from: nat, to: nat, tmpl: Bytes, o: Options)
    requires Stacked(st.levels, from, tmpl, o) && Run(items, from, to, tmpl, o)
    ensures Stacked(AddAll(st, items).levels, to, tmpl, o)
  {
    hide Run, SpelledTag;
    var top := TopLevel(st);
    RunConcat(top.items, items, top.body, from, to, tmpl, o);
    var n := |st.levels|;
    assert AddAll(st, items).levels[..n - 1] == st.levels[..n - 1];
  }

  lemma {:induction false} NoItems(at: nat, tmpl: Bytes, o: Options)
    ensures Run([], at, at, tmpl, o)
  {
  }

  lemma {:induction false} OneItem(item: Item, tmpl: Bytes, o: Options)
    requires Spelled(item, tmpl, o) && item.from <= item.to && !IsMarkerItem(item) && !IsTagOf(item, TypeStop)
    ensures Run([item], item.from, item.to, tmpl, o)
  {
    hide Spelled, IsMarkerItem, IsTagOf;
    var one := [item];
    assert one[1..] == [] && Tiles(one[1..], item.to, item.to);
    forall i | 0 <= i < |one|
      ensures Spelled(one[i], tmpl, o) && !IsMarkerItem(one[i]) && !IsTagOf(one[i], TypeStop)
    {
      assert one[i] == item;
    }
  }

  /** An opening tag starts a new level. */
  lemma {:induction false} StackedOpen(levels: seq<Level>, level: Level, tmpl: Bytes, o: Options)
    requires Stacked(levels, level.from, tmpl, o) && level.items == []
    requires SpelledTag(level.head, level.spelling, level.from, level.body, tmpl, o) && level.head.change.None?
    requires Opens(level.head.kind)
    ensures Stacked(levels + [level], level.body, tmpl, o)
  {
    hide SpelledTag;
    NoItems(level.body, tmpl, o);
    assert (levels + [level])[..|levels|] == levels;
  }

  /** A closing tag ends the innermost level: what was open becomes one piece of the level below. */
  lemma {:induction false} StackedClose(st: Parse, f: Found, tmpl: Bytes, o: Options)
    requires |st.levels| > 1 && Stacked(st.levels, f.open, tmpl, o) && f.head.kind.TypeStop? && f.head.change.None?
    requires SpelledTag(f.head, f.spelling, f.open, f.End(), tmpl, o) && TopLevel(st).head.name == f.head.name
    ensures Stacked(CloseBlock(Add(st, Tag(f.head, f.spelling, f.open, f.End())), f).levels, f.End(), tmpl, o)
  {
    hide SpelledTag;
    var n := |st.levels|;
    var top, stop := TopLevel(st), Tag(f.head, f.spelling, f.open, f.End());
    var items := top.items + [stop];
    var below := st.(levels := st.levels[..n - 1]);
    var block := Block(top.head, top.spelling, top.from, top.body, f.open, f.End(), items);
    BlockSpelled(top, f, tmpl, o);
    OneItem(block, tmpl, o);
    StackedAdd(below, [block], top.from, f.End(), tmpl, o);
    assert Add(st, stop).levels[..n - 1] == st.levels[..n - 1];
  }

  lemma {:induction false} BlockSpelled(top: Level, f: Found, tmpl: Bytes, o: Options)
    requires Run(top.items, top.body, f.open, tmpl, o) && Opens(top.head.kind) && top.head.change.None?
    requires SpelledTag(top.head, top.spelling, top.from, top.body, tmpl, o) && top.head.name == f.head.name
    requires SpelledTag(f.head, f.spelling, f.open, f.End(), tmpl, o) && f.head.kind.TypeStop? && f.head.change.None?
    ensures var items := top.items + [Tag(f.head, f.spelling, f.open, f.End())];
            var block := Block(top.head, top.spelling, top.from, top.body, f.open, f.End(), items);
            Spelled(block, tmpl, o) && block.from <= block.to
  {
    hide SpelledTag, Run, Tiles, ClosedBy, Settled;
    SpelledOrder(f.head, f.spelling, f.open, f.End(), tmpl, o);
    SpelledOrder(top.head, top.spelling, top.from, top.body, tmpl, o);
    StopAdded(top, f, tmpl, o);
  }

  /** The pieces of a section with its closing tag. */
  lemma {:induction false} StopAdded(top: Level, f: Found, tmpl: Bytes, o: Options)
    requires Run(top.items, top.body, f.open, tmpl, o) && top.head.name == f.head.name
    requires SpelledTag(f.head, f.spelling, f.open, f.End(), tmpl, o) && f.head.kind.TypeStop? && f.head.change.None?
    ensures var items := top.items + [Tag(f.head, f.spelling, f.open, f.End())];
            && Tiles(items, top.body, f.End()) && ClosedBy(items, top.head.name, f.open) && Settled(items)
            && top.body <= f.End() && forall i :: 0 <= i < |items| ==> Spelled(items[i], tmpl, o)
  {
    hide SpelledTag, Spelled;
    var stop := Tag(f.head, f.spelling, f.open, f.End());
    SpelledOrder(f.head, f.spelling, f.open, f.End(), tmpl, o);
    TilesOrdered(top.items, top.body, f.open);
    assert [stop][1..] == [];
    TilesConcat(top.items, [stop], top.body, f.open, f.End());
    SettledConcat(top.items, [stop]);
    assert (top.items + [stop])[..|top.items|] == top.items;
    StopSpelled(f, tmpl, o);
  }

  lemma {:induction false} StopSpelled(f: Found, tmpl: Bytes, o: Options)
    requires SpelledTag(f.head, f.spelling, f.open, f.End(), tmpl, o) && f.head.kind.TypeStop?
    ensures Spelled(Tag(f.head, f.spelling, f.open, f.End()), tmpl, o)
  {
    hide SpelledTag;
  }

  lemma {:induction false} SpelledOrder(head: Head, spelling: Spelling, from: nat, to: nat, tmpl: Bytes, o: Options)
    requires SpelledTag(head, spelling, from, to, tmpl, o)
    ensures from <= to <= |tmpl|
  {
  }

  // ---- One tag ------------------------------------------------------------------------------------

  /** A tag the scan has found: literal text before it, then the tag as the source has it. */
  predicate Recognized(tmpl: Bytes, f: Found, o: Options) {
    f.Within(tmpl) && f.open + |f.spelling.delims.start| + (if f.spelling.triple then 1 else 0) + |f.spelling.raw| == f.close
    && tmpl[f.open..f.Closed()] == TagText(f.spelling, true)
    && Classify(f.spelling.raw, f.spelling.triple, o.escapeByDefault, o.limits.maxDelimiterBytes) == Ok(f.head)
    && |f.spelling.raw| <= o.limits.maxTagBytes
  }

  /** Only the default opening delimiter has triple braces, and the content of a tag ends at the first closing delimiter. */
  predicate Tight(s: Spelling) {
    (s.triple ==> s.delims.start == OPEN) && (|s.delims.stop| == 1 ==> s.delims.stop[0] !in s.raw)
  }

  lemma {:induction false} FoundTight(tmpl: Bytes, open: nat, close: nat, delims: Delims)
    requires MatchesAt(tmpl, open, delims.start) && Usable(delims)
    requires FindAt(tmpl, Inside(tmpl, open, delims.start), delims.stop) == Some(close)
    ensures var inside := Inside(tmpl, open, delims.start);
            inside <= close <= |tmpl| && Tight(Spelling(delims, IsTriple(tmpl, open, delims.start), tmpl[inside..close]))
  {
    hide FindAt;
    var inside := Inside(tmpl, open, delims.start);
    if |delims.stop| == 1 {
      forall i | inside <= i < close
        ensures tmpl[i] != delims.stop[0]
      {
        assert !MatchesAt(tmpl, i, delims.stop) && tmpl[i..i + 1] == [tmpl[i]];
      }
    }
  }

  /** With its third brace in place, the tag is complete. */
  lemma {:induction false} WholeTag(tmpl: Bytes, f: Found, o: Options)
    requires Recognized(tmpl, f, o)
    requires ExtraBrace(f.spelling, f.head.change.Some?) ==> MatchesAt(tmpl, f.Closed(), CLOSING_BRACE)
    ensures SpelledTag(f.head, f.spelling, f.open, f.End(), tmpl, o)
  {
    hide Classify;
    if ExtraBrace(f.spelling, f.head.change.Some?) {
      assert tmpl[f.open..f.End()] == tmpl[f.open..f.Closed()] + tmpl[f.Closed()..f.End()];
    }
  }

  /** The pieces before a tag, and behind it on a standalone line. */
  function Before(tmpl: Bytes, f: Found, lineEnd: Option<nat>): seq<Item>
    requires f.Within(tmpl) && (lineEnd.Some? ==> f.text <= LineStart(tmpl, f.open))
  {
    var cut := if lineEnd.Some? then LineStart(tmpl, f.open) else f.open;
    (if cut > f.text then [Literal(FLAG_NONE, false, f.text, cut)] else [])
    + (if lineEnd.Some? then [Literal(MarkerFlags(f.head), false, cut, f.open)] else [])
  }

  function Behind(f: Found, lineEnd: Option<nat>): seq<Item> {
    if lineEnd.Some? && lineEnd.value > f.End() then [Literal(FLAG_LAMBDA_ONLY, false, f.End(), lineEnd.value)] else []
  }

  function NextAfter(f: Found, lineEnd: Option<nat>): nat {
    if lineEnd.Some? then lineEnd.value else f.End()
  }

  lemma {:induction false} AddTwice(st: Parse, a: seq<Item>, b: seq<Item>)
    requires st.levels != []
    ensures AddAll(AddAll(st, a), b) == AddAll(st, a + b)
  {
    var top := |st.levels| - 1;
    assert (st.levels[top].items + a) + b == st.levels[top].items + (a + b);
  }

  lemma {:induction false} AddNone(st: Parse)
    requires st.levels != []
    ensures AddAll(st, []) == st
  {
    var top := |st.levels| - 1;
    assert st.levels[top].items + [] == st.levels[top].items;
  }

  lemma {:induction false} AddBeforeAdds(tmpl: Bytes, st: Parse, f: Found, lineEnd: Option<nat>, o: Options)
    requires st.levels != [] && f.Within(tmpl) && (lineEnd.Some? ==> f.text <= LineStart(tmpl, f.open))
    ensures var r, items := AddBefore(tmpl, st, f, lineEnd, o), Before(tmpl, f, lineEnd);
            r.Ok? ==> st.count + |items| <= Max(o.limits.maxNodes, st.count)
                      && r.value == AddAll(st.(count := st.count + |items|), items)
  {
    hide LineStart;
    var cut := if lineEnd.Some? then LineStart(tmpl, f.open) else f.open;
    AddNone(st);
    var text, prefix := [Literal(FLAG_NONE, false, f.text, cut)], [Literal(MarkerFlags(f.head), false, cut, f.open)];
    assert text + [] == text && [] + prefix == prefix;
    AddTwice(st.(count := st.count + 2), text, prefix);
  }

  lemma {:induction false} AddAfterAdds(st: Parse, f: Found, lineEnd: Option<nat>, o: Options)
    requires st.levels != []
    ensures var r, items := AddAfter(st, f, lineEnd, o), Behind(f, lineEnd);
            r.Ok? ==> st.count + |items| <= Max(o.limits.maxNodes, st.count)
                      && r.value == AddAll(st.(count := st.count + |items|), items)
  {
    AddNone(st);
  }

  lemma {:induction false} BehindRuns(tmpl: Bytes, f: Found, o: Options)
    requires f.Within(tmpl) && f.End() <= |tmpl|
    ensures var lineEnd := Standalone(tmpl, f); Run(Behind(f, lineEnd), f.End(), NextAfter(f, lineEnd), tmpl, o)
  {
    var lineEnd := Standalone(tmpl, f);
    if lineEnd.Some? && lineEnd.value > f.End() {
      OneItem(Literal(FLAG_LAMBDA_ONLY, false, f.End(), lineEnd.value), tmpl, o);
    } else {
      NoItems(f.End(), tmpl, o);
    }
  }

  /** The text before a tag that is no partial. */
  lemma {:induction false} BeforeRuns(tmpl: Bytes, f: Found, o: Options)
    requires f.Within(tmpl)
    requires var lineEnd := Standalone(tmpl, f);
             (lineEnd.Some? ==> f.text <= LineStart(tmpl, f.open)) && (lineEnd.Some? ==> MarkerFlags(f.head) == FLAG_LAMBDA_ONLY)
    ensures Run(Before(tmpl, f, Standalone(tmpl, f)), f.text, f.open, tmpl, o)
  {
    hide Run, LineEnd;
    var lineEnd := Standalone(tmpl, f);
    var cut := if lineEnd.Some? then LineStart(tmpl, f.open) else f.open;
    NoItems(f.text, tmpl, o);
    NoItems(cut, tmpl, o);
    var text, prefix := Literal(FLAG_NONE, false, f.text, cut), Literal(FLAG_LAMBDA_ONLY, false, cut, f.open);
    OneItem(text, tmpl, o);
    OneItem(prefix, tmpl, o);
    NoItems(f.open, tmpl, o);
    RunConcat(if cut > f.text then [text] else [], if lineEnd.Some? then [prefix] else [], f.text, cut, f.open, tmpl, o);
  }

  /** The text before a partial, the partial itself included: its indentation marker comes right before it. */
  lemma {:induction false} PartialRuns(tmpl: Bytes, f: Found, o: Options)
    requires Recognized(tmpl, f, o) && SpelledTag(f.head, f.spelling, f.open, f.End(), tmpl, o)
    requires f.head.kind.TypePartial? && f.head.change.None?
    requires Standalone(tmpl, f).Some? ==> f.text <= LineStart(tmpl, f.open)
    ensures Run(Before(tmpl, f, Standalone(tmpl, f)) + [Tag(f.head, f.spelling, f.open, f.End())], f.text, f.End(), tmpl, o)
  {
    hide Run, LineEnd, SpelledTag, Classify;
    var lineEnd := Standalone(tmpl, f);
    var cut := if lineEnd.Some? then LineStart(tmpl, f.open) else f.open;
    var text, tag := Literal(FLAG_NONE, false, f.text, cut), Tag(f.head, f.spelling, f.open, f.End());
    NoItems(f.text, tmpl, o);
    OneItem(text, tmpl, o);
    SpelledOrder(f.head, f.spelling, f.open, f.End(), tmpl, o);
    OneItem(tag, tmpl, o);
    var first := if cut > f.text then [text] else [];
    if lineEnd.Some? {
      var marker := Literal(FLAGS_MARKER, false, cut, f.open);
      MarkedPartial(marker, tag, tmpl, o);
      RunConcat(first, [marker, tag], f.text, cut, f.End(), tmpl, o);
      assert Before(tmpl, f, lineEnd) + [tag] == first + [marker, tag];
    } else {
      RunConcat(first, [tag], f.text, cut, f.End(), tmpl, o);
      assert Before(tmpl, f, lineEnd) + [tag] == first + [tag];
    }
  }

  lemma {:induction false} MarkedPartial(marker: Item, tag: Item, tmpl: Bytes, o: Options)
    requires IsMarkerItem(marker) && IsTagOf(tag, TypePartial) && marker.to == tag.from
    requires Spelled(marker, tmpl, o) && Spelled(tag, tmpl, o) && tag.from <= tag.to && marker.from <= marker.to
    ensures Run([marker, tag], marker.from, tag.to, tmpl, o)
  {
    hide Spelled, IsMarkerItem, IsTagOf;
    NotBoth(tag);
    var two := [marker, tag];
    assert two[1..] == [tag] && two[1..][1..] == [] && two[0] == marker && two[1] == tag;
    assert Tiles(two[1..], tag.from, tag.to);
    assert Settled(two) && AllSpelled(two, tmpl, o) && StopFree(two) by {
      NotBoth(marker);
    }
  }

  lemma {:induction false} NotBoth(item: Item)
    ensures IsTagOf(item, TypePartial) ==> !IsMarkerItem(item) && !IsTagOf(item, TypeStop)
    ensures IsMarkerItem(item) ==> !IsTagOf(item, TypeStop)
  {
  }

  /** A complete tag moves the tiling from the text before it to where the scan goes on. */
  lemma {:induction false} StepTiles(tmpl: Bytes, st: Parse, f: Found, o: Options)
    requires st.levels != [] && f.Within(tmpl)
    requires Stacked(st.levels, f.text, tmpl, o) && Recognized(tmpl, f, o) && TagStep(tmpl, st, f, o).Ok?
    ensures var r := TagStep(tmpl, st, f, o).value; Stacked(r.parse.levels, r.next, tmpl, o)
  {
    hide Stacked, Run, SpelledTag, AddBefore, AddAfter, Classify, Recognized, LineStart, LineEnd, PrefixIsIndent;
    var lineEnd := Standalone(tmpl, f);
    WholeTag(tmpl, f, o);
    AddBeforeAdds(tmpl, st, f, lineEnd, o);
    var before := AddBefore(tmpl, st, f, lineEnd, o).value;
    var tagged := AddTag(before, f, o).value;
    AddAfterAdds(tagged, f, lineEnd, o);
    SpelledOrder(f.head, f.spelling, f.open, f.End(), tmpl, o);
    BehindRuns(tmpl, f, o);
    TagTiles(tmpl, st, f, o);
    StackedAdd(tagged, Behind(f, lineEnd), f.End(), NextAfter(f, lineEnd), tmpl, o);
  }

  lemma {:induction false} TagTiles(tmpl: Bytes, st: Parse, f: Found, o: Options)
    requires st.levels != [] && f.Within(tmpl)
    requires Stacked(st.levels, f.text, tmpl, o) && Recognized(tmpl, f, o)
    requires SpelledTag(f.head, f.spelling, f.open, f.End(), tmpl, o)
    requires var lineEnd := Standalone(tmpl, f);
             (lineEnd.Some? ==> f.text <= LineStart(tmpl, f.open)) && AddBefore(tmpl, st, f, lineEnd, o).Ok?
             && AddTag(AddBefore(tmpl, st, f, lineEnd, o).value, f, o).Ok?
    ensures Stacked(AddTag(AddBefore(tmpl, st, f, Standalone(tmpl, f), o).value, f, o).value.levels, f.End(), tmpl, o)
  {
    hide Stacked, Run, SpelledTag, AddBefore, AddAfter, Classify, Recognized, LineStart, LineEnd, PrefixIsIndent, Before;
    var lineEnd, tag := Standalone(tmpl, f), Tag(f.head, f.spelling, f.open, f.End());
    AddBeforeAdds(tmpl, st, f, lineEnd, o);
    var items := Before(tmpl, f, lineEnd);
    var before := AddBefore(tmpl, st, f, lineEnd, o).value;
    var counted := st.(count := before.count);
    if f.head.change.None? && f.head.kind.TypePartial? {
      PartialRuns(tmpl, f, o);
      AddTwice(counted, items, [tag]);
      StackedAdd(counted, items + [tag], f.text, f.End(), tmpl, o);
    } else {
      BeforeRuns(tmpl, f, o);
      StackedAdd(counted, items, f.text, f.open, tmpl, o);
      SpelledOrder(f.head, f.spelling, f.open, f.End(), tmpl, o);
      if f.head.change.None? && Opens(f.head.kind) {
        StackedOpen(before.levels, Level(f.head, f.spelling, f.open, f.End(), []), tmpl, o);
      } else if f.head.change.None? && f.head.kind.TypeStop? {
        StackedClose(before, f, tmpl, o);
      } else {
        ChangeIsLeaf(f, tmpl, o);
        OneItem(tag, tmpl, o);
        StackedAdd(before, [tag], f.open, f.End(), tmpl, o);
      }
    }
  }

  /** A change of delimiters counts as a variable. */
  lemma {:induction false} ChangeIsLeaf(f: Found, tmpl: Bytes, o: Options)
    requires Recognized(tmpl, f, o)
    ensures f.head.change.Some? ==> f.head.kind.TypeVariable?
  {
    hide Trim, Words;
  }

  // ---- The whole template -------------------------------------------------------------------------

  lemma {:induction false} FoundRecognized(tmpl: Bytes, text: nat, open: nat, close: nat, delims: Delims, o: Options)
    requires text <= open && MatchesAt(tmpl, open, delims.start) && Usable(delims)
    requires Inside(tmpl, open, delims.start) <= close && MatchesAt(tmpl, close, delims.stop)
    requires close - Inside(tmpl, open, delims.start) <= o.limits.maxTagBytes && FindTag(tmpl, text, open, close, delims, o).Ok?
    ensures Recognized(tmpl, FindTag(tmpl, text, open, close, delims, o).value, o)
  {
    hide Classify;
    var inside := Inside(tmpl, open, delims.start);
    var brace := if IsTriple(tmpl, open, delims.start) then BRACE else [];
    assert tmpl[open..inside] == delims.start + brace;
    var end := close + |delims.stop|;
    assert tmpl[open..end] == tmpl[open..inside] + tmpl[inside..close] + tmpl[close..end];
    assert tmpl[open..end] == delims.start + brace + tmpl[inside..close] + delims.stop + [];
  }

  /** A parse that succeeds has found the end of the tag and what the tag means. */
  lemma {:induction false} ParsedTag(tmpl: Bytes, text: nat, open: nat, st: Parse, o: Options)
    returns (f: Found, stepped: Stepped)
    requires st.levels != [] && text <= open && MatchesAt(tmpl, open, st.delims.start) && Usable(st.delims)
    requires ParseTag(tmpl, text, open, st, o).Ok?
    ensures f.Within(tmpl) && f.text == text && f.open == open && Recognized(tmpl, f, o)
    ensures f.spelling.delims == st.delims && Tight(f.spelling)
    ensures TagStep(tmpl, st, f, o) == Ok(stepped) && open < stepped.next <= |tmpl|
    ensures stepped.parse.levels != [] && Usable(stepped.parse.delims)
    ensures ParseTag(tmpl, text, open, st, o) == ParseFrom(tmpl, stepped.next, stepped.parse, o)
  {
    hide FindTag, TagStep, FindAt, Recognized, Tight;
    var close := FindAt(tmpl, Inside(tmpl, open, st.delims.start), st.delims.stop);
    f := FindTag(tmpl, text, open, close.value, st.delims, o).value;
    FoundRecognized(tmpl, text, open, close.value, st.delims, o);
    FoundTight(tmpl, open, close.value, st.delims);
    stepped := TagStep(tmpl, st, f, o).value;
    UsableAfter(tmpl, st, f, o);
  }

  /** However the scan ends, if it ends well, the pieces tile the template from where it started. */
  lemma {:induction false} ParseTiles(tmpl: Bytes, text: nat, st: Parse, o: Options)
    requires st.levels != [] && text <= |tmpl| && Usable(st.delims) && Stacked(st.levels, text, tmpl, o)
    ensures var r := ParseFrom(tmpl, text, st, o); r.Ok? ==> Stacked(r.value.levels, |tmpl|, tmpl, o)
    decreases |tmpl| - text
  {
    hide Stacked, ParseTag, TagStep, FindAt, Run, Recognized;
    if ParseFrom(tmpl, text, st, o).Ok? {
      var open := FindAt(tmpl, text, st.delims.start);
      if open.Some? {
        var f, stepped := ParsedTag(tmpl, text, open.value, st, o);
        StepTiles(tmpl, st, f, o);
        ParseTiles(tmpl, stepped.next, stepped.parse, o);
      } else if text < |tmpl| {
        var item := Literal(FLAG_NONE, o.escapeOutput, text, |tmpl|);
        OneItem(item, tmpl, o);
        StackedAdd(st.(count := st.count + 1), [item], text, |tmpl|, tmpl, o);
      }
    }
  }

  lemma {:induction false} NothingOpen(delims: Delims, tmpl: Bytes, o: Options)
    ensures Stacked(Initial(delims).levels, 0, tmpl, o)
  {
    NoItems(0, tmpl, o);
  }

  /** The pieces of an accepted template cover it from end to end, each exactly as the source has it. */
  lemma {:induction false} PiecesTile(tmpl: Bytes, delims: Delims, o: Options)
    requires Usable(delims) && Pieces(tmpl, delims, o).Ok?
    ensures Run(Pieces(tmpl, delims, o).value, 0, |tmpl|, tmpl, o)
  {
    hide Run, ParseFrom;
    NothingOpen(delims, tmpl, o);
    ParseTiles(tmpl, 0, Initial(delims), o);
  }
}
