/** What the limits of the tokenizer measure: each of them one quantity of the template, and nothing else. */
module LimitsExact {
  import opened Base
  import opened Template
  import opened Strings
  import opened SourceTree
  import opened TokenizerSpec
  import opened TokenizerRoom
  import opened Tiling
  import opened DelimiterChanges
  import opened StandaloneLines

  /** The nodes the pieces become: every piece but the changes of delimiters. */
  function Nodes(row: seq<Piece>): nat {
    if row == [] then 0
    else
      var last := row[|row| - 1];
      Nodes(row[..|row| - 1]) + if last.Mark? && last.head.change.Some? then 0 else 1
  }

  /** The sections that are open behind the pieces. */
  function Nesting(row: seq<Piece>): int {
    if row == [] then 0
    else
      var last := row[|row| - 1];
      Nesting(row[..|row| - 1])
      + if last.Text? || last.head.change.Some? then 0
        else if Opens(last.head.kind) then 1
        else if last.head.kind.TypeStop? then -1
        else 0
  }

  /** What is between the delimiters of a tag, the delimiters it sets, and the sections around the one it opens. */
  predicate TagMeets(row: seq<Piece>, i: nat, limits: TokenizerLimits)
    requires i < |row|
  {
    row[i].Mark? ==>
      && |row[i].spelling.raw| <= limits.maxTagBytes
      && (row[i].head.change.Some? ==>
            |row[i].head.change.value.start| <= limits.maxDelimiterBytes
            && |row[i].head.change.value.stop| <= limits.maxDelimiterBytes)
      && (row[i].head.change.None? && Opens(row[i].head.kind) ==> Nesting(row[..i]) < limits.maxNestingDepth)
  }

  predicate MeetsFrom(row: seq<Piece>, k: nat, limits: TokenizerLimits) {
    Nodes(row) <= limits.maxNodes && forall i :: k <= i < |row| ==> TagMeets(row, i, limits)
  }

  lemma {:induction false} NodesConcat(a: seq<Piece>, b: seq<Piece>)
    ensures Nodes(a + b) == Nodes(a) + Nodes(b) && Nesting(a + b) == Nesting(a) + Nesting(b)
    decreases |b|
  {
    if b == [] {
      assert a + b == a;
    } else {
      var last := |b| - 1;
      assert (a + b)[..|a + b| - 1] == a + b[..last] && (a + b)[|a + b| - 1] == b[last];
      NodesConcat(a, b[..last]);
    }
  }

  lemma {:induction false} NodesOne(p: Piece)
    ensures Nodes([p]) == (if p.Mark? && p.head.change.Some? then 0 else 1)
    ensures Nesting([p]) == if p.Text? || p.head.change.Some? then 0 else if Opens(p.head.kind) then 1
                            else if p.head.kind.TypeStop? then -1 else 0
  {
    assert [p][..0] == [] && [p][0] == p;
    assert Nesting([p][..0]) == 0;
  }

  // ---- One tag --------------------------------------------------------------------------------------------------

  /** The counter is the number of nodes, and the open levels are the nesting. */
  predicate Counted(st: Parse) {
    st.levels != [] && st.count == Nodes(RowOf(st.levels)) && |st.levels| - 1 == Nesting(RowOf(st.levels))
  }

  /** The texts a tag brings along. */
  function TextCount(t: Bytes, f: Found, lineEnd: Option<nat>): nat
    requires f.Within(t)
  {
    var cut := if lineEnd.Some? then LineStart(t, f.open) else f.open;
    (if cut > f.text then 1 else 0) + (if lineEnd.Some? then 1 else 0)
  }

  function RestCount(f: Found, lineEnd: Option<nat>): nat {
    if lineEnd.Some? && lineEnd.value > f.End() then 1 else 0
  }

  function TagCount(f: Found): nat {
    if f.head.change.Some? then 0 else 1
  }

  lemma {:induction false} PiecesCounted(t: Bytes, f: Found, lineEnd: Option<nat>)
    requires f.Within(t)
    ensures Nodes(StepPieces(t, f, lineEnd)) == TextCount(t, f, lineEnd) + TagCount(f) + RestCount(f, lineEnd)
    ensures Nesting(StepPieces(t, f, lineEnd)) == Nesting([MarkOf(f)])
  {
    hide LineStart, Nodes, Nesting, BlankFlags;
    var cut := if lineEnd.Some? then LineStart(t, f.open) else f.open;
    var text, blanks := Text(FLAG_NONE, f.text, cut), Text(BlankFlags(MarkOf(f)), cut, f.open);
    var a := if cut > f.text then [text] else [];
    var b := if lineEnd.Some? then [blanks] else [];
    var d := if lineEnd.Some? && lineEnd.value > f.End() then [Text(FLAG_LAMBDA_ONLY, f.End(), lineEnd.value)] else [];
    NodesConcat(a + b + [MarkOf(f)], d);
    NodesConcat(a + b, [MarkOf(f)]);
    NodesConcat(a, b);
    NodesOne(text);
    NodesOne(blanks);
    NodesOne(MarkOf(f));
    NodesOne(Text(FLAG_LAMBDA_ONLY, f.End(), if lineEnd.Some? then lineEnd.value else 0));
    NoNodes();
  }

  lemma {:induction false} NoNodes()
    ensures Nodes([]) == 0 && Nesting([]) == 0
  {
  }

  lemma {:induction false} BeforeDecided(t: Bytes, st: Parse, f: Found, lineEnd: Option<nat>, o: Options)
    requires st.levels != [] && f.Within(t) && (lineEnd.Some? ==> f.text <= LineStart(t, f.open))
    requires st.count <= o.limits.maxNodes
    ensures var r, n := AddBefore(t, st, f, lineEnd, o), TextCount(t, f, lineEnd);
            (r.Ok? <==> st.count + n <= o.limits.maxNodes)
            && (r.Ok? ==> r.value.count == st.count + n && |r.value.levels| == |st.levels|)
  {
    hide LineStart;
  }

  lemma {:induction false} TagDecided(st: Parse, f: Found, o: Options, o': Options)
    requires st.levels != [] && AddTag(st, f, o).Ok? && st.count <= o'.limits.maxNodes
    ensures var r := AddTag(st, f, o');
            (r.Ok? <==> st.count + TagCount(f) <= o'.limits.maxNodes
                        && (f.head.change.None? && Opens(f.head.kind) ==> |st.levels| - 1 < o'.limits.maxNestingDepth))
            && (r.Ok? ==> r.value.count == st.count + TagCount(f) && |r.value.levels| == |st.levels| + Nesting([MarkOf(f)]))
  {
    hide Nesting;
    NodesOne(MarkOf(f));
  }

  lemma {:induction false} AfterDecided(st: Parse, f: Found, lineEnd: Option<nat>, o: Options)
    requires st.levels != [] && st.count <= o.limits.maxNodes
    ensures var r, n := AddAfter(st, f, lineEnd, o), RestCount(f, lineEnd);
            (r.Ok? <==> st.count + n <= o.limits.maxNodes)
            && (r.Ok? ==> r.value.count == st.count + n && |r.value.levels| == |st.levels|)
  {
  }

  /** A step that other limits allow is allowed exactly if its nodes fit and the section it opens is not too deep. */
  lemma {:induction false} StepDecided(t: Bytes, st: Parse, f: Found, o: Options, o': Options)
    requires f.Within(t) && Counted(st) && TagStep(t, st, f, o).Ok? && st.count <= o'.limits.maxNodes
    requires st.count <= o.limits.maxNodes
    ensures var p := TagStep(t, st, f, o).value.parse;
            && Counted(p) && p.count <= o.limits.maxNodes
            && (TagStep(t, st, f, o').Ok? <==>
                  p.count <= o'.limits.maxNodes
                  && (f.head.change.None? && Opens(f.head.kind) ==> Nesting(RowOf(st.levels)) < o'.limits.maxNestingDepth))
  {
    hide Standalone, LineStart, MatchesAt, AddBefore, AddTag, AddAfter, RowOf, Nodes, Nesting, TextCount, RestCount, TagCount;
    hide StepPieces;
    var lineEnd := Standalone(t, f);
    BeforeDecided(t, st, f, lineEnd, o);
    BeforeDecided(t, st, f, lineEnd, o');
    var before := AddBefore(t, st, f, lineEnd, o).value;
    TagDecided(before, f, o, o);
    var tagged := AddTag(before, f, o).value;
    AfterDecided(tagged, f, lineEnd, o);
    if before.count <= o'.limits.maxNodes {
      BeforeSame(t, st, f, lineEnd, o, o');
      TagDecided(before, f, o, o');
      if AddTag(before, f, o').Ok? {
        TagSame(before, f, o, o');
        AfterDecided(tagged, f, lineEnd, o');
      }
    }
    StepRow(t, st, f, o);
    PiecesCounted(t, f, lineEnd);
    NodesConcat(RowOf(st.levels), StepPieces(t, f, lineEnd));
  }

  // ---- The whole template -----------------------------------------------------------------------------------------

  lemma {:induction false} MeaningDecided(raw: Bytes, triple: bool, escapeByDefault: bool, m: nat, m': nat)
    requires Classify(raw, triple, escapeByDefault, m).Ok?
    ensures var change := Classify(raw, triple, escapeByDefault, m).value.change;
            Classify(raw, triple, escapeByDefault, m').Ok?
            <==> (change.Some? ==> |change.value.start| <= m' && |change.value.stop| <= m')
  {
    hide Trim, Words;
  }

  /** Pieces only come to the row. */
  lemma {:induction false} ParseRow(t: Bytes, text: nat, st: Parse, o: Options)
    requires st.levels != [] && text <= |t| && Usable(st.delims) && ParseFrom(t, text, st, o).Ok?
    ensures RowOf(st.levels) <= RowOf(ParseFrom(t, text, st, o).value.levels)
    decreases |t| - text
  {
    hide ParseTag, TagStep, FindAt, Recognized, RowOf, RowAll, Standalone, StepPieces, LineStart;
    var open := FindAt(t, text, st.delims.start);
    if open.Some? {
      var f, stepped := ParsedTag(t, text, open.value, st, o);
      StepRow(t, st, f, o);
      ParseRow(t, stepped.next, stepped.parse, o);
    } else if text < |t| {
      RowAdd(st, [Literal(FLAG_NONE, o.escapeOutput, text, |t|)]);
    }
  }

  /** Where the tag is among the pieces of its step. */
  lemma {:induction false} TagPlace(t: Bytes, row: seq<Piece>, f: Found, lineEnd: Option<nat>, final: seq<Piece>)
    requires f.Within(t) && row + StepPieces(t, f, lineEnd) <= final
    ensures var k := |row| + TextCount(t, f, lineEnd);
            && k < |row + StepPieces(t, f, lineEnd)| && final[k] == MarkOf(f) && Nesting(final[..k]) == Nesting(row)
            && forall i :: |row| <= i < |row + StepPieces(t, f, lineEnd)| && i != k ==> final[i].Text?
  {
    hide LineStart, Nodes, Nesting, BlankFlags;
    var pieces, k := StepPieces(t, f, lineEnd), TextCount(t, f, lineEnd);
    var all := row + pieces;
    assert forall i :: 0 <= i < |all| ==> final[i] == all[i];
    assert pieces[k] == MarkOf(f) && all[|row| + k] == pieces[k];
    assert final[..|row| + k] == row + pieces[..k];
    NodesConcat(row, pieces[..k]);
    OnlyTexts(pieces[..k]);
    forall i | |row| <= i < |all| && i != |row| + k
      ensures final[i].Text?
    {
      assert all[i] == pieces[i - |row|];
    }
  }

  lemma {:induction false} OnlyTexts(row: seq<Piece>)
    requires forall i :: 0 <= i < |row| ==> row[i].Text?
    ensures Nesting(row) == 0
  {
    if row != [] {
      OnlyTexts(row[..|row| - 1]);
    }
  }

  lemma {:induction false} NodesGrow(a: seq<Piece>, b: seq<Piece>)
    requires a <= b
    ensures Nodes(a) <= Nodes(b)
  {
    assert b == a + b[|a|..];
    NodesConcat(a, b[|a|..]);
  }

  /** The pieces of one step meet the limits exactly if their tag does. */
  lemma {:induction false} MeetsStep(t: Bytes, row: seq<Piece>, f: Found, lineEnd: Option<nat>, final: seq<Piece>,
                                     limits: TokenizerLimits)
    requires f.Within(t) && row + StepPieces(t, f, lineEnd) <= final
    ensures var k := |row| + TextCount(t, f, lineEnd);
            k < |final| && (MeetsFrom(final, |row|, limits)
                            <==> TagMeets(final, k, limits) && MeetsFrom(final, |row + StepPieces(t, f, lineEnd)|, limits))
  {
    hide StepPieces, Nodes, Nesting, TextCount;
    TagPlace(t, row, f, lineEnd, final);
  }

  lemma {:induction false} MeetsNodes(row: seq<Piece>, k: nat, limits: TokenizerLimits)
    ensures MeetsFrom(row, k, limits) ==> Nodes(row) <= limits.maxNodes
  {
  }

  /** The next tag of a parse that succeeds. */
  lemma {:induction false} FoundTag(t: Bytes, text: nat, open: nat, st: Parse, o: Options) returns (f: Found, stepped: Stepped)
    requires st.levels != [] && text <= |t| && Usable(st.delims) && FindAt(t, text, st.delims.start) == Some(open)
    requires ParseFrom(t, text, st, o).Ok?
    ensures f.text == text && f.open == open && f.Within(t)
    ensures FindAt(t, Inside(t, open, st.delims.start), st.delims.stop) == Some(f.close)
    ensures FindTag(t, text, open, f.close, st.delims, o) == Ok(f)
    ensures TagStep(t, st, f, o) == Ok(stepped) && text < stepped.next <= |t| && Usable(stepped.parse.delims)
    ensures ParseFrom(t, text, st, o) == ParseFrom(t, stepped.next, stepped.parse, o)
  {
    hide FindAt, Classify, AddBefore, AddTag, AddAfter, LineStart, Standalone;
    var close := FindAt(t, Inside(t, open, st.delims.start), st.delims.stop);
    f := FindTag(t, text, open, close.value, st.delims, o).value;
    UsableAfter(t, st, f, o);
    stepped := TagStep(t, st, f, o).value;
  }

  /** Whether the parse goes on under other limits. */
  lemma {:induction false} NextDecided(t: Bytes, text: nat, open: nat, st: Parse, f: Found, o: Options, o': Options)
    requires st.levels != [] && text <= |t| && Usable(st.delims) && FindAt(t, text, st.delims.start) == Some(open)
    requires FindAt(t, Inside(t, open, st.delims.start), st.delims.stop) == Some(f.close) && f.Within(t)
    requires FindTag(t, text, open, f.close, st.delims, o) == Ok(f) && TagStep(t, st, f, o).Ok?
    requires Usable(TagStep(t, st, f, o).value.parse.delims) && o'.escapeByDefault == o.escapeByDefault
    ensures var stepped := TagStep(t, st, f, o).value;
            ParseFrom(t, text, st, o').Ok? <==>
              && |f.spelling.raw| <= o'.limits.maxTagBytes
              && (f.head.change.Some? ==>
                    |f.head.change.value.start| <= o'.limits.maxDelimiterBytes
                    && |f.head.change.value.stop| <= o'.limits.maxDelimiterBytes)
              && TagStep(t, st, f, o').Ok? && ParseFrom(t, stepped.next, stepped.parse, o').Ok?
  {
    hide FindAt, Classify, TagStep;
    MeaningDecided(f.spelling.raw, f.spelling.triple, o.escapeByDefault, o.limits.maxDelimiterBytes, o'.limits.maxDelimiterBytes);
    MeaningSame(f.spelling.raw, f.spelling.triple, o.escapeByDefault, o.limits.maxDelimiterBytes, o'.limits.maxDelimiterBytes);
    StepSame(t, st, f, o, o');
    assert ParseFrom(t, text, st, o') == ParseTag(t, text, open, st, o');
  }

  lemma {:induction false} LastDecided(t: Bytes, text: nat, st: Parse, o: Options, o': Options)
    requires text <= |t| && Counted(st) && Usable(st.delims) && ParseFrom(t, text, st, o).Ok?
    requires FindAt(t, text, st.delims.start).None? && st.count <= o'.limits.maxNodes && o'.escapeOutput == o.escapeOutput
    ensures var row := RowOf(ParseFrom(t, text, st, o).value.levels);
            ParseFrom(t, text, st, o').Ok? <==> MeetsFrom(row, |RowOf(st.levels)|, o'.limits)
  {
    hide FindAt, RowOf, RowAll, Nodes, Nesting;
    if text < |t| {
      var last := Literal(FLAG_NONE, o.escapeOutput, text, |t|);
      RowAdd(st, [last]);
      RowOne(last);
      NodesConcat(RowOf(st.levels), [Text(FLAG_NONE, text, |t|)]);
      NodesOne(Text(FLAG_NONE, text, |t|));
    }
  }

  lemma {:induction false} ParseDecided(t: Bytes, text: nat, st: Parse, o: Options, o': Options)
    requires text <= |t| && Counted(st) && Usable(st.delims) && ParseFrom(t, text, st, o).Ok?
    requires st.count <= o.limits.maxNodes && st.count <= o'.limits.maxNodes
    requires o'.escapeByDefault == o.escapeByDefault && o'.escapeOutput == o.escapeOutput
    ensures var row := RowOf(ParseFrom(t, text, st, o).value.levels);
            ParseFrom(t, text, st, o').Ok? <==> MeetsFrom(row, |RowOf(st.levels)|, o'.limits)
    decreases |t| - text
  {
    hide ParseTag, TagStep, FindAt, FindTag, Recognized, RowOf, RowAll, Standalone, StepPieces, LineStart, MeetsFrom, Nodes,
         Nesting, TextCount;
    var row := RowOf(ParseFrom(t, text, st, o).value.levels);
    var open := FindAt(t, text, st.delims.start);
    if open.Some? {
      var f, stepped := FoundTag(t, text, open.value, st, o);
      var lineEnd := Standalone(t, f);
      StepRow(t, st, f, o);
      ParseRow(t, stepped.next, stepped.parse, o);
      TagPlace(t, RowOf(st.levels), f, lineEnd, row);
      MeetsStep(t, RowOf(st.levels), f, lineEnd, row, o'.limits);
      StepDecided(t, st, f, o, o');
      NextDecided(t, text, open.value, st, f, o, o');
      NodesGrow(RowOf(stepped.parse.levels), row);
      MeetsNodes(row, |RowOf(stepped.parse.levels)|, o'.limits);
      if stepped.parse.count <= o'.limits.maxNodes {
        ParseDecided(t, stepped.next, stepped.parse, o, o');
      }
    } else {
      LastDecided(t, text, st, o, o');
    }
  }

  /** A template that is accepted under some limits is accepted under others exactly if they meet it: its bytes, the bytes of the
      delimiters it starts with and of those it sets, the content of every tag, the number of its nodes, and the number of
      sections around each section that it opens. */
  lemma {:induction false} LimitsDecide(t: Bytes, d: Delims, o: Options, o': Options)
    requires Usable(d) && o'.escapeByDefault == o.escapeByDefault && o'.escapeOutput == o.escapeOutput
    requires Pieces(t, d, o).Ok?
    ensures Pieces(t, d, o').Ok? <==>
              && |t| <= o'.limits.maxInputBytes
              && |d.start| <= o'.limits.maxDelimiterBytes && |d.stop| <= o'.limits.maxDelimiterBytes
              && MeetsFrom(RowAll(Pieces(t, d, o).value), 0, o'.limits)
  {
    hide ParseFrom, MeetsFrom;
    var st := Initial(d);
    assert st.levels[..0] == [];
    assert RowOf(st.levels) == [];
    NoNodes();
    var levels := ParseFrom(t, 0, st, o).value.levels;
    assert levels[..0] == [];
    assert RowOf(levels) == [] + [] + RowAll(levels[0].items) == RowAll(levels[0].items);
    ParseDecided(t, 0, st, o, o');
  }
}
