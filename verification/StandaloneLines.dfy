/** Which text of a template is dropped: exactly the rest of each line that holds nothing but one tag that renders no value. */
module StandaloneLines {
  import opened Base
  import opened Template
  import opened Strings
  import opened SourceTree
  import opened TokenizerSpec
  import opened Tiling
  import opened TokenizerResults
  import opened DelimiterChanges

  // ---- Lines, byte by byte --------------------------------------------------------------------------------

  predicate Blank(t: Bytes, from: nat, to: nat) {
    from <= to <= |t| && forall i :: from <= i < to ==> t[i] == ' ' as int || t[i] == '\t' as int
  }

  /** Only spaces and tabs follow, and then the end of the text, a newline, or a carriage return and a newline; the next line
      starts there. */
  ghost predicate RestOfLine(t: Bytes, from: nat, next: nat) {
    exists end: nat ::
      && Blank(t, from, end)
      && ((end == |t| && next == end)
          || (end < |t| && t[end] == '\n' as int && next == end + 1)
          || (end + 1 < |t| && t[end] == '\r' as int && t[end + 1] == '\n' as int && next == end + 2))
  }

  predicate StartsLine(t: Bytes, at: nat) {
    at == 0 || (at <= |t| && t[at - 1] == '\n' as int)
  }

  /** A tag that is neither a variable nor in triple braces, alone on its line with spaces and tabs; the line starts at `line`,
      and the next one at `next`. Changes of delimiters count, although they are kept as variables. */
  ghost predicate Alone(t: Bytes, tag: Piece, line: nat, next: nat) {
    && tag.Mark? && !tag.spelling.triple && (tag.head.change.Some? || !tag.head.kind.TypeVariable?)
    && line <= tag.from <= tag.to && StartsLine(t, line) && Blank(t, line, tag.from) && RestOfLine(t, tag.to, next)
  }

  ghost predicate AloneFrom(t: Bytes, tag: Piece, line: nat) {
    exists next: nat :: Alone(t, tag, line, next)
  }

  ghost predicate AloneTo(t: Bytes, tag: Piece, next: nat) {
    exists line: nat :: Alone(t, tag, line, next)
  }

  // ---- The line functions of the tokenizer ------------------------------------------------------------------

  lemma {:induction false} LineIs(t: Bytes, position: nat, line: nat)
    requires position <= |t| && StartsLine(t, line) && Blank(t, line, position)
    ensures LineStart(t, position) == line
  {
    hide LineStart;
    var l := LineStart(t, position);
  }

  lemma {:induction false} IndentBefore(t: Bytes, position: nat)
    requires position <= |t|
    ensures var l := LineStart(t, position);
            StartsLine(t, l) && (PrefixIsIndent(t, position) <==> Blank(t, l, position))
  {
    hide LineStart;
    var l := LineStart(t, position);
    var prefix := t[l..position];
    if IsIndentation(prefix) {
      forall i | l <= i < position
        ensures t[i] == ' ' as int || t[i] == '\t' as int
      {
        assert prefix[i - l] == t[i];
      }
    }
  }

  lemma {:induction false} ScanIs(t: Bytes, from: nat, end: nat)
    requires Blank(t, from, end) && (end < |t| ==> t[end] != ' ' as int && t[end] != '\t' as int)
    ensures Scan(t, [SPACE, TAB], from, false) == end
    decreases end - from
  {
    if from < end {
      ScanIs(t, from + 1, end);
    }
  }

  lemma {:induction false} LineEndIs(t: Bytes, from: nat, next: nat)
    requires from <= |t|
    ensures LineEnd(t, from) == Some(next) <==> RestOfLine(t, from, next)
  {
    hide Scan;
    var end := Scan(t, [SPACE, TAB], from, false);
    forall i | from <= i < end
      ensures t[i] == ' ' as int || t[i] == '\t' as int
    {
      assert t[i] in [SPACE, TAB];
    }
    assert Blank(t, from, end);
    if RestOfLine(t, from, next) {
      var e: nat :| Blank(t, from, e)
                    && ((e == |t| && next == e) || (e < |t| && t[e] == '\n' as int && next == e + 1)
                        || (e + 1 < |t| && t[e] == '\r' as int && t[e + 1] == '\n' as int && next == e + 2));
      ScanIs(t, from, e);
    }
  }

  // ---- Tags that are found --------------------------------------------------------------------------------------

  function MarkOf(f: Found): Piece {
    Mark(f.head, f.spelling, f.open, f.End())
  }

  lemma {:induction false} TagKinds(t: Bytes, f: Found, o: Options)
    requires Recognized(t, f, o)
    ensures f.head.kind.TypeVariable? || f.head.kind.TypeSection? || f.head.kind.TypeNegate? || f.head.kind.TypeStop?
            || f.head.kind.TypeComment? || f.head.kind.TypePartial?
    ensures f.head.change.Some? ==> f.head.kind.TypeVariable?
  {
    hide Trim, Words;
  }

  /** The tokenizer strips the line of a tag exactly if the tag is alone on it. */
  lemma {:induction false} StandaloneIsAlone(t: Bytes, f: Found, o: Options, line: nat, next: nat)
    requires Recognized(t, f, o)
    ensures Alone(t, MarkOf(f), line, next) <==> Standalone(t, f) == Some(next) && LineStart(t, f.open) == line
  {
    hide LineStart, LineEnd, PrefixIsIndent, Recognized, Blank, StartsLine, RestOfLine;
    TagKinds(t, f, o);
    FoundInside(t, f, o);
    IndentBefore(t, f.open);
    LineEndIs(t, f.Closed(), next);
    if StartsLine(t, line) && Blank(t, line, f.open) {
      LineIs(t, f.open, line);
    }
  }

  lemma {:induction false} FoundInside(t: Bytes, f: Found, o: Options)
    requires Recognized(t, f, o)
    ensures f.Within(t) && (!f.spelling.triple ==> f.End() == f.Closed())
  {
  }

  // ---- Pieces in a row ----------------------------------------------------------------------------------------

  /** The flags of the blanks before such a tag: before a partial they are the marker that carries its indentation. */
  function BlankFlags(tag: Piece): int
    requires tag.Mark?
  {
    if tag.head.change.None? && tag.head.kind.TypePartial? then FLAGS_MARKER else FLAG_LAMBDA_ONLY
  }

  /** The blanks before a tag that is alone on its line, and the rest of the line behind it, are dropped. */
  predicate Stripped(row: seq<Piece>, k: nat, line: nat, next: nat)
    requires k < |row| && row[k].Mark?
  {
    && k > 0 && row[k - 1] == Text(BlankFlags(row[k]), line, row[k].from)
    && (next > row[k].to ==> k + 1 < |row| && row[k + 1] == Text(FLAG_LAMBDA_ONLY, row[k].to, next))
  }

  /** The text is part of the line of a tag next to it that is alone on it. */
  ghost predicate OnStrippedLine(t: Bytes, row: seq<Piece>, i: nat)
    requires i < |row| && row[i].Text?
  {
    || (i + 1 < |row| && row[i + 1].Mark? && row[i + 1].from == row[i].to && row[i].flags == BlankFlags(row[i + 1])
        && AloneFrom(t, row[i + 1], row[i].from))
    || (i > 0 && row[i - 1].Mark? && row[i - 1].to == row[i].from && row[i].flags == FLAG_LAMBDA_ONLY
        && AloneTo(t, row[i - 1], row[i].to))
  }

  ghost predicate Explained(t: Bytes, row: seq<Piece>, i: nat)
    requires i < |row|
  {
    match row[i]
    case Text(flags, _, _) => flags != FLAG_NONE ==> OnStrippedLine(t, row, i)
    case Mark(_, _, _, _) => forall line: nat, next: nat :: Alone(t, row[i], line, next) ==> Stripped(row, i, line, next)
  }

  ghost predicate AllExplained(t: Bytes, row: seq<Piece>) {
    forall i :: 0 <= i < |row| ==> Explained(t, row, i)
  }

  /** The pieces follow each other from the start of the text. */
  predicate Contiguous(row: seq<Piece>, to: nat) {
    if row == [] then to == 0
    else
      var last := |row| - 1;
      row[last].from <= row[last].to == to && Contiguous(row[..last], row[last].from)
  }

  lemma {:induction false} StaysExplained(t: Bytes, row: seq<Piece>, more: seq<Piece>, i: nat)
    requires i < |row| && Explained(t, row, i)
    ensures Explained(t, row + more, i)
  {
    hide Alone, AloneFrom, AloneTo, BlankFlags;
    var all := row + more;
    assert all[i] == row[i] && (i > 0 ==> all[i - 1] == row[i - 1]) && (i + 1 < |row| ==> all[i + 1] == row[i + 1]);
  }

  lemma {:induction false} ContiguousSnoc(row: seq<Piece>, piece: Piece, to: nat)
    requires Contiguous(row, to) && piece.from == to <= piece.to
    ensures Contiguous(row + [piece], piece.to)
  {
    assert (row + [piece])[..|row|] == row;
  }

  // ---- One tag --------------------------------------------------------------------------------------------------

  /** What a tag adds to the row: the text before it, in front of a standalone tag its blanks, the tag, and the rest of its line. */
  function StepPieces(t: Bytes, f: Found, lineEnd: Option<nat>): seq<Piece>
    requires f.Within(t)
  {
    var cut := if lineEnd.Some? then LineStart(t, f.open) else f.open;
    (if cut > f.text then [Text(FLAG_NONE, f.text, cut)] else [])
    + (if lineEnd.Some? then [Text(BlankFlags(MarkOf(f)), cut, f.open)] else []) + [MarkOf(f)]
    + (if lineEnd.Some? && lineEnd.value > f.End() then [Text(FLAG_LAMBDA_ONLY, f.End(), lineEnd.value)] else [])
  }

  lemma {:induction false} TextsRow(t: Bytes, f: Found, lineEnd: Option<nat>)
    requires f.Within(t) && (lineEnd.Some? ==> f.text <= LineStart(t, f.open))
    ensures RowAll(Before(t, f, lineEnd)) + [MarkOf(f)] + RowAll(Behind(f, lineEnd)) == StepPieces(t, f, lineEnd)
  {
    hide LineStart;
    var cut := if lineEnd.Some? then LineStart(t, f.open) else f.open;
    var text, blanks := Literal(FLAG_NONE, false, f.text, cut), Literal(MarkerFlags(f.head), false, cut, f.open);
    RowOne(text);
    RowOne(blanks);
    RowConcat(if cut > f.text then [text] else [], if lineEnd.Some? then [blanks] else []);
    if lineEnd.Some? {
      RowOne(Literal(FLAG_LAMBDA_ONLY, false, f.End(), lineEnd.value));
    }
    assert RowAll([]) == [];
  }

  lemma {:induction false} TagRow(st: Parse, f: Found, o: Options)
    requires st.levels != [] && AddTag(st, f, o).Ok?
    ensures RowOf(AddTag(st, f, o).value.levels) == RowOf(st.levels) + [MarkOf(f)]
  {
    hide RowOf, RowAll;
    var tag := Tag(f.head, f.spelling, f.open, f.End());
    RowAdd(st, [tag]);
    RowOne(tag);
    if f.head.change.None? {
      if Opens(f.head.kind) {
        RowOpen(st.levels, Level(f.head, f.spelling, f.open, f.End(), []));
      } else if f.head.kind.TypeStop? {
        RowClose(Add(st, tag), f);
      }
    }
  }

  lemma {:induction false} StepRow(t: Bytes, st: Parse, f: Found, o: Options)
    requires st.levels != [] && f.Within(t) && TagStep(t, st, f, o).Ok?
    ensures var lineEnd, r := Standalone(t, f), TagStep(t, st, f, o).value;
            && (lineEnd.Some? ==> f.text <= LineStart(t, f.open)) && r.next == NextAfter(f, lineEnd)
            && RowOf(r.parse.levels) == RowOf(st.levels) + StepPieces(t, f, lineEnd)
  {
    hide AddBefore, AddAfter, LineStart, LineEnd, PrefixIsIndent, AddTag, Standalone, RowOf, RowAll, StepPieces, Before, Behind;
    var lineEnd := Standalone(t, f);
    AddBeforeAdds(t, st, f, lineEnd, o);
    var before := AddBefore(t, st, f, lineEnd, o).value;
    RowAdd(st, Before(t, f, lineEnd));
    TagRow(before, f, o);
    var tagged := AddTag(before, f, o).value;
    AddAfterAdds(tagged, f, lineEnd, o);
    RowAdd(tagged, Behind(f, lineEnd));
    TextsRow(t, f, lineEnd);
    Grouped(RowOf(st.levels), RowAll(Before(t, f, lineEnd)), [MarkOf(f)], RowAll(Behind(f, lineEnd)));
  }

  lemma {:induction false} Grouped(a: seq<Piece>, b: seq<Piece>, c: seq<Piece>, d: seq<Piece>)
    ensures a + b + c + d == a + (b + c + d)
  {
  }

  lemma {:induction false} StepContiguous(t: Bytes, row: seq<Piece>, f: Found, lineEnd: Option<nat>)
    requires f.Within(t) && Contiguous(row, f.text)
    requires lineEnd.Some? ==> f.text <= LineStart(t, f.open) && f.End() <= lineEnd.value
    ensures Contiguous(row + StepPieces(t, f, lineEnd), NextAfter(f, lineEnd))
  {
    hide LineStart, Contiguous, BlankFlags;
    var cut := if lineEnd.Some? then LineStart(t, f.open) else f.open;
    var texts := if cut > f.text then [Text(FLAG_NONE, f.text, cut)] else [];
    var blanks := if lineEnd.Some? then [Text(BlankFlags(MarkOf(f)), cut, f.open)] else [];
    var rest := if lineEnd.Some? && lineEnd.value > f.End() then [Text(FLAG_LAMBDA_ONLY, f.End(), lineEnd.value)] else [];
    ContiguousMaybe(row, texts, f.text, cut);
    ContiguousMaybe(row + texts, blanks, cut, f.open);
    ContiguousSnoc(row + texts + blanks, MarkOf(f), f.open);
    ContiguousMaybe(row + texts + blanks + [MarkOf(f)], rest, f.End(), NextAfter(f, lineEnd));
    FourParts(row, texts, blanks, [MarkOf(f)], rest);
  }

  /** One more piece, or none where nothing is in between. */
  lemma {:induction false} ContiguousMaybe(row: seq<Piece>, more: seq<Piece>, from: nat, to: nat)
    requires Contiguous(row, from) && if more == [] then from == to else |more| == 1 && more[0].from == from <= more[0].to == to
    ensures Contiguous(row + more, to)
  {
    hide Contiguous;
    if more == [] {
      assert row + more == row;
    } else {
      assert more == [more[0]];
      ContiguousSnoc(row, more[0], from);
    }
  }

  lemma {:induction false} FourParts(row: seq<Piece>, a: seq<Piece>, b: seq<Piece>, c: seq<Piece>, d: seq<Piece>)
    ensures row + a + b + c + d == row + (a + b + c + d)
  {
  }

  lemma {:induction false} NewExplained(t: Bytes, row: seq<Piece>, f: Found, lineEnd: Option<nat>, i: nat)
    requires f.Within(t) && |row| <= i < |row + StepPieces(t, f, lineEnd)|
    requires lineEnd.Some? ==> Alone(t, MarkOf(f), LineStart(t, f.open), lineEnd.value)
    requires forall l: nat, v: nat :: Alone(t, MarkOf(f), l, v) ==> lineEnd == Some(v) && l == LineStart(t, f.open)
    ensures Explained(t, row + StepPieces(t, f, lineEnd), i)
  {
    hide LineStart, Alone, BlankFlags;
    var all := row + StepPieces(t, f, lineEnd);
    var cut := if lineEnd.Some? then LineStart(t, f.open) else f.open;
    var a, b := if cut > f.text then 1 else 0, if lineEnd.Some? then 1 else 0;
    var k := |row| + a + b;
    assert all[k] == MarkOf(f);
    assert a == 1 ==> all[|row|] == Text(FLAG_NONE, f.text, cut);
    assert b == 1 ==> all[k - 1] == Text(BlankFlags(MarkOf(f)), cut, f.open);
    assert |all| == k + 1 || (|all| == k + 2 && lineEnd.Some? && all[k + 1] == Text(FLAG_LAMBDA_ONLY, f.End(), lineEnd.value));
    if b == 1 {
      assert AloneFrom(t, MarkOf(f), cut) && AloneTo(t, MarkOf(f), lineEnd.value);
    }
  }

  /** The new pieces explain themselves, whatever the row before them. */
  lemma {:induction false} StepExplained(t: Bytes, row: seq<Piece>, f: Found, o: Options)
    requires Recognized(t, f, o) && f.Within(t) && AllExplained(t, row) && Contiguous(row, f.text)
    requires Standalone(t, f).Some? ==> f.text <= LineStart(t, f.open)
    ensures var lineEnd := Standalone(t, f);
            AllExplained(t, row + StepPieces(t, f, lineEnd)) && Contiguous(row + StepPieces(t, f, lineEnd), NextAfter(f, lineEnd))
  {
    hide LineStart, LineEnd, PrefixIsIndent, Standalone, Recognized, Alone, BlankFlags, Contiguous;
    FoundInside(t, f, o);
    var lineEnd := Standalone(t, f);
    var line := LineStart(t, f.open);
    if lineEnd.Some? {
      StandaloneIsAlone(t, f, o, line, lineEnd.value);
    }
    forall l: nat, v: nat | Alone(t, MarkOf(f), l, v)
      ensures lineEnd == Some(v) && l == line
    {
      StandaloneIsAlone(t, f, o, l, v);
    }
    StepContiguous(t, row, f, lineEnd);
    var pieces := StepPieces(t, f, lineEnd);
    var all := row + pieces;
    forall i | 0 <= i < |all|
      ensures Explained(t, all, i)
    {
      if i < |row| {
        StaysExplained(t, row, pieces, i);
      } else {
        NewExplained(t, row, f, lineEnd, i);
      }
    }
  }

  // ---- The whole template --------------------------------------------------------------------------------------------

  lemma {:induction false} ParseExplained(t: Bytes, text: nat, st: Parse, o: Options)
    requires st.levels != [] && text <= |t| && Usable(st.delims) && ParseFrom(t, text, st, o).Ok?
    requires AllExplained(t, RowOf(st.levels)) && Contiguous(RowOf(st.levels), text)
    ensures var row := RowOf(ParseFrom(t, text, st, o).value.levels); AllExplained(t, row) && Contiguous(row, |t|)
    decreases |t| - text
  {
    hide ParseTag, TagStep, FindAt, Recognized, RowOf, RowAll, AllExplained, Contiguous, Standalone, StepPieces, LineStart;
    var open := FindAt(t, text, st.delims.start);
    if open.Some? {
      var f, stepped := ParsedTag(t, text, open.value, st, o);
      StepRow(t, st, f, o);
      StepExplained(t, RowOf(st.levels), f, o);
      ParseExplained(t, stepped.next, stepped.parse, o);
    } else if text < |t| {
      var last := Literal(FLAG_NONE, o.escapeOutput, text, |t|);
      RowAdd(st, [last]);
      RowOne(last);
      LastExplained(t, RowOf(st.levels), text);
    }
  }

  lemma {:induction false} LastExplained(t: Bytes, row: seq<Piece>, text: nat)
    requires text <= |t| && AllExplained(t, row) && Contiguous(row, text)
    ensures var last := Text(FLAG_NONE, text, |t|); AllExplained(t, row + [last]) && Contiguous(row + [last], |t|)
  {
    hide Contiguous, Explained;
    var last := Text(FLAG_NONE, text, |t|);
    ContiguousSnoc(row, last, text);
    forall i | 0 <= i < |row + [last]|
      ensures Explained(t, row + [last], i)
    {
      if i < |row| {
        StaysExplained(t, row, [last], i);
      } else {
        TextExplained(t, row + [last], i);
      }
    }
  }

  lemma {:induction false} TextExplained(t: Bytes, row: seq<Piece>, i: nat)
    requires i < |row| && row[i].Text? && row[i].flags == FLAG_NONE
    ensures Explained(t, row, i)
  {
  }

  /** In an accepted template, around a tag that is alone on its line the blanks before it and the rest of the line are dropped,
      or kept as the indentation of a partial; and no other text is. */
  lemma {:induction false} LinesStripped(t: Bytes, delims: Delims, o: Options)
    requires Usable(delims) && Pieces(t, delims, o).Ok?
    ensures var row := RowAll(Pieces(t, delims, o).value); AllExplained(t, row) && Contiguous(row, |t|)
  {
    hide ParseFrom, Explained;
    var st := Initial(delims);
    assert st.levels[..0] == [];
    assert RowOf(st.levels) == [];
    ParseExplained(t, 0, st, o);
    var levels := ParseFrom(t, 0, st, o).value.levels;
    assert levels[..0] == [];
    assert RowOf(levels) == [] + [] + RowAll(levels[0].items) == RowAll(levels[0].items);
  }

  // ---- Byte by byte ----------------------------------------------------------------------------------------------------

  /** The byte is on the line of a tag that is alone on it. */
  ghost predicate OnTagLine(t: Bytes, row: seq<Piece>, p: nat) {
    exists k: nat, line: nat, next: nat ::
      k < |row| && Alone(t, row[k], line, next) && (line <= p < row[k].from || row[k].to <= p < next)
  }

  lemma {:induction false} ContiguousAt(row: seq<Piece>, to: nat, i: nat, j: nat)
    requires Contiguous(row, to) && i < j < |row|
    ensures row[i].from <= row[i].to <= row[j].from <= row[j].to <= to
    decreases |row|
  {
    var last := |row| - 1;
    if j < last {
      ContiguousAt(row[..last], row[last].from, i, j);
    } else if i + 1 < j {
      ContiguousAt(row[..last], row[last].from, i, j - 1);
    } else {
      assert row[..last][i] == row[i];
    }
  }

  lemma {:induction false} OnePieceAt(row: seq<Piece>, to: nat, i: nat, j: nat, p: nat)
    requires Contiguous(row, to) && i < |row| && j < |row|
    requires row[i].from <= p < row[i].to && row[j].from <= p < row[j].to
    ensures i == j
  {
    hide Contiguous;
    if i < j {
      ContiguousAt(row, to, i, j);
    } else if j < i {
      ContiguousAt(row, to, j, i);
    }
  }

  /** A byte of text is dropped exactly if it is on the line of a tag that is alone on it. */
  lemma {:induction false} BytesStripped(t: Bytes, delims: Delims, o: Options, i: nat, p: nat)
    requires Usable(delims) && Pieces(t, delims, o).Ok? && i < |RowAll(Pieces(t, delims, o).value)|
    requires var text := RowAll(Pieces(t, delims, o).value)[i]; text.Text? && text.from <= p < text.to
    ensures var row := RowAll(Pieces(t, delims, o).value); row[i].flags != FLAG_NONE <==> OnTagLine(t, row, p)
  {
    hide Pieces, RowAll, Alone, BlankFlags, Contiguous;
    LinesStripped(t, delims, o);
    var row := RowAll(Pieces(t, delims, o).value);
    assert Explained(t, row, i);
    if OnTagLine(t, row, p) {
      var k: nat, line: nat, next: nat :|
        k < |row| && Alone(t, row[k], line, next) && (line <= p < row[k].from || row[k].to <= p < next);
      AloneIsMark(t, row[k], line, next);
      assert Explained(t, row, k) && Stripped(row, k, line, next);
      var j := if p < row[k].from then k - 1 else k + 1;
      OnePieceAt(row, |t|, i, j, p);
      DropsText(row[k]);
    }
  }

  lemma {:induction false} AloneIsMark(t: Bytes, tag: Piece, line: nat, next: nat)
    requires Alone(t, tag, line, next)
    ensures tag.Mark? && line <= tag.from <= tag.to <= next
  {
  }

  lemma {:induction false} DropsText(tag: Piece)
    requires tag.Mark?
    ensures BlankFlags(tag) != FLAG_NONE && FLAG_LAMBDA_ONLY != FLAG_NONE
  {
  }
}
