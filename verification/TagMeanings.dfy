/** What the author of a template writes between the delimiters of a tag, and what the tag then is. */
module TagMeanings {
  import opened Base
  import opened Template
  import opened RenderTrace
  import opened Strings
  import opened SourceTree
  import opened TokenizerSpec
  import opened Tiling
  import opened DelimiterChanges
  import opened StandaloneLines
  import opened LimitsExact
  import opened IndentedSource

  /** Spaces, tabs, line breaks and form feeds. */
  predicate White(s: Bytes) {
    forall i :: 0 <= i < |s| ==> s[i] == ' ' as int || 9 <= s[i] <= 13
  }

  /** A name does not begin or end with white space. */
  predicate Name(s: Bytes) {
    s != [] && !White(s[..1]) && !White(s[|s| - 1..])
  }

  /** The six bytes that give a tag its kind, and the equals sign of a change of delimiters. */
  predicate Sigil(b: byte) {
    b == '#' as int || b == '^' as int || b == '/' as int || b == '!' as int || b == '>' as int || b == '&' as int
    || b == '=' as int
  }

  lemma {:induction false} WhiteBytes(b: byte)
    ensures b in WHITESPACE <==> b == ' ' as int || 9 <= b <= 13
  {
    assert WHITESPACE[0] == 32 && WHITESPACE[1] == 12 && WHITESPACE[2] == 10 && WHITESPACE[3] == 13 && WHITESPACE[4] == 9
           && WHITESPACE[5] == 11;
  }

  lemma {:induction false} WhiteIs(s: Bytes)
    ensures White(s) <==> AllIn(s, WHITESPACE)
  {
    forall i | 0 <= i < |s|
      ensures s[i] in WHITESPACE <==> s[i] == ' ' as int || 9 <= s[i] <= 13
    {
      WhiteBytes(s[i]);
    }
  }

  lemma {:induction false} NameEnds(s: Bytes)
    requires s != []
    ensures Name(s) <==> s[0] !in WHITESPACE && s[|s| - 1] !in WHITESPACE
  {
    WhiteBytes(s[0]);
    WhiteBytes(s[|s| - 1]);
    assert s[..1] == [s[0]] && s[|s| - 1..] == [s[|s| - 1]];
  }

  lemma {:induction false} TrimsTo(a: Bytes, core: Bytes, c: Bytes)
    requires White(a) && White(c) && Name(core)
    ensures Trim(a + core + c, WHITESPACE) == core && core[0] !in WHITESPACE
  {
    hide Trim;
    WhiteIs(a);
    WhiteIs(c);
    NameEnds(core);
    TrimIs(a, core, c, WHITESPACE);
  }

  /** Whether a variable is escaped: what is on by default is turned over by an ampersand, and again by triple braces. */
  predicate EscapedOddly(ampersand: bool, triple: bool, escapeByDefault: bool) {
    ((if ampersand then 1 else 0) + (if triple then 1 else 0) + (if escapeByDefault then 1 else 0)) % 2 == 1
  }

  /** A plain name is a variable. */
  lemma {:induction false} VariableTag(a: Bytes, name: Bytes, c: Bytes, triple: bool, escapeByDefault: bool, max: nat)
    requires White(a) && White(c) && Name(name) && !Sigil(name[0])
    ensures Classify(a + name + c, triple, escapeByDefault, max)
         == Ok(Head(TypeVariable, if EscapedOddly(false, triple, escapeByDefault) then 1 else 0, name, None))
  {
    hide Trim;
    TrimsTo(a, name, c);
  }

  /** A sigil and a name: a section, an inverted section, a closing tag, a comment, a partial, or an unescaped variable. */
  lemma {:induction false} SigilTag(a: Bytes, sigil: byte, b: Bytes, name: Bytes, c: Bytes, triple: bool, escapeByDefault: bool,
                                    max: nat)
    requires White(a) && White(b) && White(c) && Name(name) && Sigil(sigil) && sigil != '=' as int
    ensures var r := Classify(a + ([sigil] + b + name) + c, triple, escapeByDefault, max);
            && r.Ok? && r.value.name == name && r.value.change.None?
            && (sigil == '#' as int ==> r.value.kind == TypeSection && r.value.flags == 0)
            && (sigil == '^' as int ==> r.value.kind == TypeNegate && r.value.flags == 0)
            && (sigil == '/' as int ==> r.value.kind == TypeStop && r.value.flags == 0)
            && (sigil == '!' as int ==> r.value.kind == TypeComment && r.value.flags == 0)
            && (sigil == '>' as int ==> r.value.kind == TypePartial && r.value.flags == 0)
            && (sigil == '&' as int ==>
                  r.value.kind == TypeVariable
                  && r.value.flags == if EscapedOddly(true, triple, escapeByDefault) then 1 else 0)
  {
    hide Trim;
    var text := [sigil] + b + name;
    assert text[..1] == [sigil] && text[|text| - 1..] == name[|name| - 1..];
    assert text[..1][0] == sigil && Name(text);
    TrimsTo(a, text, c);
    assert text[1..] == b + name + [];
    TrimsTo(b, name, []);
  }

  /** Two words between equals signs are the new delimiters. */
  lemma {:induction false} ChangeTag(a: Bytes, x: Bytes, between: Bytes, y: Bytes, c: Bytes, triple: bool, escapeByDefault: bool,
                                     max: nat)
    requires White(a) && White(between) && White(c) && between != [] && |x| <= max && |y| <= max
    requires IsWord(x, WHITESPACE + [EQUALS]) && IsWord(y, WHITESPACE + [EQUALS])
    ensures Classify(a + (['=' as int] + (x + between + y) + ['=' as int]) + c, triple, escapeByDefault, max)
         == Ok(Head(TypeVariable, 0, [], Some(Delims(x, y))))
  {
    hide Trim, Words;
    var core, chars := x + between + y, WHITESPACE + [EQUALS];
    var text := ['=' as int] + core + ['=' as int];
    WhiteBytes('=' as int);
    NameEnds(text);
    TrimsTo(a, text, c);
    assert EQUALS in chars;
    assert core[0] == x[0] && core[|core| - 1] == y[|y| - 1];
    TrimIs(['=' as int], core, ['=' as int], chars);
    TwoWords(x, between, y);
  }

  lemma {:induction false} TwoWords(x: Bytes, between: Bytes, y: Bytes)
    requires White(between) && between != [] && IsWord(x, WHITESPACE + [EQUALS]) && IsWord(y, WHITESPACE + [EQUALS])
    ensures Words(x + between + y, WHITESPACE, 0) == [x, y]
  {
    hide Words, Scan;
    WhiteIs(between);
    WordsConcat(x + between, y, WHITESPACE, 0);
    OneWord(x, between);
    OneWord(y, []);
    assert y + [] == y;
  }

  lemma {:induction false} OneWord(x: Bytes, blanks: Bytes)
    requires AllIn(blanks, WHITESPACE) && IsWord(x, WHITESPACE + [EQUALS])
    ensures Words(x + blanks, WHITESPACE, 0) == [x]
  {
    hide Scan, Words;
    var s := x + blanks;
    forall i | 0 <= i < |x|
      ensures s[i] !in WHITESPACE
    {
      assert s[i] == x[i] && x[i] !in WHITESPACE + [EQUALS];
    }
    forall i | |x| <= i < |s|
      ensures s[i] in WHITESPACE
    {
      assert s[i] == blanks[i - |x|];
    }
    WordsStep(s, WHITESPACE, 0);
    assert s[0] !in WHITESPACE && Scan(s, WHITESPACE, 0, false) == 0;
    var k := Scan(s, WHITESPACE, 0, true);
    assert k < |s| ==> s[k] in WHITESPACE;
    assert |x| < |s| ==> s[|x|] in WHITESPACE;
    assert k == |x|;
    assert s[0..|x|] == x;
    WordsStep(s, WHITESPACE, |x|);
    assert Scan(s, WHITESPACE, |x|, false) == |s|;
  }

  /** A text without white space at its ends begins with its first word. */
  lemma {:induction false} FirstWord(s: Bytes, from: nat, words: seq<Bytes>) returns (start: nat, end: nat)
    requires from <= |s| && words != [] && Words(s, WHITESPACE, from) == words
    ensures from <= start < end <= |s| && words[0] == s[start..end] && Words(s, WHITESPACE, end) == words[1..]
    ensures AllIn(s[from..start], WHITESPACE) && s[start] !in WHITESPACE && (end < |s| ==> s[end] in WHITESPACE)
    ensures s[from] !in WHITESPACE ==> start == from
  {
    hide Words, Scan;
    WordsStep(s, WHITESPACE, from);
    start := Scan(s, WHITESPACE, from, false);
    end := Scan(s, WHITESPACE, start, true);
    ScanProgress(s, WHITESPACE, start);
    var rest := Words(s, WHITESPACE, end);
    assert ([s[start..end]] + rest)[0] == s[start..end] && ([s[start..end]] + rest)[1..] == rest;
    forall i | 0 <= i < start - from
      ensures s[from..start][i] in WHITESPACE
    {
      assert s[from..start][i] == s[from + i];
    }
  }

  lemma {:induction false} NoMoreWords(s: Bytes, from: nat)
    requires from <= |s| && s != [] && s[|s| - 1] !in WHITESPACE && Words(s, WHITESPACE, from) == []
    ensures from == |s|
  {
    hide Words, Scan;
    WordsStep(s, WHITESPACE, from);
    assert Scan(s, WHITESPACE, from, false) == |s|;
  }

  /** Two words between them, from both ends of a text. */
  lemma {:induction false} OnlyTwoWords(s: Bytes, x: Bytes, y: Bytes) returns (between: Bytes)
    requires s != [] && Words(s, WHITESPACE, 0) == [x, y] && s[0] !in WHITESPACE && s[|s| - 1] !in WHITESPACE
    ensures s == x + between + y && White(between) && between != []
  {
    hide Words;
    var zero, end := FirstWord(s, 0, [x, y]);
    assert [x, y][1..] == [y] && [y][1..] == [];
    var start, last := FirstWord(s, end, [y]);
    NoMoreWords(s, last);
    between := s[end..start];
    WhiteIs(between);
    CutTwice(s, end, start);
  }

  lemma {:induction false} CutTwice(s: Bytes, i: nat, j: nat)
    requires i <= j <= |s|
    ensures s == s[..i] + s[i..j] + s[j..] && s[0..i] == s[..i] && s[j..|s|] == s[j..]
  {
  }

  /** Nothing else changes the delimiters: between the two equals signs there are exactly two words, both within the limit. */
  lemma {:induction false} OnlyChangeTag(raw: Bytes, triple: bool, escapeByDefault: bool, max: nat)
    returns (a: Bytes, before: Bytes, x: Bytes, between: Bytes, y: Bytes, behind: Bytes, c: Bytes)
    requires var r := Classify(raw, triple, escapeByDefault, max); r.Ok? && r.value.change.Some?
    ensures Classify(raw, triple, escapeByDefault, max).value.change == Some(Delims(x, y)) && |x| <= max && |y| <= max
    ensures raw == a + (before + (x + between + y) + behind) + c && White(a) && White(between) && White(c) && between != []
    ensures before != [] && before[0] == '=' as int && behind != [] && behind[|behind| - 1] == '=' as int
    ensures AllIn(before, WHITESPACE + [EQUALS]) && AllIn(behind, WHITESPACE + [EQUALS])
  {
    hide Trim, Words;
    var text, chars := Trim(raw, WHITESPACE), WHITESPACE + [EQUALS];
    var i, j := TrimCuts(raw, WHITESPACE);
    a, c := raw[..i], raw[j..];
    WhiteIs(a);
    WhiteIs(c);
    CutTwice(raw, i, j);
    var words := ChangeWords(raw, triple, escapeByDefault, max);
    x, y := words[0], words[1];
    before, between, behind := BetweenEquals(text, x, y);
  }

  lemma {:induction false} ChangeWords(raw: Bytes, triple: bool, escapeByDefault: bool, max: nat) returns (words: seq<Bytes>)
    requires var r := Classify(raw, triple, escapeByDefault, max); r.Ok? && r.value.change.Some?
    ensures var text := Trim(raw, WHITESPACE);
            && text != [] && text[0] == EQUALS && text[|text| - 1] == EQUALS && |words| == 2
            && Words(Trim(text, WHITESPACE + [EQUALS]), WHITESPACE, 0) == [words[0], words[1]]
            && Classify(raw, triple, escapeByDefault, max).value.change == Some(Delims(words[0], words[1]))
            && |words[0]| <= max && |words[1]| <= max
  {
    hide Trim, Words;
    words := Words(Trim(Trim(raw, WHITESPACE), WHITESPACE + [EQUALS]), WHITESPACE, 0);
  }

  lemma {:induction false} BetweenEquals(text: Bytes, x: Bytes, y: Bytes) returns (before: Bytes, between: Bytes, behind: Bytes)
    requires text != [] && text[0] == EQUALS && text[|text| - 1] == EQUALS
    requires Words(Trim(text, WHITESPACE + [EQUALS]), WHITESPACE, 0) == [x, y]
    ensures text == before + (x + between + y) + behind && White(between) && between != []
    ensures before != [] && before[0] == '=' as int && behind != [] && behind[|behind| - 1] == '=' as int
    ensures AllIn(before, WHITESPACE + [EQUALS]) && AllIn(behind, WHITESPACE + [EQUALS])
  {
    hide Trim, Words;
    var chars := WHITESPACE + [EQUALS];
    var k, l := TrimCuts(text, chars);
    before, behind := text[..k], text[l..];
    var inner := text[k..l];
    NoWordsInNothing();
    assert EQUALS in chars;
    Subset(inner[0]);
    Subset(inner[|inner| - 1]);
    between := OnlyTwoWords(inner, x, y);
    CutTwice(text, k, l);
  }

  lemma {:induction false} NoWordsInNothing()
    ensures Words([], WHITESPACE, 0) == []
  {
  }

  lemma {:induction false} Subset(b: byte)
    ensures b !in WHITESPACE + [EQUALS] ==> b !in WHITESPACE
  {
  }

  // ---- Where tags are ---------------------------------------------------------------------------------------------

  /** The tag as it stands in the text: its opening delimiter, with a third brace behind the default one; its content up to the
      first closing delimiter; that delimiter; and behind two closing braces the third, which a change of delimiters leaves. */
  ghost predicate Written(t: Bytes, tag: Piece) {
    tag.Mark?
    && var start, stop, raw := tag.spelling.delims.start, tag.spelling.delims.stop, tag.spelling.raw;
       var braces := start == ['{' as int, '{' as int] && MatchesAt(t, tag.from + 2, ['{' as int]);
       var inside := tag.from + |start| + if braces then 1 else 0;
       var close := inside + |raw|;
       var third := braces && tag.head.change.None? && stop == ['}' as int, '}' as int];
       && (tag.spelling.triple <==> braces) && tag.to == close + |stop| + (if third then 1 else 0) <= |t|
       && t[tag.from..tag.from + |start|] == start && t[inside..close] == raw && t[close..close + |stop|] == stop
       && (third ==> t[close + |stop|] == '}' as int)
       && forall i :: inside <= i < close ==> !MatchesAt(t, i, stop)
  }

  ghost predicate AllWritten(t: Bytes, row: seq<Piece>) {
    forall i :: 0 <= i < |row| && row[i].Mark? ==> Written(t, row[i])
  }

  lemma {:induction false} FoundWritten(t: Bytes, st: Parse, f: Found, o: Options)
    requires st.levels != [] && f.Within(t) && Usable(st.delims) && f.text <= f.open && MatchesAt(t, f.open, st.delims.start)
    requires FindAt(t, Inside(t, f.open, st.delims.start), st.delims.stop) == Some(f.close)
    requires FindTag(t, f.text, f.open, f.close, st.delims, o) == Ok(f) && TagStep(t, st, f, o).Ok?
    ensures Written(t, MarkOf(f))
  {
    hide FindAt, Classify, AddBefore, AddTag, AddAfter, LineStart, Standalone;
    StepBrace(t, st, f, o);
    var inside := Inside(t, f.open, st.delims.start);
    assert t[inside..f.close] == f.spelling.raw;
  }

  lemma {:induction false} StepBrace(t: Bytes, st: Parse, f: Found, o: Options)
    requires st.levels != [] && f.Within(t) && TagStep(t, st, f, o).Ok?
    ensures ExtraBrace(f.spelling, f.head.change.Some?) ==> MatchesAt(t, f.Closed(), CLOSING_BRACE)
    ensures MatchesAt(t, f.Closed(), CLOSING_BRACE) ==> f.Closed() < |t| && t[f.Closed()] == '}' as int
  {
    hide AddBefore, AddTag, AddAfter, LineStart, Standalone;
    if MatchesAt(t, f.Closed(), CLOSING_BRACE) {
      assert t[f.Closed()..f.Closed() + 1][0] == t[f.Closed()];
    }
  }

  lemma {:induction false} StepWritten(t: Bytes, row: seq<Piece>, f: Found, lineEnd: Option<nat>)
    requires f.Within(t) && AllWritten(t, row) && Written(t, MarkOf(f))
    ensures AllWritten(t, row + StepPieces(t, f, lineEnd))
  {
    hide Written, LineStart, StepPieces;
    var all := row + StepPieces(t, f, lineEnd);
    TagPlace(t, row, f, lineEnd, all);
    forall i | 0 <= i < |all| && all[i].Mark?
      ensures Written(t, all[i])
    {
      if i < |row| {
        assert all[i] == row[i];
      }
    }
  }

  lemma {:induction false} ParseWritten(t: Bytes, text: nat, st: Parse, o: Options)
    requires st.levels != [] && text <= |t| && Usable(st.delims) && ParseFrom(t, text, st, o).Ok?
    requires AllWritten(t, RowOf(st.levels))
    ensures AllWritten(t, RowOf(ParseFrom(t, text, st, o).value.levels))
    decreases |t| - text
  {
    hide ParseTag, TagStep, FindAt, FindTag, RowOf, RowAll, Standalone, StepPieces, LineStart, Written;
    var open := FindAt(t, text, st.delims.start);
    if open.Some? {
      var f, stepped := FoundTag(t, text, open.value, st, o);
      FoundWritten(t, st, f, o);
      StepRow(t, st, f, o);
      StepWritten(t, RowOf(st.levels), f, Standalone(t, f));
      ParseWritten(t, stepped.next, stepped.parse, o);
    } else if text < |t| {
      var last := Literal(FLAG_NONE, o.escapeOutput, text, |t|);
      RowAdd(st, [last]);
      RowOne(last);
    }
  }

  /** Every tag of an accepted template stands in the text as it was read. */
  lemma {:induction false} TagsWritten(t: Bytes, d: Delims, o: Options)
    requires Usable(d) && Pieces(t, d, o).Ok?
    ensures AllWritten(t, RowAll(Pieces(t, d, o).value))
  {
    hide ParseFrom, Written;
    var st := Initial(d);
    assert st.levels[..0] == [];
    assert RowOf(st.levels) == [];
    ParseWritten(t, 0, st, o);
    var levels := ParseFrom(t, 0, st, o).value.levels;
    assert levels[..0] == [];
    assert RowOf(levels) == [] + [] + RowAll(levels[0].items) == RowAll(levels[0].items);
  }
}
