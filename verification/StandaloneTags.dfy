/** When the tokenizer's internal check on standalone tags can fail: exactly for closing delimiters that end indented. */
module StandaloneTags {
  import opened Base
  import opened Template
  import opened Strings
  import opened SourceTree
  import opened TokenizerSpec
  import opened Tiling

  /** The last line of the text consists of spaces and tabs, and is not empty. */
  predicate EndsIndented(s: Bytes) {
    LineStart(s, |s|) < |s| && PrefixIsIndent(s, |s|)
  }

  /** A tag behind this position never reaches back before it for its indentation. */
  predicate Clear(tmpl: Bytes, text: nat)
    requires text <= |tmpl|
  {
    text == |tmpl| || LineStart(tmpl, text) == text || !PrefixIsIndent(tmpl, text)
  }

  lemma {:induction false} LineStartUnique(tmpl: Bytes, position: nat, k: nat)
    requires k <= position <= |tmpl| && (k > 0 ==> tmpl[k - 1] == NEWLINE)
    requires forall i :: k <= i < position ==> tmpl[i] != NEWLINE
    ensures LineStart(tmpl, position) == k
  {
    hide LineStart;
    var l := LineStart(tmpl, position);
  }

  lemma {:induction false} NoReachingBack(tmpl: Bytes, text: nat, open: nat)
    requires text <= open < |tmpl| && Clear(tmpl, text) && PrefixIsIndent(tmpl, open)
    ensures text <= LineStart(tmpl, open)
  {
    hide LineStart;
    var l := LineStart(tmpl, open);
    forall i | l <= i < open
      ensures IsIndentByte(tmpl[i])
    {
      assert tmpl[i] == tmpl[l..open][i - l];
    }
    if l < text {
      LineStartUnique(tmpl, text, l);
    }
  }

  /** What ends like a clear text is clear. */
  lemma {:induction false} ClearBehind(tmpl: Bytes, end: nat, stop: Bytes)
    requires |stop| <= end <= |tmpl| && tmpl[end - |stop|..end] == stop && stop != [] && !EndsIndented(stop)
    ensures Clear(tmpl, end)
  {
    hide LineStart;
    var base, k := end - |stop|, LineStart(stop, |stop|);
    assert forall i :: 0 <= i < |stop| ==> stop[i] == tmpl[base + i];
    if k == |stop| {
      LineStartUnique(tmpl, end, end);
    } else {
      var m :| k <= m < |stop| && !IsIndentByte(stop[m]);
      forall i | base + k <= i < end
        ensures tmpl[i] != NEWLINE
      {
        assert tmpl[i] == stop[i - base];
      }
      assert LineStart(tmpl, end) <= base + m;
      assert tmpl[LineStart(tmpl, end)..end][base + m - LineStart(tmpl, end)] == stop[m];
    }
  }

  lemma {:induction false} LineEndClear(tmpl: Bytes, tagEnd: nat)
    requires tagEnd <= |tmpl| && LineEnd(tmpl, tagEnd).Some?
    ensures Clear(tmpl, LineEnd(tmpl, tagEnd).value)
  {
    var end := LineEnd(tmpl, tagEnd).value;
    if end < |tmpl| {
      LineStartUnique(tmpl, end, end);
    }
  }

  lemma {:induction false} WordsNotIndented(w: Bytes)
    requires IsWord(w, WHITESPACE)
    ensures !EndsIndented(w)
  {
    if LineStart(w, |w|) < |w| {
      assert w[LineStart(w, |w|)..][|w| - 1 - LineStart(w, |w|)] == w[|w| - 1];
    }
  }

  lemma {:induction false} StepClear(tmpl: Bytes, st: Parse, f: Found, o: Options)
    requires st.levels != [] && f.Within(tmpl) && Recognized(tmpl, f, o) && TagStep(tmpl, st, f, o).Ok?
    requires !EndsIndented(f.spelling.delims.stop)
    ensures Clear(tmpl, TagStep(tmpl, st, f, o).value.next)
  {
    hide AddBefore, AddTag, AddAfter, LineStart, LineEnd, Classify, EndsIndented, Clear;
    var lineEnd := Standalone(tmpl, f);
    if lineEnd.Some? {
      LineEndClear(tmpl, f.Closed());
    } else {
      var text, stop := TagText(f.spelling, true), f.spelling.delims.stop;
      assert text[|text| - |stop|..] == stop;
      assert tmpl[f.close..f.Closed()] == tmpl[f.open..f.Closed()][f.close - f.open..];
      if ExtraBrace(f.spelling, f.head.change.Some?) {
        BraceClear();
        ClearBehind(tmpl, f.End(), CLOSING_BRACE);
      } else {
        ClearBehind(tmpl, f.End(), stop);
      }
    }
  }

  lemma {:induction false} BraceClear()
    ensures !EndsIndented(CLOSING_BRACE)
  {
    var l := LineStart(CLOSING_BRACE, 1);
    assert CLOSING_BRACE[l..1] == CLOSING_BRACE[l..];
  }

  /** The delimiters in force after a tag do not end indented. */
  lemma {:induction false} StepDelims(tmpl: Bytes, st: Parse, f: Found, o: Options)
    requires st.levels != [] && f.Within(tmpl) && Recognized(tmpl, f, o) && TagStep(tmpl, st, f, o).Ok?
    requires !EndsIndented(st.delims.stop)
    ensures !EndsIndented(TagStep(tmpl, st, f, o).value.parse.delims.stop)
  {
    hide Classify, LineStart, LineEnd, EndsIndented;
    ChangeUsable(f.spelling.raw, f.spelling.triple, o.escapeByDefault, o.limits.maxDelimiterBytes);
    if f.head.change.Some? {
      WordsNotIndented(f.head.change.value.stop);
    }
  }

  /** The internal check is the only source of its error. */
  lemma {:induction false} StepNotStuck(tmpl: Bytes, st: Parse, f: Found, o: Options)
    requires st.levels != [] && f.Within(tmpl) && f.open < |tmpl| && Clear(tmpl, f.text)
    ensures TagStep(tmpl, st, f, o) != Err(StandaloneState)
  {
    hide LineStart, LineEnd, Clear;
    var lineEnd := Standalone(tmpl, f);
    if lineEnd.Some? {
      NoReachingBack(tmpl, f.text, f.open);
    }
  }

  lemma {:induction false} ClassifyNotStuck(raw: Bytes, triple: bool, escapeByDefault: bool, maxDelimiterBytes: nat)
    ensures Classify(raw, triple, escapeByDefault, maxDelimiterBytes) != Err(StandaloneState)
  {
    hide Words, Trim;
  }

  lemma {:induction false} ParseNotStuck(tmpl: Bytes, text: nat, st: Parse, o: Options)
    requires st.levels != [] && text <= |tmpl| && Usable(st.delims) && Clear(tmpl, text) && !EndsIndented(st.delims.stop)
    ensures ParseFrom(tmpl, text, st, o) != Err(StandaloneState)
    decreases |tmpl| - text
  {
    hide FindTag, TagStep, FindAt, Recognized, EndsIndented, Clear, Classify;
    var open := FindAt(tmpl, text, st.delims.start);
    if open.Some? {
      var inside := Inside(tmpl, open.value, st.delims.start);
      var close := FindAt(tmpl, inside, st.delims.stop);
      if close.Some? && close.value - inside <= o.limits.maxTagBytes {
        FoundNotStuck(tmpl, text, open.value, close.value, st.delims, o);
        var found := FindTag(tmpl, text, open.value, close.value, st.delims, o);
        if found.Ok? {
          FoundRecognized(tmpl, text, open.value, close.value, st.delims, o);
          StepNotStuck(tmpl, st, found.value, o);
          var stepped := TagStep(tmpl, st, found.value, o);
          if stepped.Ok? {
            StepClear(tmpl, st, found.value, o);
            StepDelims(tmpl, st, found.value, o);
            UsableAfter(tmpl, st, found.value, o);
            ParseNotStuck(tmpl, stepped.value.next, stepped.value.parse, o);
          }
        }
      }
    }
  }

  lemma {:induction false} FoundNotStuck(tmpl: Bytes, text: nat, open: nat, close: nat, delims: Delims, o: Options)
    requires text <= open && MatchesAt(tmpl, open, delims.start) && Usable(delims)
    requires Inside(tmpl, open, delims.start) <= close && MatchesAt(tmpl, close, delims.stop)
    ensures FindTag(tmpl, text, open, close, delims, o) != Err(StandaloneState)
  {
    hide Classify;
    var inside := Inside(tmpl, open, delims.start);
    ClassifyNotStuck(tmpl[inside..close], IsTriple(tmpl, open, delims.start), o.escapeByDefault, o.limits.maxDelimiterBytes);
  }

  // ---- The other direction: a template that fails the check -------------------------------------------

  const FIRST: Bytes := ['a' as int, NEWLINE]
  const SECOND: Bytes := ['#' as int, 'b' as int]

  /** A tag whose content ends in a newline, and a section tag right behind it. */
  function Witness(d: Delims): Bytes {
    d.start + (FIRST + (d.stop + Rest(d)))
  }

  function Rest(d: Delims): Bytes {
    d.start + (SECOND + (d.stop + []))
  }

  /** The text from a position on. */
  predicate At(tmpl: Bytes, at: nat, rest: Bytes) {
    at <= |tmpl| && tmpl[at..] == rest
  }

  predicate Ample(d: Delims, o: Options) {
    |Witness(d)| <= o.limits.maxInputBytes && |d.start| <= o.limits.maxDelimiterBytes && |d.stop| <= o.limits.maxDelimiterBytes
    && o.limits.maxTagBytes >= 2 && o.limits.maxNodes >= 1
  }

  /** A delimiter that occurs d places early, overlapping itself, consists of the bytes before it. */
  lemma {:induction false} Overlap(w: Bytes, stop: Bytes, rest: Bytes, d: nat, i: nat)
    requires |w| == 2 && 1 <= d <= 2 && i < |stop|
    requires forall j :: 0 <= j < |stop| ==> stop[j] == (w + (stop + rest))[2 - d + j]
    ensures stop[i] == w[0] || stop[i] == w[1]
  {
    assert stop[i] == (w + (stop + rest))[2 - d + i];
    if i >= d {
      Overlap(w, stop, rest, d, i - d);
    }
  }

  lemma {:induction false} NotEarly(tmpl: Bytes, at: nat, w: Bytes, stop: Bytes, rest: Bytes, d: nat)
    requires At(tmpl, at, w + (stop + rest)) && |w| == 2 && stop != [] && 1 <= d <= 2
    requires !IsIndentByte(w[0]) && !IsIndentByte(w[1]) && IsIndentByte(stop[|stop| - 1])
    ensures !MatchesAt(tmpl, at + 2 - d, stop)
  {
    var all := w + (stop + rest);
    if MatchesAt(tmpl, at + 2 - d, stop) {
      forall j | 0 <= j < |stop|
        ensures stop[j] == all[2 - d + j]
      {
        assert stop[j] == tmpl[at + 2 - d..at + 2 - d + |stop|][j] == tmpl[at + (2 - d + j)] == tmpl[at..][2 - d + j];
      }
      Overlap(w, stop, rest, d, |stop| - 1);
    }
  }

  /** Behind two bytes that are no indentation, an indented delimiter is first found where it is written. */
  lemma {:induction false} FoundBehind(tmpl: Bytes, at: nat, w: Bytes, stop: Bytes, rest: Bytes)
    requires At(tmpl, at, w + (stop + rest)) && |w| == 2 && stop != []
    requires !IsIndentByte(w[0]) && !IsIndentByte(w[1]) && IsIndentByte(stop[|stop| - 1])
    ensures FindAt(tmpl, at, stop) == Some(at + 2)
  {
    hide FindAt, At, MatchesAt;
    NotEarly(tmpl, at, w, stop, rest, 1);
    NotEarly(tmpl, at, w, stop, rest, 2);
    Next(tmpl, at, w, stop + rest);
    Next(tmpl, at + 2, stop, rest);
    FirstAt(tmpl, at, stop);
  }

  lemma {:induction false} FirstAt(tmpl: Bytes, at: nat, sequence: Bytes)
    requires sequence != [] && at + 2 <= |tmpl| && MatchesAt(tmpl, at + 2, sequence)
    requires !MatchesAt(tmpl, at, sequence) && !MatchesAt(tmpl, at + 1, sequence)
    ensures FindAt(tmpl, at, sequence) == Some(at + 2)
  {
    hide FindAt, MatchesAt;
    var r := FindAt(tmpl, at, sequence);
    assert r.Some?;
    assert at != r.value && at + 1 != r.value;
  }

  lemma {:induction false} Next(tmpl: Bytes, at: nat, x: Bytes, rest: Bytes)
    requires At(tmpl, at, x + rest)
    ensures MatchesAt(tmpl, at, x) && at + |x| <= |tmpl| && At(tmpl, at + |x|, rest)
  {
    forall i | 0 <= i < |x| + |rest|
      ensures tmpl[at + i] == (x + rest)[i]
    {
      assert tmpl[at + i] == tmpl[at..][i];
    }
  }

  lemma {:induction false} LastIndent(stop: Bytes)
    requires EndsIndented(stop)
    ensures stop != [] && IsIndentByte(stop[|stop| - 1])
  {
    var l := LineStart(stop, |stop|);
    assert stop[l..|stop|][|stop| - 1 - l] == stop[|stop| - 1];
  }

  lemma {:induction false} FoundHere(tmpl: Bytes, at: nat, sequence: Bytes)
    requires sequence != [] && MatchesAt(tmpl, at, sequence)
    ensures FindAt(tmpl, at, sequence) == Some(at)
  {
  }

  /** The two tags of the witness. */
  lemma {:induction false} Contents(escapeByDefault: bool, maxDelimiterBytes: nat)
    ensures var r := Classify(FIRST, false, escapeByDefault, maxDelimiterBytes);
            r.Ok? && r.value.change.None? && r.value.kind.TypeVariable?
    ensures var r := Classify(SECOND, false, escapeByDefault, maxDelimiterBytes);
            r.Ok? && r.value.change.None? && r.value.kind.TypeSection?
  {
    assert TrimRight(FIRST, WHITESPACE) == FIRST[..1] by {
      assert FIRST[..1][0] !in WHITESPACE;
    }
    assert Trim(FIRST, WHITESPACE) == FIRST[..1];
    assert TrimRight(SECOND, WHITESPACE) == SECOND && Trim(SECOND, WHITESPACE) == SECOND;
  }

  /** Where the parts of the witness lie. */
  lemma {:induction false} Layout(d: Delims) returns (t: Bytes, a: nat, c: nat, e: nat)
    ensures t == Witness(d) && a == |d.start| && c == a + 2 + |d.stop| && e == c + |d.start| && |t| == e + 2 + |d.stop|
    ensures MatchesAt(t, 0, d.start) && At(t, a, FIRST + (d.stop + Rest(d)))
    ensures MatchesAt(t, a, FIRST) && MatchesAt(t, a + 2, d.stop)
    ensures MatchesAt(t, c, d.start) && At(t, e, SECOND + (d.stop + []))
  {
    t, a := Witness(d), |d.start|;
    c := a + 2 + |d.stop|;
    e := c + |d.start|;
    assert At(t, 0, d.start + (FIRST + (d.stop + Rest(d))));
    Parts(t, d);
  }

  lemma {:induction false} Parts(t: Bytes, d: Delims)
    requires At(t, 0, d.start + (FIRST + (d.stop + Rest(d))))
    ensures var a := |d.start|;
            var c := a + 2 + |d.stop|;
            && MatchesAt(t, 0, d.start) && At(t, a, FIRST + (d.stop + Rest(d)))
            && MatchesAt(t, a, FIRST) && MatchesAt(t, a + 2, d.stop)
            && MatchesAt(t, c, d.start) && At(t, c + a, SECOND + (d.stop + []))
  {
    hide At, MatchesAt;
    Next(t, 0, d.start, FIRST + (d.stop + Rest(d)));
    Next(t, |d.start|, FIRST, d.stop + Rest(d));
    Next(t, |d.start| + 2, d.stop, Rest(d));
    Next(t, |d.start| + 2 + |d.stop|, d.start, SECOND + (d.stop + []));
  }

  /** Neither tag has triple braces. */
  lemma {:induction false} NotTriple(t: Bytes, open: nat, start: Bytes, w: Bytes)
    requires MatchesAt(t, open + |start|, w) && |w| == 2 && w[0] != BRACE[0]
    ensures !IsTriple(t, open, start)
  {
    if start == OPEN {
      assert t[open + 2..open + 4][0] == t[open + 2];
    }
  }

  /** One tag of the witness, as the scan finds it. */
  lemma {:induction false} WitnessTag(t: Bytes, open: nat, w: Bytes, rest: Bytes, st: Parse, o: Options) returns (f: Found)
    requires Usable(st.delims) && EndsIndented(st.delims.stop) && |w| == 2 && o.limits.maxTagBytes >= 2 && st.levels != []
    requires w == FIRST || w == SECOND
    requires MatchesAt(t, open, st.delims.start)
    requires At(t, open + |st.delims.start|, w + (st.delims.stop + rest))
    ensures f.Within(t) && f.text == open && f.open == open && f.close == open + |st.delims.start| + 2
    ensures f.spelling == Spelling(st.delims, false, w) && f.head.change.None?
    ensures f.head.kind == if w == FIRST then TypeVariable else TypeSection
    ensures ParseFrom(t, open, st, o) == ParseStep(t, st, f, o)
  {
    hide Classify, FindAt, EndsIndented, TagStep, At;
    var inside := open + |st.delims.start|;
    FoundHere(t, open, st.delims.start);
    Next(t, inside, w, st.delims.stop + rest);
    Next(t, inside + 2, st.delims.stop, rest);
    NotTriple(t, open, st.delims.start, w);
    LastIndent(st.delims.stop);
    FoundBehind(t, inside, w, st.delims.stop, rest);
    Contents(o.escapeByDefault, o.limits.maxDelimiterBytes);
    f := FoundWitness(t, open, w, st.delims, o);
    Unfolded(t, open, inside + 2, f, st, o);
  }

  lemma {:induction false} FoundWitness(t: Bytes, open: nat, w: Bytes, d: Delims, o: Options) returns (f: Found)
    requires Usable(d) && |w| == 2 && MatchesAt(t, open, d.start) && MatchesAt(t, open + |d.start|, w)
    requires MatchesAt(t, open + |d.start| + 2, d.stop) && !IsTriple(t, open, d.start)
    requires var r := Classify(w, false, o.escapeByDefault, o.limits.maxDelimiterBytes); r.Ok? && r.value.change.None?
    ensures f.Within(t) && FindTag(t, open, open, open + |d.start| + 2, d, o) == Ok(f)
    ensures f == Found(open, open, open + |d.start| + 2, Spelling(d, false, w),
                       Classify(w, false, o.escapeByDefault, o.limits.maxDelimiterBytes).value)
  {
    hide Classify, IsTriple;
    f := FindTag(t, open, open, open + |d.start| + 2, d, o).value;
  }

  lemma {:induction false} Unfolded(t: Bytes, open: nat, close: nat, f: Found, st: Parse, o: Options)
    requires st.levels != [] && Usable(st.delims) && open <= |t| && FindAt(t, open, st.delims.start) == Some(open)
    requires var inside := Inside(t, open, st.delims.start);
             FindAt(t, inside, st.delims.stop) == Some(close) && inside <= close <= inside + o.limits.maxTagBytes
    requires f.Within(t) && FindTag(t, open, open, close, st.delims, o) == Ok(f) && f.head.change.None?
    ensures ParseFrom(t, open, st, o) == ParseStep(t, st, f, o)
  {
    hide FindTag, TagStep, FindAt;
  }

  /** The parse from a tag on: the step, then the rest. */
  function ParseStep(t: Bytes, st: Parse, f: Found, o: Options): Result<Parse>
    requires st.levels != [] && f.Within(t) && Usable(st.delims) && (f.head.change.Some? ==> Usable(f.head.change.value))
  {
    UsableAfter(t, st, f, o);
    var stepped :- TagStep(t, st, f, o);
    ParseFrom(t, stepped.next, stepped.parse, o)
  }

  /** The first tag is a leaf; the scan goes on right behind it. */
  lemma {:induction false} FirstStep(d: Delims, o: Options) returns (st: Parse)
    requires Usable(d) && EndsIndented(d.stop) && Ample(d, o)
    ensures st.delims == d && |st.levels| == 1
    ensures ParseFrom(Witness(d), 0, Initial(d), o) == ParseFrom(Witness(d), |d.start| + 2 + |d.stop|, st, o)
  {
    hide ParseFrom, Witness, EndsIndented;
    var t, a, c, e := Layout(d);
    var f := WitnessTag(t, 0, FIRST, Rest(d), Initial(d), o);
    st := TagStep(t, Initial(d), f, o).value.parse;
  }

  /** The second tag is a section tag alone on its line, but the indentation before it belongs to the first tag. */
  lemma {:induction false} SecondStuck(d: Delims, o: Options, st: Parse)
    requires Usable(d) && EndsIndented(d.stop) && Ample(d, o) && st.delims == d && |st.levels| == 1
    ensures ParseFrom(Witness(d), |d.start| + 2 + |d.stop|, st, o) == Err(StandaloneState)
  {
    hide ParseFrom, Witness, EndsIndented, LineStart, LineEnd, PrefixIsIndent, AddBefore, AddTag, AddAfter;
    var t, a, c, e := Layout(d);
    var f := WitnessTag(t, c, SECOND, [], st, o);
    BehindIndented(d);
    EndOfText(t);
  }

  lemma {:induction false} EndOfText(t: Bytes)
    ensures LineEnd(t, |t|) == Some(|t|)
  {
  }

  /** A delimiter that ends indented, written right behind a newline, leaves its line indented. */
  lemma {:induction false} EndsLine(t: Bytes, base: nat, stop: Bytes)
    requires base > 0 && MatchesAt(t, base, stop) && t[base - 1] == NEWLINE && EndsIndented(stop)
    ensures LineStart(t, base + |stop|) < base + |stop| && PrefixIsIndent(t, base + |stop|)
  {
    hide LineStart;
    var at, l := base + |stop|, LineStart(stop, |stop|);
    forall i | base <= i < at
      ensures t[i] == stop[i - base]
    {
      assert t[i] == t[base..at][i - base];
    }
    LineStartUnique(t, at, base + l);
    forall i | base + l <= i < at
      ensures IsIndentByte(t[i])
    {
      assert stop[i - base] == stop[l..|stop|][i - base - l];
    }
  }

  /** Right behind the first tag the line consists of the end of its closing delimiter. */
  lemma {:induction false} BehindIndented(d: Delims)
    requires EndsIndented(d.stop)
    ensures var t, at := Witness(d), |d.start| + 2 + |d.stop|; at <= |t| && LineStart(t, at) < at && PrefixIsIndent(t, at)
  {
    hide LineStart, Witness, EndsIndented, PrefixIsIndent;
    var t, a, at, e := Layout(d);
    assert t[a + 1] == t[a..a + 2][1] == NEWLINE;
    EndsLine(t, a + 2, d.stop);
  }

  /** Closing delimiters that do not end indented are safe under all limits. */
  lemma {:induction false} NeverStuck(tmpl: Bytes, d: Delims, o: Options)
    requires Usable(d) && !EndsIndented(d.stop)
    ensures Pieces(tmpl, d, o) != Err(StandaloneState)
  {
    hide ParseFrom, EndsIndented;
    LineStartUnique(tmpl, 0, 0);
    ParseNotStuck(tmpl, 0, Initial(d), o);
  }

  /** The default delimiters are safe, and so is everything a tag can change them to. */
  lemma {:induction false} DefaultNeverStuck(tmpl: Bytes, o: Options)
    ensures Pieces(tmpl, DEFAULT, o) != Err(StandaloneState)
  {
    hide Pieces;
    WordsNotIndented(CLOSE);
    NeverStuck(tmpl, DEFAULT, o);
  }

  /** The internal check of the tokenizer can fail for some template exactly when the closing delimiter it starts with ends
      in a line of spaces and tabs. That it never fails otherwise holds under all limits; to see it fail, the limits must
      admit two short tags. */
  lemma {:induction false} StandaloneStateExactly(d: Delims, o: Options)
    requires Usable(d)
    ensures (exists tmpl :: Pieces(tmpl, d, o) == Err(StandaloneState)) ==> EndsIndented(d.stop)
    ensures Ample(d, o) && EndsIndented(d.stop) ==> exists tmpl :: Pieces(tmpl, d, o) == Err(StandaloneState)
  {
    hide ParseFrom, EndsIndented;
    if EndsIndented(d.stop) && Ample(d, o) {
      var st := FirstStep(d, o);
      SecondStuck(d, o, st);
      assert Pieces(Witness(d), d, o) == Err(StandaloneState);
    } else if !EndsIndented(d.stop) {
      forall tmpl
        ensures Pieces(tmpl, d, o) != Err(StandaloneState)
      {
        NeverStuck(tmpl, d, o);
      }
    }
  }
}
