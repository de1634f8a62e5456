/** Limits in proportion to the length of a template are never hit. */
module TokenizerRoom {
  import opened Base
  import opened Template
  import opened Strings
  import opened SourceTree
  import opened TokenizerSpec

  /** The errors of the limits. */
  predicate Limit(e: Error) {
    e.TagSize? || e.ParseNodes? || e.ParseNesting? || e.InputSize? || e.DelimiterSize?
  }

  /** Room for every text of n bytes. */
  predicate Roomy(n: nat, d: Delims, limits: TokenizerLimits) {
    && limits.maxInputBytes >= n && limits.maxTagBytes >= n && limits.maxNestingDepth >= n && limits.maxNodes > 2 * n
    && limits.maxDelimiterBytes >= n && limits.maxDelimiterBytes >= |d.start| && limits.maxDelimiterBytes >= |d.stop|
  }

  /** Every tag takes two bytes, and gives four nodes and one level at most. */
  predicate RoomLeft(n: nat, st: Parse, limits: TokenizerLimits) {
    && |st.levels| <= limits.maxNestingDepth - n + 1 && st.count + 2 * n < limits.maxNodes
  }

  lemma {:induction false} WordsShort(s: Bytes, chars: Bytes, from: nat)
    requires from <= |s|
    ensures forall i :: 0 <= i < |Words(s, chars, from)| ==> |Words(s, chars, from)[i]| <= |s|
    decreases |s| - from
  {
    hide Scan;
    var first := Scan(s, chars, from, false);
    if first < |s| {
      var last := Scan(s, chars, first, true);
      ScanProgress(s, chars, first);
      WordsShort(s, chars, last);
    }
  }

  lemma {:induction false} TagMeaning(raw: Bytes, triple: bool, escapeByDefault: bool, max: nat)
    requires |raw| <= max
    ensures var r := Classify(raw, triple, escapeByDefault, max); r.Err? ==> !Limit(r.error)
  {
    hide Trim, Words;
    var text := Trim(raw, WHITESPACE);
    var a, b := TrimCuts(raw, WHITESPACE);
    var c, d := TrimCuts(text, WHITESPACE + [EQUALS]);
    WordsShort(Trim(text, WHITESPACE + [EQUALS]), WHITESPACE, 0);
  }

  lemma {:induction false} StepRoom(tmpl: Bytes, st: Parse, f: Found, o: Options, n: nat, left: nat)
    requires st.levels != [] && f.Within(tmpl) && RoomLeft(n, st, o.limits) && n >= left + 2
    ensures var r := TagStep(tmpl, st, f, o); if r.Err? then !Limit(r.error) else RoomLeft(left, r.value.parse, o.limits)
  {
    hide Standalone, LineStart, MatchesAt;
    var lineEnd := Standalone(tmpl, f);
    if lineEnd.None? || f.text <= LineStart(tmpl, f.open) {
      BeforeCount(tmpl, st, f, lineEnd, o);
      var before := AddBefore(tmpl, st, f, lineEnd, o).value;
      TagCount(before, f, o);
      if AddTag(before, f, o).Ok? {
        AfterCount(AddTag(before, f, o).value, f, lineEnd, o);
      }
    }
  }

  lemma {:induction false} BeforeCount(tmpl: Bytes, st: Parse, f: Found, lineEnd: Option<nat>, o: Options)
    requires st.levels != [] && f.Within(tmpl) && (lineEnd.Some? ==> f.text <= LineStart(tmpl, f.open))
    requires st.count + 1 < o.limits.maxNodes
    ensures var r := AddBefore(tmpl, st, f, lineEnd, o);
            r.Ok? && r.value.count <= st.count + 2 && |r.value.levels| == |st.levels|
  {
    hide LineStart;
  }

  lemma {:induction false} TagCount(st: Parse, f: Found, o: Options)
    requires st.levels != [] && st.count < o.limits.maxNodes && |st.levels| <= o.limits.maxNestingDepth
    ensures var r := AddTag(st, f, o);
            if r.Err? then !Limit(r.error) else r.value.count <= st.count + 1 && |r.value.levels| <= |st.levels| + 1
  {
  }

  lemma {:induction false} AfterCount(st: Parse, f: Found, lineEnd: Option<nat>, o: Options)
    requires st.levels != [] && st.count < o.limits.maxNodes
    ensures var r := AddAfter(st, f, lineEnd, o); r.Ok? && r.value.count <= st.count + 1 && |r.value.levels| == |st.levels|
  {
  }

  lemma {:induction false} ParseRoom(tmpl: Bytes, text: nat, st: Parse, o: Options, d: Delims)
    requires st.levels != [] && text <= |tmpl| && Usable(st.delims)
    requires Roomy(|tmpl|, d, o.limits) && RoomLeft(|tmpl| - text, st, o.limits)
    ensures var r := ParseFrom(tmpl, text, st, o); r.Err? ==> !Limit(r.error)
    decreases |tmpl| - text
  {
    hide FindAt, TagStep, Classify, RoomLeft;
    var open := FindAt(tmpl, text, st.delims.start);
    if open.Some? {
      var inside := Inside(tmpl, open.value, st.delims.start);
      var close := FindAt(tmpl, inside, st.delims.stop);
      if close.Some? {
        TagMeaning(tmpl[inside..close.value], IsTriple(tmpl, open.value, st.delims.start), o.escapeByDefault, o.limits.maxDelimiterBytes);
        var found := FindTag(tmpl, text, open.value, close.value, st.delims, o);
        if found.Ok? {
          StepEnd(tmpl, st, found.value, o);
          StepRest(tmpl, text, st, found.value, o, d);
        }
      }
    } else {
      EndRoom(tmpl, text, st, o);
    }
  }

  lemma {:induction false} EndRoom(tmpl: Bytes, text: nat, st: Parse, o: Options)
    requires st.levels != [] && text <= |tmpl| && RoomLeft(|tmpl| - text, st, o.limits)
    ensures st.count < o.limits.maxNodes
  {
  }

  lemma {:induction false} StepRest(tmpl: Bytes, text: nat, st: Parse, f: Found, o: Options, d: Delims)
    requires st.levels != [] && text <= |tmpl| && f.Within(tmpl) && Usable(st.delims) && (f.head.change.Some? ==> Usable(f.head.change.value))
    requires Roomy(|tmpl|, d, o.limits) && RoomLeft(|tmpl| - text, st, o.limits) && f.text == text && text + 2 <= f.Closed()
    ensures var r := TagStep(tmpl, st, f, o);
            if r.Err? then !Limit(r.error)
            else
              Usable(r.value.parse.delims) && text < r.value.next <= |tmpl|
              && (var s := ParseFrom(tmpl, r.value.next, r.value.parse, o); s.Err? ==> !Limit(s.error))
    decreases |tmpl| - text, 0
  {
    hide TagStep, ParseFrom, RoomLeft;
    var left := |tmpl| - f.Closed();
    StepEnd(tmpl, st, f, o);
    UsableAfter(tmpl, st, f, o);
    if TagStep(tmpl, st, f, o).Ok? {
      StepRoom(tmpl, st, f, o, |tmpl| - text, |tmpl| - TagStep(tmpl, st, f, o).value.next);
      ParseRoom(tmpl, TagStep(tmpl, st, f, o).value.next, TagStep(tmpl, st, f, o).value.parse, o, d);
    } else {
      StepRoom(tmpl, st, f, o, |tmpl| - text, left);
    }
  }

  lemma {:induction false} StepEnd(tmpl: Bytes, st: Parse, f: Found, o: Options)
    requires st.levels != [] && f.Within(tmpl)
    ensures var r := TagStep(tmpl, st, f, o); r.Ok? ==> f.Closed() <= r.value.next <= |tmpl|
  {
    hide AddBefore, AddTag, AddAfter, LineStart, Standalone;
  }

  /** With limits in proportion to its length, a template is accepted or refused for what it says. */
  lemma {:induction false} NoLimitHit(tmpl: Bytes, d: Delims, o: Options)
    requires Usable(d) && Roomy(|tmpl|, d, o.limits)
    ensures var r := Pieces(tmpl, d, o); r.Err? ==> !Limit(r.error)
  {
    hide ParseFrom;
    ParseRoom(tmpl, 0, Initial(d), o, d);
  }

  // ---- Different limits --------------------------------------------------------------------------------------------

  /** The same success, or a limit is hit. */
  predicate SameOrLimit<T(==)>(r: Result<T>, s: Result<T>) {
    s == r || (s.Err? && Limit(s.error))
  }

  lemma {:induction false} StepSame(tmpl: Bytes, st: Parse, f: Found, o: Options, o': Options)
    requires st.levels != [] && f.Within(tmpl) && TagStep(tmpl, st, f, o).Ok?
    ensures SameOrLimit(TagStep(tmpl, st, f, o), TagStep(tmpl, st, f, o'))
  {
    hide Standalone, LineStart, MatchesAt, AddBefore, AddTag, AddAfter;
    var lineEnd := Standalone(tmpl, f);
    BeforeSame(tmpl, st, f, lineEnd, o, o');
    var before := AddBefore(tmpl, st, f, lineEnd, o).value;
    TagSame(before, f, o, o');
    AfterSame(AddTag(before, f, o).value, f, lineEnd, o, o');
  }

  lemma {:induction false} BeforeSame(tmpl: Bytes, st: Parse, f: Found, lineEnd: Option<nat>, o: Options, o': Options)
    requires st.levels != [] && f.Within(tmpl) && (lineEnd.Some? ==> f.text <= LineStart(tmpl, f.open))
    requires AddBefore(tmpl, st, f, lineEnd, o).Ok?
    ensures SameOrLimit(AddBefore(tmpl, st, f, lineEnd, o), AddBefore(tmpl, st, f, lineEnd, o'))
  {
    hide LineStart;
  }

  lemma {:induction false} TagSame(st: Parse, f: Found, o: Options, o': Options)
    requires st.levels != [] && AddTag(st, f, o).Ok?
    ensures SameOrLimit(AddTag(st, f, o), AddTag(st, f, o'))
  {
  }

  lemma {:induction false} AfterSame(st: Parse, f: Found, lineEnd: Option<nat>, o: Options, o': Options)
    requires st.levels != [] && AddAfter(st, f, lineEnd, o).Ok?
    ensures SameOrLimit(AddAfter(st, f, lineEnd, o), AddAfter(st, f, lineEnd, o'))
  {
  }

  lemma {:induction false} MeaningSame(raw: Bytes, triple: bool, escapeByDefault: bool, m: nat, m': nat)
    requires Classify(raw, triple, escapeByDefault, m).Ok?
    ensures SameOrLimit(Classify(raw, triple, escapeByDefault, m), Classify(raw, triple, escapeByDefault, m'))
  {
    hide Trim, Words;
  }

  lemma {:induction false} ParseSame(tmpl: Bytes, text: nat, st: Parse, o: Options, o': Options)
    requires o'.escapeByDefault == o.escapeByDefault && o'.escapeOutput == o.escapeOutput
    requires st.levels != [] && text <= |tmpl| && Usable(st.delims) && ParseFrom(tmpl, text, st, o).Ok?
    ensures SameOrLimit(ParseFrom(tmpl, text, st, o), ParseFrom(tmpl, text, st, o'))
    decreases |tmpl| - text
  {
    hide FindAt, TagStep, Classify;
    var open := FindAt(tmpl, text, st.delims.start);
    if open.Some? {
      var inside := Inside(tmpl, open.value, st.delims.start);
      var close := FindAt(tmpl, inside, st.delims.stop);
      MeaningSame(tmpl[inside..close.value], IsTriple(tmpl, open.value, st.delims.start), o.escapeByDefault,
                  o.limits.maxDelimiterBytes, o'.limits.maxDelimiterBytes);
      var f := FindTag(tmpl, text, open.value, close.value, st.delims, o).value;
      StepSame(tmpl, st, f, o, o');
      UsableAfter(tmpl, st, f, o);
      var stepped := TagStep(tmpl, st, f, o).value;
      ParseSame(tmpl, stepped.next, stepped.parse, o, o');
    }
  }

  /** The limits decide whether a template is accepted, never what its pieces are. */
  lemma {:induction false} LimitsKeepPieces(tmpl: Bytes, d: Delims, o: Options, o': Options)
    requires Usable(d) && o'.escapeByDefault == o.escapeByDefault && o'.escapeOutput == o.escapeOutput
    requires Pieces(tmpl, d, o).Ok?
    ensures SameOrLimit(Pieces(tmpl, d, o), Pieces(tmpl, d, o'))
  {
    hide ParseFrom;
    if |tmpl| <= o'.limits.maxInputBytes && |d.start| <= o'.limits.maxDelimiterBytes && |d.stop| <= o'.limits.maxDelimiterBytes {
      ParseSame(tmpl, 0, Initial(d), o, o');
    }
  }
}
