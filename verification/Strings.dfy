/** The string helpers of the tokenizer: trimming, splitting at whitespace, searching, and line positions. */
module Strings {
  import opened Base

  const FORM_FEED: byte := 0x0C
  const VERTICAL_TAB: byte := 0x0B
  const WHITESPACE: Bytes := [SPACE, FORM_FEED, NEWLINE, RETURN, TAB, VERTICAL_TAB]

  // ---- Trimming -----------------------------------------------------------------------------------

  function TrimRight(s: Bytes, chars: Bytes): Bytes {
    if s == [] || s[|s| - 1] !in chars then s else TrimRight(s[..|s| - 1], chars)
  }

  function TrimLeft(s: Bytes, chars: Bytes): Bytes {
    if s == [] || s[0] !in chars then s else TrimLeft(s[1..], chars)
  }

  function Trim(s: Bytes, chars: Bytes): Bytes {
    TrimLeft(TrimRight(s, chars), chars)
  }

  predicate AllIn(s: Bytes, chars: Bytes) {
    forall i :: 0 <= i < |s| ==> s[i] in chars
  }

  lemma {:induction false} TrimRightCut(s: Bytes, chars: Bytes) returns (k: nat)
    ensures k <= |s| && TrimRight(s, chars) == s[..k] && AllIn(s[k..], chars) && (k > 0 ==> s[k - 1] !in chars)
  {
    if s == [] || s[|s| - 1] !in chars {
      k := |s|;
    } else {
      k := TrimRightCut(s[..|s| - 1], chars);
      assert s[..|s| - 1][..k] == s[..k];
      assert s[k..] == s[..|s| - 1][k..] + [s[|s| - 1]];
    }
  }

  lemma {:induction false} TrimLeftCut(s: Bytes, chars: Bytes) returns (k: nat)
    ensures k <= |s| && TrimLeft(s, chars) == s[k..] && AllIn(s[..k], chars) && (k < |s| ==> s[k] !in chars)
  {
    if s == [] || s[0] !in chars {
      k := 0;
      assert s[0..] == s;
    } else {
      var j := TrimLeftCut(s[1..], chars);
      k := j + 1;
      assert s[1..][j..] == s[k..];
      assert s[..k] == [s[0]] + s[1..][..j];
    }
  }

  /** Trimming takes away nothing but the given characters, and all of them, at both ends. */
  lemma {:induction false} TrimCuts(s: Bytes, chars: Bytes) returns (a: nat, b: nat)
    ensures a <= b <= |s| && Trim(s, chars) == s[a..b] && AllIn(s[..a], chars) && AllIn(s[b..], chars)
    ensures a < b ==> s[a] !in chars && s[b - 1] !in chars
  {
    b := TrimRightCut(s, chars);
    a := TrimLeftCut(s[..b], chars);
    assert s[..b][..a] == s[..a] && s[..b][a..] == s[a..b];
    if a < b {
      assert s[..b][a] == s[a];
    }
  }

  // ---- Splitting ----------------------------------------------------------------------------------

  /** The first position at or after `from` whose membership in the set is `wanted`; the end if there is none. */
  function Scan(s: Bytes, chars: Bytes, from: nat, wanted: bool): (k: nat)
    requires from <= |s|
    ensures from <= k <= |s| && (k < |s| ==> (s[k] in chars) == wanted)
    ensures forall i :: from <= i < k ==> (s[i] in chars) != wanted
    decreases |s| - from
  {
    if from == |s| || (s[from] in chars) == wanted then from else Scan(s, chars, from + 1, wanted)
  }

  /** The maximal runs of other characters from `from` on. */
  function Words(s: Bytes, chars: Bytes, from: nat): seq<Bytes>
    requires from <= |s|
    decreases |s| - from
  {
    var first := Scan(s, chars, from, false);
    if first == |s| then []
    else
      var last := Scan(s, chars, first, true);
      [s[first..last]] + Words(s, chars, last)
  }

  /** `stringTok`. */
  method StringTok(s: Bytes, delimiters: Bytes) returns (tokens: seq<Bytes>)
    ensures tokens == Words(s, delimiters, 0)
  {
    hide Scan;
    tokens := [];
    var lastPos := Scan(s, delimiters, 0, false);
    ghost var at := 0;
    while lastPos < |s|
      invariant at <= |s| && lastPos == Scan(s, delimiters, at, false)
      invariant tokens + Words(s, delimiters, at) == Words(s, delimiters, 0)
      decreases |s| - at
    {
      var pos := Scan(s, delimiters, lastPos, true);
      ScanProgress(s, delimiters, lastPos);
      tokens := tokens + [s[lastPos..pos]];
      at := pos;
      lastPos := Scan(s, delimiters, pos, false);
    }
  }

  lemma {:induction false} ScanProgress(s: Bytes, chars: Bytes, from: nat)
    requires from < |s| && s[from] !in chars
    ensures Scan(s, chars, from, true) > from
  {
  }

  function Flatten(words: seq<Bytes>): Bytes {
    if words == [] then [] else words[0] + Flatten(words[1..])
  }

  function Without(s: Bytes, chars: Bytes): Bytes {
    if s == [] then [] else (if s[0] in chars then [] else [s[0]]) + Without(s[1..], chars)
  }

  lemma {:induction false} WithoutConcat(a: Bytes, b: Bytes, chars: Bytes)
    ensures Without(a + b, chars) == Without(a, chars) + Without(b, chars)
  {
    if a == [] {
      assert a + b == b;
    } else {
      assert (a + b)[1..] == a[1..] + b;
      WithoutConcat(a[1..], b, chars);
    }
  }

  lemma {:induction false} WithoutRun(s: Bytes, chars: Bytes, keep: bool)
    requires forall i :: 0 <= i < |s| ==> (s[i] in chars) != keep
    ensures Without(s, chars) == if keep then s else []
  {
    if s != [] {
      WithoutRun(s[1..], chars, keep);
    }
  }

  predicate IsWord(w: Bytes, chars: Bytes) {
    w != [] && forall i :: 0 <= i < |w| ==> w[i] !in chars
  }

  predicate AreWords(words: seq<Bytes>, chars: Bytes) {
    words == [] || (IsWord(words[0], chars) && AreWords(words[1..], chars))
  }

  /** Splitting keeps every character that is no delimiter, in order, in non-empty words without delimiters. */
  lemma {:induction false} WordsConserve(s: Bytes, chars: Bytes, from: nat)
    requires from <= |s|
    ensures Flatten(Words(s, chars, from)) == Without(s[from..], chars)
    ensures AreWords(Words(s, chars, from), chars)
    decreases |s| - from
  {
    hide Scan, Without;
    var first := Scan(s, chars, from, false);
    assert s[from..] == s[from..first] + s[first..];
    WithoutConcat(s[from..first], s[first..], chars);
    WithoutRun(s[from..first], chars, false);
    if first < |s| {
      var last := Scan(s, chars, first, true);
      ScanProgress(s, chars, first);
      assert s[first..] == s[first..last] + s[last..];
      WithoutConcat(s[first..last], s[last..], chars);
      WithoutRun(s[first..last], chars, true);
      WordsConserve(s, chars, last);
      var words := Words(s, chars, last);
      assert ([s[first..last]] + words)[1..] == words;
    } else {
      WithoutRun(s[first..], chars, false);
    }
  }

  // ---- Searching ----------------------------------------------------------------------------------

  predicate MatchesAt(input: Bytes, position: nat, sequence: Bytes) {
    position <= |input| && |sequence| <= |input| - position && input[position..position + |sequence|] == sequence
  }

  /** The first occurrence at or after `from`. */
  function FindAt(input: Bytes, from: nat, sequence: Bytes): (r: Option<nat>)
    requires from <= |input| && sequence != []
    ensures r.Some? ==> from <= r.value && MatchesAt(input, r.value, sequence)
                        && forall i :: from <= i < r.value ==> !MatchesAt(input, i, sequence)
    ensures r.None? ==> forall i :: from <= i <= |input| ==> !MatchesAt(input, i, sequence)
    decreases |input| - from
  {
    if MatchesAt(input, from, sequence) then Some(from)
    else if from == |input| then None
    else FindAt(input, from + 1, sequence)
  }

  // ---- Lines ----------------------------------------------------------------------------------------

  /** Where the line that contains the position starts. */
  function LineStart(input: Bytes, position: nat): (k: nat)
    requires position <= |input|
    ensures k <= position && (k > 0 ==> input[k - 1] == NEWLINE)
    ensures forall i :: k <= i < position ==> input[i] != NEWLINE
  {
    if position == 0 || input[position - 1] == NEWLINE then position else LineStart(input, position - 1)
  }

  predicate PrefixIsIndent(input: Bytes, position: nat)
    requires position <= |input|
  {
    IsIndentation(input[LineStart(input, position)..position])
  }

  /** Where the next line starts, if only spaces and tabs follow on this one. */
  function LineEnd(input: Bytes, tagEnd: nat): (r: Option<nat>)
    requires tagEnd <= |input|
    ensures r.Some? ==> tagEnd <= r.value <= |input|
  {
    var position := Scan(input, [SPACE, TAB], tagEnd, false);
    if position == |input| then Some(position)
    else if input[position] == NEWLINE then Some(position + 1)
    else if input[position] == RETURN && position + 1 < |input| && input[position + 1] == NEWLINE then Some(position + 2)
    else None
  }

  method StandaloneLineEnd(input: Bytes, tagEnd: nat) returns (lineEnd: Option<nat>)
    requires tagEnd <= |input|
    ensures lineEnd == LineEnd(input, tagEnd)
  {
    var position := tagEnd;
    while position < |input| && IsIndentByte(input[position])
      invariant tagEnd <= position <= |input|
      invariant Scan(input, [SPACE, TAB], position, false) == Scan(input, [SPACE, TAB], tagEnd, false)
    {
      position := position + 1;
    }
    if position < |input| {
      if input[position] == NEWLINE {
        position := position + 1;
      } else if input[position] == RETURN && position + 1 < |input| && input[position + 1] == NEWLINE {
        position := position + 2;
      } else {
        return None;
      }
    }
    return Some(position);
  }
}
