/** What indenting the source does to the content of a tag, and to its name. */
module IndentedSource {
  import opened Base
  import opened Template
  import opened RenderTrace
  import opened Strings
  import opened SourceTree
  import opened TokenizerSpec
  import opened TokenizerRoom
  import opened Tiling
  import opened TokenizerTheorems
  import opened TokenizerResults
  import opened Indentation
  import opened IndentedText
  import opened SameMeaning

  // ---- The content of a tag ----------------------------------------------------------------------------

  /** Every newline is followed by the indentation. */
  function Spread(s: Bytes, indentation: Bytes): Bytes {
    if s == [] then [] else [s[0]] + DueText(indentation, s[0] == NEWLINE) + Spread(s[1..], indentation)
  }

  lemma {:induction false} SpreadIs(s: Bytes, indentation: Bytes, start: bool)
    ensures IndentText(s, indentation, start) + DueText(indentation, TextEnd(s, start))
         == DueText(indentation, start) + Spread(s, indentation)
  {
    hide DueText, IndentText, Spread;
    SpreadSteps(s, indentation, start);
    if s == [] {
      assert [] + DueText(indentation, start) == DueText(indentation, start) + [];
    } else {
      SpreadIs(s[1..], indentation, s[0] == NEWLINE);
      var due, byte, rest := DueText(indentation, start), [s[0]], IndentText(s[1..], indentation, s[0] == NEWLINE);
      var end, next := DueText(indentation, TextEnd(s, start)), DueText(indentation, s[0] == NEWLINE);
      Regroup(due, byte, rest, end, next, Spread(s[1..], indentation));
    }
  }

  lemma {:induction false} SpreadSteps(s: Bytes, indentation: Bytes, start: bool)
    ensures s == [] ==> IndentText(s, indentation, start) == [] && Spread(s, indentation) == [] && TextEnd(s, start) == start
    ensures s != [] ==>
              IndentText(s, indentation, start)
              == DueText(indentation, start) + [s[0]] + IndentText(s[1..], indentation, s[0] == NEWLINE)
              && Spread(s, indentation) == [s[0]] + DueText(indentation, s[0] == NEWLINE) + Spread(s[1..], indentation)
              && TextEnd(s, start) == TextEnd(s[1..], s[0] == NEWLINE)
  {
  }

  lemma {:induction false} Regroup(due: Bytes, byte: Bytes, rest: Bytes, end: Bytes, next: Bytes, spread: Bytes)
    requires rest + end == next + spread
    ensures (due + byte + rest) + end == due + (byte + next + spread)
  {
    assert (due + byte + rest) + end == due + byte + (rest + end);
    assert due + byte + (next + spread) == due + (byte + next + spread);
  }

  lemma {:induction false} SpreadConcat(a: Bytes, b: Bytes, indentation: Bytes)
    ensures Spread(a + b, indentation) == Spread(a, indentation) + Spread(b, indentation)
  {
    if a == [] {
      assert a + b == b;
    } else {
      assert (a + b)[0] == a[0] && (a + b)[1..] == a[1..] + b;
      SpreadConcat(a[1..], b, indentation);
      var x, y, z := [a[0]] + DueText(indentation, a[0] == NEWLINE), Spread(a[1..], indentation), Spread(b, indentation);
      assert x + (y + z) == (x + y) + z;
    }
  }

  lemma {:induction false} SpreadBlank(s: Bytes, indentation: Bytes, chars: Bytes)
    requires AllIn(s, chars) && IsIndentation(indentation) && forall b :: b in WHITESPACE ==> b in chars
    ensures AllIn(Spread(s, indentation), chars)
  {
    if s != [] {
      SpreadBlank(s[1..], indentation, chars);
      Blanks();
      assert forall i :: 0 <= i < |indentation| ==> IsIndentByte(indentation[i]);
    }
  }

  lemma {:induction false} SpreadOneLine(s: Bytes, indentation: Bytes)
    requires NEWLINE !in s
    ensures Spread(s, indentation) == s
  {
    if s != [] {
      assert s[0] in s && NEWLINE !in s[1..];
      SpreadOneLine(s[1..], indentation);
      assert [s[0]] + [] + s[1..] == s;
    }
  }

  lemma {:induction false} SpreadEnds(s: Bytes, indentation: Bytes)
    requires s != [] && s[|s| - 1] != NEWLINE
    ensures var r := Spread(s, indentation); |r| >= |s| && r[0] == s[0] && r[|r| - 1] == s[|s| - 1]
  {
    if |s| > 1 {
      SpreadEnds(s[1..], indentation);
    }
  }

  /** Trimming finds the core between the characters that are trimmed. */
  lemma {:induction false} TrimIs(a: Bytes, core: Bytes, c: Bytes, chars: Bytes)
    requires AllIn(a, chars) && AllIn(c, chars) && core != []
    requires core[0] !in chars && core[|core| - 1] !in chars
    ensures Trim(a + core + c, chars) == core
  {
    hide Trim;
    var s := a + core + c;
    var x, y := TrimCuts(s, chars);
    assert forall i :: 0 <= i < |a| ==> s[i] == a[i];
    assert forall i :: |a| + |core| <= i < |s| ==> s[i] == c[i - |a| - |core|];
    assert forall i :: 0 <= i < x ==> s[i] == s[..x][i];
    assert forall i :: y <= i < |s| ==> s[i] == s[y..][i - y];
    assert s[|a|] == core[0] && s[|a| + |core| - 1] == core[|core| - 1];
    assert x == |a| && y == |a| + |core|;
  }

  lemma {:induction false} Blanks()
    ensures NEWLINE in WHITESPACE && SPACE in WHITESPACE && TAB in WHITESPACE && EQUALS !in WHITESPACE
  {
    assert WHITESPACE[2] == NEWLINE && WHITESPACE[0] == SPACE && WHITESPACE[4] == TAB;
  }

  /** Spreading and trimming do not get in each other's way. */
  lemma {:induction false} SpreadTrim(raw: Bytes, indentation: Bytes, chars: Bytes)
    requires IsIndentation(indentation) && forall b :: b in WHITESPACE ==> b in chars
    ensures Trim(Spread(raw, indentation), chars) == Spread(Trim(raw, chars), indentation)
    ensures var core := Trim(raw, chars);
            core != [] ==>
              var wide := Spread(core, indentation);
              wide != [] && core[0] !in chars && wide[0] == core[0] && wide[|wide| - 1] == core[|core| - 1]
  {
    hide Trim, Spread;
    var x, y := TrimCuts(raw, chars);
    var a, core, c := raw[..x], raw[x..y], raw[y..];
    assert raw == a + core + c;
    SpreadConcat(a + core, c, indentation);
    SpreadConcat(a, core, indentation);
    SpreadBlank(a, indentation, chars);
    SpreadBlank(c, indentation, chars);
    Blanks();
    if core != [] {
      SpreadEnds(core, indentation);
      TrimIs(Spread(a, indentation), Spread(core, indentation), Spread(c, indentation), chars);
    } else {
      SpreadNothing(indentation);
      assert raw == a + c && AllIn(raw, chars) by {
        assert forall i :: 0 <= i < |raw| ==> raw[i] == if i < x then a[i] else c[i - x];
      }
      SpreadBlank(raw, indentation, chars);
      TrimAll(Spread(raw, indentation), chars);
    }
  }

  lemma {:induction false} SpreadNothing(indentation: Bytes)
    ensures Spread([], indentation) == []
  {
  }

  lemma {:induction false} TrimAll(s: Bytes, chars: Bytes)
    requires AllIn(s, chars)
    ensures Trim(s, chars) == []
  {
    hide Trim;
    var x, y := TrimCuts(s, chars);
  }

  // ---- Words ------------------------------------------------------------------------------------------------

  lemma {:induction false} ScanShift(x: Bytes, y: Bytes, chars: Bytes, k: nat, wanted: bool)
    requires k <= |y|
    ensures Scan(x + y, chars, |x| + k, wanted) == |x| + Scan(y, chars, k, wanted)
    decreases |y| - k
  {
    if k < |y| {
      assert (x + y)[|x| + k] == y[k];
      if (y[k] in chars) != wanted {
        ScanShift(x, y, chars, k + 1, wanted);
      }
    }
  }

  lemma {:induction false} WordsShift(x: Bytes, y: Bytes, chars: Bytes, k: nat)
    requires k <= |y|
    ensures Words(x + y, chars, |x| + k) == Words(y, chars, k)
    decreases |y| - k
  {
    hide Scan;
    var first := Scan(y, chars, k, false);
    ScanShift(x, y, chars, k, false);
    if first < |y| {
      var last := Scan(y, chars, first, true);
      ScanShift(x, y, chars, first, true);
      ScanProgress(y, chars, first);
      WordsShift(x, y, chars, last);
      assert (x + y)[|x| + first..|x| + last] == y[first..last];
    }
  }

  lemma {:induction false} ScanWithin(x: Bytes, y: Bytes, chars: Bytes, k: nat, wanted: bool)
    requires k <= |x|
    ensures Scan(x, chars, k, wanted) < |x| ==> Scan(x + y, chars, k, wanted) == Scan(x, chars, k, wanted)
    ensures Scan(x, chars, k, wanted) == |x| ==> Scan(x + y, chars, k, wanted) == Scan(x + y, chars, |x|, wanted)
    decreases |x| - k
  {
    if k < |x| {
      assert (x + y)[k] == x[k];
      if (x[k] in chars) != wanted {
        ScanWithin(x, y, chars, k + 1, wanted);
      }
    }
  }

  lemma {:induction false} WordsStep(s: Bytes, chars: Bytes, k: nat)
    requires k <= |s|
    ensures var first := Scan(s, chars, k, false);
            Words(s, chars, k) == if first == |s| then []
                                  else
                                    var last := Scan(s, chars, first, true);
                                    [s[first..last]] + Words(s, chars, last)
  {
    hide Scan;
  }

  /** Behind white space the words start anew. */
  lemma {:induction false} WordsConcat(x: Bytes, y: Bytes, chars: Bytes, k: nat)
    requires k <= |x| && (x != [] ==> x[|x| - 1] in chars)
    ensures Words(x + y, chars, k) == Words(x, chars, k) + Words(y, chars, 0)
    decreases |x| - k
  {
    hide Scan, Words;
    var first := Scan(x, chars, k, false);
    ScanWithin(x, y, chars, k, false);
    WordsStep(x, chars, k);
    WordsStep(x + y, chars, k);
    if first < |x| {
      var last := Scan(x, chars, first, true);
      ScanProgress(x, chars, first);
      ScanWithin(x, y, chars, first, true);
      EndsBlank(x, chars, first);
      WordsConcat(x, y, chars, last);
      SliceOfFirst(x, y, first, last);
      Associate([x[first..last]], Words(x, chars, last), Words(y, chars, 0));
    } else {
      WordsShift(x, y, chars, 0);
      WordsStep(x + y, chars, |x|);
      assert [] + Words(y, chars, 0) == Words(y, chars, 0);
    }
  }

  lemma {:induction false} SliceOfFirst(x: Bytes, y: Bytes, a: nat, b: nat)
    requires a <= b <= |x|
    ensures (x + y)[a..b] == x[a..b]
  {
  }

  lemma {:induction false} Associate(a: seq<Bytes>, b: seq<Bytes>, c: seq<Bytes>)
    ensures a + (b + c) == (a + b) + c
  {
  }

  lemma {:induction false} EndsBlank(x: Bytes, chars: Bytes, k: nat)
    requires k < |x| && x[|x| - 1] in chars
    ensures Scan(x, chars, k, true) < |x|
  {
    hide Scan;
  }

  lemma {:induction false} NoWords(s: Bytes, chars: Bytes)
    requires AllIn(s, chars)
    ensures Words(s, chars, 0) == []
  {
    hide Scan;
    var first := Scan(s, chars, 0, false);
  }

  /** Indentation behind line breaks separates no words that are not separated already. */
  lemma {:induction false} SpreadWords(s: Bytes, indentation: Bytes, k: nat)
    requires IsIndentation(indentation) && k <= |s| && forall i :: 0 <= i < k ==> s[i] != NEWLINE
    ensures Words(Spread(s, indentation), WHITESPACE, 0) == Words(s, WHITESPACE, 0)
    decreases |s|, |s| - k
  {
    hide Words, Spread, DueText;
    if k == |s| {
      SpreadOneLine(s, indentation);
    } else if s[k] != NEWLINE {
      SpreadWords(s, indentation, k + 1);
    } else {
      var head, line, rest := s[..k], s[..k + 1], s[k + 1..];
      assert s == line + rest && line == head + [NEWLINE];
      SpreadConcat(line, rest, indentation);
      SpreadConcat(head, [NEWLINE], indentation);
      SpreadOneLine(head, indentation);
      SpreadBreak(indentation);
      var wide := Spread(rest, indentation);
      assert Spread(s, indentation) == line + (indentation + wide);
      SpreadWords(rest, indentation, 0);
      Blanks();
      WordsConcat(line, rest, WHITESPACE, 0);
      WordsConcat(line, indentation + wide, WHITESPACE, 0);
      IndentationBlank(indentation);
      WordsConcat(indentation, wide, WHITESPACE, 0);
      NoWords(indentation, WHITESPACE);
      assert [] + Words(wide, WHITESPACE, 0) == Words(wide, WHITESPACE, 0);
    }
  }

  lemma {:induction false} SpreadBreak(indentation: Bytes)
    ensures Spread([NEWLINE], indentation) == [NEWLINE] + indentation
  {
    assert Spread([NEWLINE][1..], indentation) == [];
    assert [NEWLINE] + indentation + [] == [NEWLINE] + indentation;
  }

  lemma {:induction false} IndentationBlank(indentation: Bytes)
    requires IsIndentation(indentation)
    ensures AllIn(indentation, WHITESPACE)
  {
    Blanks();
    assert forall i :: 0 <= i < |indentation| ==> IsIndentByte(indentation[i]);
  }

  // ---- The meaning of a tag ---------------------------------------------------------------------------------

  /** The same tag, with the indentation in its name. */
  function SpreadHead(head: Head, indentation: Bytes): Head {
    head.(name := Spread(head.name, indentation))
  }

  /** The content of an indented tag says the same, unless its delimiters are too long for the limits. */
  lemma {:induction false} ClassifySpread(raw: Bytes, triple: bool, indentation: Bytes, escapeByDefault: bool, m: nat, m': nat)
    requires IsIndentation(indentation) && Classify(raw, triple, escapeByDefault, m).Ok?
    ensures var r, s := Classify(raw, triple, escapeByDefault, m), Classify(Spread(raw, indentation), triple, escapeByDefault, m');
            s == Ok(SpreadHead(r.value, indentation)) || (s.Err? && Limit(s.error))
  {
    hide Trim, Spread, EscapeFlag, Words;
    SpreadTrim(raw, indentation, WHITESPACE);
    var text := Trim(raw, WHITESPACE);
    if text[0] == EQUALS {
      ChangeSpread(text, indentation, m, m');
    } else {
      SpreadRest(text, indentation);
      SpreadTrim(text[1..], indentation, WHITESPACE);
    }
  }

  lemma {:induction false} SpreadRest(text: Bytes, indentation: Bytes)
    requires text != [] && text[0] !in WHITESPACE
    ensures Spread(text, indentation)[1..] == Spread(text[1..], indentation)
  {
    Blanks();
    assert Spread(text, indentation) == [text[0]] + [] + Spread(text[1..], indentation);
  }

  lemma {:induction false} ChangeSpread(text: Bytes, indentation: Bytes, m: nat, m': nat)
    requires IsIndentation(indentation) && text != [] && ChangeOf(text, m).Ok?
    requires var wide := Spread(text, indentation); wide != [] && wide[|wide| - 1] == text[|text| - 1]
    ensures var r, s := ChangeOf(text, m), ChangeOf(Spread(text, indentation), m');
            s == Ok(SpreadHead(r.value, indentation)) || (s.Err? && Limit(s.error))
  {
    hide Trim, Spread, Words;
    var chars := WHITESPACE + [EQUALS];
    SpreadTrim(text, indentation, chars);
    SpreadWords(Trim(text, chars), indentation, 0);
    SpreadNothing(indentation);
  }

  // ---- Nodes ----------------------------------------------------------------------------------------------

  /** The tree as it is spelled in the indented source: with the indentation behind line breaks in names. */
  function Respell(n: Node, indentation: Bytes): Node {
    match n
    case Null => Null
    case Node(kind, _, data, children, _, _, _, _) =>
      if kind.TypeOutput? || kind.TypeComment? then n
      else n.(data := if data.Some? then Some(Spread(data.value, indentation)) else None,
              children := RespellAll(children, indentation))
  }

  function RespellAll(ns: seq<Node>, indentation: Bytes): seq<Node> {
    if ns == [] then [] else [Respell(ns[0], indentation)] + RespellAll(ns[1..], indentation)
  }

  lemma {:induction false} RespellConcat(a: seq<Node>, b: seq<Node>, indentation: Bytes)
    ensures RespellAll(a + b, indentation) == RespellAll(a, indentation) + RespellAll(b, indentation)
  {
    hide Respell;
    if a == [] {
      assert a + b == b;
    } else {
      assert (a + b)[0] == a[0] && (a + b)[1..] == a[1..] + b;
      RespellConcat(a[1..], b, indentation);
    }
  }

  lemma {:induction false} RespellOne(n: Node, indentation: Bytes)
    ensures RespellAll([n], indentation) == [Respell(n, indentation)] && RespellAll([], indentation) == []
  {
    hide Respell;
    assert [n][1..] == [];
  }

  /** No name has a line break in it; comments may. */
  predicate OneLineNames(n: Node) {
    match n
    case Null => true
    case Node(kind, _, data, children, _, _, _, _) =>
      kind.TypeOutput? || kind.TypeComment?
      || ((data.Some? ==> NEWLINE !in data.value) && AllOneLineNames(children))
  }

  predicate AllOneLineNames(ns: seq<Node>) {
    ns == [] || (OneLineNames(ns[0]) && AllOneLineNames(ns[1..]))
  }

  lemma {:induction false} RespellSame(n: Node, indentation: Bytes)
    requires OneLineNames(n)
    ensures Respell(n, indentation) == n
  {
    if n.Node? && !n.kind.TypeOutput? && !n.kind.TypeComment? {
      RespellAllSame(n.children, indentation);
      if n.data.Some? {
        SpreadOneLine(n.data.value, indentation);
      }
    }
  }

  lemma {:induction false} RespellAllSame(ns: seq<Node>, indentation: Bytes)
    requires AllOneLineNames(ns)
    ensures RespellAll(ns, indentation) == ns
  {
    if ns != [] {
      RespellSame(ns[0], indentation);
      RespellAllSame(ns[1..], indentation);
    }
  }

  lemma {:induction false} RespellAt(ns: seq<Node>, indentation: Bytes)
    ensures |RespellAll(ns, indentation)| == |ns|
    ensures forall i :: 0 <= i < |ns| ==> RespellAll(ns, indentation)[i] == Respell(ns[i], indentation)
  {
    hide Respell;
    if ns != [] {
      RespellAt(ns[1..], indentation);
    }
  }

  /** The marker flags are as before. */
  lemma {:induction false} RespellPlaced(ns: seq<Node>, indentation: Bytes)
    requires MarkersPlaced(ns)
    ensures MarkersPlaced(RespellAll(ns, indentation))
  {
    hide Bit, Spread, RespellAll;
    RespellAt(ns, indentation);
    var ms := RespellAll(ns, indentation);
    forall i | 0 <= i < |ms| && ms[i].Node? && Bit(ms[i].flags, FLAG_PARTIAL_INDENT)
      ensures IsMarker(ms[i]) && i + 1 < |ms| && ms[i + 1].Node? && ms[i + 1].kind.TypePartial?
    {
      assert ms[i] == Respell(ns[i], indentation);
      assert IsMarker(ns[i]) && ns[i + 1].Node?;
      assert ms[i + 1] == Respell(ns[i + 1], indentation);
    }
  }

  /** The line state is as before. */
  lemma {:induction false} AfterRespelled(n: Node, indentation: Bytes, meta: bool, start: bool)
    ensures After(Respell(n, indentation), meta, start) == After(n, meta, start)
    decreases n, 1
  {
    hide AfterAll, Spread, Bit;
    if n.Node? && n.kind.TypeRoot? {
      AfterAllRespelled(n.children, indentation, start);
    }
  }

  lemma {:induction false} AfterAllRespelled(ns: seq<Node>, indentation: Bytes, start: bool)
    ensures AfterAll(RespellAll(ns, indentation), start) == AfterAll(ns, start)
    decreases ns, 0
  {
    hide Respell, After, PartialIndentation;
    if ns != [] {
      var ms := RespellAll(ns, indentation);
      assert ms[0] == Respell(ns[0], indentation) && ms[1..] == RespellAll(ns[1..], indentation);
      AfterRespelled(ns[0], indentation, false, start);
      RespellAt(ns, indentation);
      MarkerRespelled(ns[0], if |ns| > 1 then ns[1] else Null, indentation);
      AfterAllRespelled(ns[1..], indentation, After(ns[0], false, start));
      if |ns| > 1 {
        assert ns[1..][1..] == ns[2..] && ms[1..][1..] == ms[2..];
        AfterAllRespelled(ns[2..], indentation, false);
      }
    }
  }

  lemma {:induction false} MarkerRespelled(n: Node, next: Node, indentation: Bytes)
    ensures PartialIndentation(Respell(n, indentation), Respell(next, indentation)) == PartialIndentation(n, next)
  {
    hide Bit, Spread;
  }

  /** The indentation as a literal, if it is due. */
  function Owed(indentation: Bytes, due: bool): seq<Node> {
    if due then [Indentation.Literal(indentation)] else []
  }

  lemma {:induction false} OwedPlaced(indentation: Bytes, due: bool)
    ensures MarkersPlaced(Owed(indentation, due))
  {
  }

  lemma {:induction false} EraseConcat(a: seq<Item>, b: seq<Item>, tmpl: Bytes, buffer: nat)
    requires AllPlaced(a, tmpl) && AllPlaced(b, tmpl)
    ensures AllPlaced(a + b, tmpl)
    ensures EraseAll(a + b, tmpl, buffer) == EraseAll(a, tmpl, buffer) + EraseAll(b, tmpl, buffer)
  {
    hide Placed, Erase;
    if a == [] {
      assert a + b == b;
    } else {
      assert (a + b)[0] == a[0] && (a + b)[1..] == a[1..] + b;
      EraseConcat(a[1..], b, tmpl, buffer);
    }
  }

  lemma {:induction false} IndentAllConcat(a: seq<Node>, b: seq<Node>, indentation: Bytes, start: bool)
    requires MarkersPlaced(a)
    ensures IndentAll(a + b, indentation, start)
         == IndentAll(a, indentation, start) + IndentAll(b, indentation, AfterAll(a, start))
    ensures AfterAll(a + b, start) == AfterAll(b, AfterAll(a, start))
    decreases |a|
  {
    hide PartialIndentation, Indent, After, Indentation.Before, IsMarker, Bit, MarkersPlaced, IndentAll, AfterAll;
    if a == [] {
      assert a + b == b;
      NothingIndented(indentation, start);
      assert IndentAll([], indentation, start) + IndentAll(b, indentation, start) == IndentAll(b, indentation, start);
      return;
    }
    var all := a + b;
    PlacedHead(a, b);
    assert all[0] == a[0];
    var marker := PartialIndentation(a[0], if |a| > 1 then a[1] else Null);
    IndentAllStep(a, indentation, start);
    IndentAllStep(all, indentation, start);
    var first, rest: seq<Node>, state;
    if marker.value.Some? {
      assert all[1] == a[1] && all[2..] == a[2..] + b;
      PlacedTail(a, 2);
      first, rest, state := [a[0].(data := Some(indentation + marker.value.value)), a[1]], a[2..], false;
    } else {
      assert all[1..] == a[1..] + b;
      PlacedTail(a, 1);
      first, rest, state := Indentation.Before(a[0], indentation, start) + [Indent(a[0], indentation, start)], a[1..],
                            After(a[0], false, start);
    }
    IndentAllConcat(rest, b, indentation, state);
    var x, y := IndentAll(rest, indentation, state), IndentAll(b, indentation, AfterAll(a, start));
    assert first + (x + y) == (first + x) + y;
  }

  /** Markers stay markers. */
  lemma {:induction false} IndentAllPlaced(a: seq<Node>, indentation: Bytes, start: bool)
    requires MarkersPlaced(a) && IsIndentation(indentation)
    ensures MarkersPlaced(IndentAll(a, indentation, start))
    decreases |a|
  {
    hide PartialIndentation, Indent, After, Indentation.Before, IsMarker, Bit, MarkersPlaced, IndentAll;
    if a == [] {
      NothingIndented(indentation, start);
      return;
    }
    assert a + [] == a;
    PlacedHead(a, []);
    var marker := PartialIndentation(a[0], if |a| > 1 then a[1] else Null);
    IndentAllStep(a, indentation, start);
    if marker.value.Some? {
      PartialUnmarked(a);
      PlacedTail(a, 2);
      IndentAllPlaced(a[2..], indentation, false);
      PairPlaced(a[0], a[1], indentation);
      PlacedConcat([a[0].(data := Some(indentation + marker.value.value)), a[1]], IndentAll(a[2..], indentation, false));
    } else {
      PlacedTail(a, 1);
      IndentAllPlaced(a[1..], indentation, After(a[0], false, start));
      OrdinaryPlaced(a[0], indentation, start);
      PlacedConcat(Indentation.Before(a[0], indentation, start) + [Indent(a[0], indentation, start)],
                   IndentAll(a[1..], indentation, After(a[0], false, start)));
    }
  }

  lemma {:induction false} NothingIndented(indentation: Bytes, start: bool)
    ensures IndentAll([], indentation, start) == [] && AfterAll([], start) == start && MarkersPlaced([])
  {
  }

  lemma {:induction false} IndentAllStep(a: seq<Node>, indentation: Bytes, start: bool)
    requires a != []
    ensures var marker := PartialIndentation(a[0], if |a| > 1 then a[1] else Null);
            marker.Ok? ==>
              IndentAll(a, indentation, start)
              == if marker.value.Some? && |a| > 1 then
                   [a[0].(data := Some(indentation + marker.value.value)), a[1]] + IndentAll(a[2..], indentation, false)
                 else
                   Indentation.Before(a[0], indentation, start) + [Indent(a[0], indentation, start)]
                   + IndentAll(a[1..], indentation, After(a[0], false, start))
    ensures var marker := PartialIndentation(a[0], if |a| > 1 then a[1] else Null);
            marker.Ok? ==> AfterAll(a, start) == if marker.value.Some? && |a| > 1 then AfterAll(a[2..], false)
                                                 else AfterAll(a[1..], After(a[0], false, start))
  {
    hide PartialIndentation, Indent, After, Indentation.Before, IsMarker, Bit;
  }

  /** The partial behind a marker is none itself. */
  lemma {:induction false} PartialUnmarked(a: seq<Node>)
    requires MarkersPlaced(a) && |a| > 1 && PartialIndentation(a[0], a[1]).Ok? && PartialIndentation(a[0], a[1]).value.Some?
    ensures a[1].Node? && a[1].kind.TypePartial? && !Bit(a[1].flags, FLAG_PARTIAL_INDENT)
  {
  }

  lemma {:induction false} PairPlaced(n: Node, partial: Node, indentation: Bytes)
    requires PartialIndentation(n, partial).Ok? && PartialIndentation(n, partial).value.Some? && IsIndentation(indentation)
    requires partial.Node? && !Bit(partial.flags, FLAG_PARTIAL_INDENT)
    ensures n.Node? && MarkersPlaced([n.(data := Some(indentation + PartialIndentation(n, partial).value.value)), partial])
  {
    SameIndentation(indentation, n.data.value);
  }

  lemma {:induction false} OrdinaryPlaced(n: Node, indentation: Bytes, start: bool)
    requires n.Null? || !Bit(n.flags, FLAG_PARTIAL_INDENT)
    ensures MarkersPlaced(Indentation.Before(n, indentation, start) + [Indent(n, indentation, start)])
  {
    hide IndentAll, IndentText, Objection;
  }
}
