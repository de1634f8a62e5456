/** Where everything in a text is once its lines are indented. */
module IndentedText {
  import opened Base
  import opened Strings
  import opened Indentation

  /** The text with the indentation before each of its lines. */
  function Indented(t: Bytes, indentation: Bytes): Bytes {
    IndentText(t, indentation, true)
  }

  /** A line of the text starts here. */
  predicate AtStart(t: Bytes, k: nat)
    requires k <= |t|
  {
    k == 0 || t[k - 1] == NEWLINE
  }

  /** How much of the indented text the first k bytes take. */
  function Pos(t: Bytes, indentation: Bytes, k: nat): nat
    requires k <= |t|
  {
    |IndentText(t[..k], indentation, true)|
  }

  /** Where byte k of the text is: behind the indentation if it starts a line. */
  function Place(t: Bytes, indentation: Bytes, k: nat): nat
    requires k < |t|
  {
    Pos(t, indentation, k) + |DueText(indentation, AtStart(t, k))|
  }

  lemma {:induction false} IndentConcat(a: Bytes, b: Bytes, indentation: Bytes, start: bool)
    ensures IndentText(a + b, indentation, start)
         == IndentText(a, indentation, start) + IndentText(b, indentation, TextEnd(a, start))
  {
    if a == [] {
      assert a + b == b;
    } else {
      assert (a + b)[0] == a[0] && (a + b)[1..] == a[1..] + b;
      IndentConcat(a[1..], b, indentation, a[0] == NEWLINE);
      assert TextEnd(a[1..], a[0] == NEWLINE) == TextEnd(a, start);
      var x, y, z := DueText(indentation, start) + [a[0]], IndentText(a[1..], indentation, a[0] == NEWLINE),
                     IndentText(b, indentation, TextEnd(a, start));
      assert x + (y + z) == (x + y) + z;
    }
  }

  lemma {:induction false} EndOfPrefix(t: Bytes, k: nat)
    requires k <= |t|
    ensures TextEnd(t[..k], true) == AtStart(t, k)
  {
  }

  /** A stretch of the text, in the indented text. */
  lemma {:induction false} Stretch(t: Bytes, indentation: Bytes, a: nat, b: nat)
    requires a <= b <= |t|
    ensures Pos(t, indentation, a) <= Pos(t, indentation, b) <= |Indented(t, indentation)|
    ensures Indented(t, indentation)[Pos(t, indentation, a)..Pos(t, indentation, b)]
         == IndentText(t[a..b], indentation, AtStart(t, a))
    ensures Pos(t, indentation, b) == Pos(t, indentation, a) + |IndentText(t[a..b], indentation, AtStart(t, a))|
  {
    EndOfPrefix(t, a);
    EndOfPrefix(t, b);
    assert t[..b] == t[..a] + t[a..b];
    assert t == t[..b] + t[b..];
    IndentConcat(t[..a], t[a..b], indentation, true);
    IndentConcat(t[..b], t[b..], indentation, true);
    var x, y, z := IndentText(t[..a], indentation, true), IndentText(t[a..b], indentation, AtStart(t, a)),
                   IndentText(t[b..], indentation, AtStart(t, b));
    assert Indented(t, indentation) == (x + y) + z;
    assert ((x + y) + z)[|x|..|x + y|] == y;
  }

  lemma {:induction false} Ends(t: Bytes, indentation: Bytes)
    ensures Pos(t, indentation, 0) == 0 && Pos(t, indentation, |t|) == |Indented(t, indentation)|
  {
    assert t[..|t|] == t && t[..0] == [];
  }

  /** One byte, with the indentation that is due before it. */
  lemma {:induction false} OneByte(t: Bytes, indentation: Bytes, k: nat)
    requires k < |t|
    ensures var p, q, u := Pos(t, indentation, k), Place(t, indentation, k), Indented(t, indentation);
            q + 1 == Pos(t, indentation, k + 1) <= |u| && u[q] == t[k] && u[p..q] == DueText(indentation, AtStart(t, k))
  {
    Stretch(t, indentation, k, k + 1);
    var one, due, u, p := t[k..k + 1], DueText(indentation, AtStart(t, k)), Indented(t, indentation), Pos(t, indentation, k);
    assert one == [t[k]] && one[1..] == [];
    assert IndentText([], indentation, one[0] == NEWLINE) == [];
    assert IndentText(one, indentation, AtStart(t, k)) == due + [t[k]] + [] == due + [t[k]];
    var w := u[p..Pos(t, indentation, k + 1)];
    assert w[|due|] == t[k] && w[..|due|] == due;
    assert u[p..p + |due|] == w[..|due|];
  }

  lemma {:induction false} PosMonotone(t: Bytes, indentation: Bytes, a: nat, b: nat)
    requires a < b <= |t|
    ensures Pos(t, indentation, a) <= Place(t, indentation, a) < Pos(t, indentation, b)
  {
    OneByte(t, indentation, a);
    Stretch(t, indentation, a + 1, b);
  }

  /** Bytes in the middle of a line stay together. */
  lemma {:induction false} InLine(t: Bytes, indentation: Bytes, k: nat, n: nat)
    requires k < |t| && k + n <= |t| && forall i :: k <= i < k + n ==> t[i] != NEWLINE
    ensures n > 0 ==> Pos(t, indentation, k + n) == Place(t, indentation, k) + n
    ensures k + n < |t| ==> Place(t, indentation, k + n) == Place(t, indentation, k) + n
    ensures forall i :: k <= i < k + n ==>
              Place(t, indentation, i) == Place(t, indentation, k) + (i - k)
  {
    if n > 0 {
      InLine(t, indentation, k, n - 1);
      OneByte(t, indentation, k + n - 1);
    }
  }

  /** Every byte that is no indentation comes from the text. */
  lemma {:induction false} Origin(t: Bytes, indentation: Bytes, y: nat, n: nat) returns (k: nat)
    requires IsIndentation(indentation) && n <= |t| && y < Pos(t, indentation, n)
    requires Pos(t, indentation, n) <= |Indented(t, indentation)| && !IsIndentByte(Indented(t, indentation)[y])
    ensures k < n && y == Place(t, indentation, k)
  {
    Ends(t, indentation);
    OneByte(t, indentation, n - 1);
    var p, q, u := Pos(t, indentation, n - 1), Place(t, indentation, n - 1), Indented(t, indentation);
    assert forall i :: p <= i < q ==> u[i] == u[p..q][i - p];
    if y < p {
      k := Origin(t, indentation, y, n - 1);
    } else {
      k := n - 1;
    }
  }

  // ---- Searching ------------------------------------------------------------------------------------------

  /** A delimiter that indentation can neither split nor begin. */
  predicate Steady(w: Bytes) {
    w != [] && !IsIndentByte(w[0]) && NEWLINE !in w
  }

  lemma {:induction false} WordsSteady(w: Bytes)
    requires IsWord(w, WHITESPACE)
    ensures Steady(w)
  {
    assert WHITESPACE[2] == NEWLINE && WHITESPACE[0] == SPACE && WHITESPACE[4] == TAB;
  }

  lemma {:induction false} WordMoves(t: Bytes, indentation: Bytes, k: nat, w: Bytes)
    requires k < |t| && MatchesAt(t, k, w) && Steady(w)
    ensures MatchesAt(Indented(t, indentation), Place(t, indentation, k), w)
    ensures Place(t, indentation, k) + |w| == Pos(t, indentation, k + |w|)
  {
    hide Pos, Place, IndentText, DueText;
    forall i | k <= i < k + |w|
      ensures t[i] == w[i - k]
    {
      assert t[i] == t[k..k + |w|][i - k];
    }
    InLine(t, indentation, k, |w|);
    var u, q := Indented(t, indentation), Place(t, indentation, k);
    Stretch(t, indentation, k + |w|, |t|);
    Ends(t, indentation);
    forall i | 0 <= i < |w|
      ensures u[q + i] == w[i]
    {
      OneByte(t, indentation, k + i);
    }
    assert u[q..q + |w|] == w;
  }

  /** A word that is found in the indented text is found in the text. */
  lemma {:induction false} WordOrigin(t: Bytes, indentation: Bytes, y: nat, w: Bytes) returns (k: nat)
    requires IsIndentation(indentation) && Steady(w) && MatchesAt(Indented(t, indentation), y, w)
    ensures k < |t| && y == Place(t, indentation, k) && MatchesAt(t, k, w)
  {
    Ends(t, indentation);
    var u := Indented(t, indentation);
    assert u[y..y + |w|][0] == u[y];
    k := Origin(t, indentation, y, |t|);
    WordFollows(t, indentation, k, w, |w|);
    assert t[k..k + |w|] == w;
  }

  lemma {:induction false} WordFollows(t: Bytes, indentation: Bytes, k: nat, w: Bytes, n: nat)
    requires IsIndentation(indentation) && Steady(w) && k < |t| && n <= |w|
    requires MatchesAt(Indented(t, indentation), Place(t, indentation, k), w)
    ensures k + n <= |t| && t[k..k + n] == w[..n]
  {
    hide Pos, Place, IndentText, DueText;
    if n > 0 {
      WordFollows(t, indentation, k, w, n - 1);
        var u, q := Indented(t, indentation), Place(t, indentation, k);
      forall i | k <= i < k + n - 1
        ensures t[i] != NEWLINE
      {
        assert t[i] == t[k..k + n - 1][i - k] == w[i - k];
      }
      assert u[q..q + |w|][n - 1] == u[q + n - 1];
      Ends(t, indentation);
      InLine(t, indentation, k, n - 1);
      if k + n - 1 < |t| {
        OneByte(t, indentation, k + n - 1);
      }
      assert t[k..k + n] == t[k..k + n - 1] + [t[k + n - 1]];
    }
  }

  /** The search for a word from corresponding positions. */
  lemma {:induction false} FindMoves(t: Bytes, indentation: Bytes, from: nat, w: Bytes)
    requires IsIndentation(indentation) && Steady(w) && from <= |t|
    ensures Pos(t, indentation, from) <= |Indented(t, indentation)|
    ensures var r, s := FindAt(t, from, w), FindAt(Indented(t, indentation), Pos(t, indentation, from), w);
            if r.Some? then r.value < |t| && s == Some(Place(t, indentation, r.value)) else s.None?
  {
    hide FindAt, MatchesAt, Place, Pos, IndentText;
    Stretch(t, indentation, from, |t|);
    Ends(t, indentation);
    var u, p := Indented(t, indentation), Pos(t, indentation, from);
    var r, s := FindAt(t, from, w), FindAt(u, p, w);
    if s.Some? {
      var k := WordOrigin(t, indentation, s.value, w);
      if k < from {
        PosMonotone(t, indentation, k, from);
      }
      assert r.Some? && r.value <= k;
    }
    if r.Some? {
      MatchInside(t, r.value, w);
      WordMoves(t, indentation, r.value, w);
      OneByte(t, indentation, r.value);
      var q := Place(t, indentation, r.value);
      PosBefore(t, indentation, from, r.value);
      assert p <= q && MatchesAt(u, q, w);
      assert s.Some? && s.value <= q;
      var k := WordOrigin(t, indentation, s.value, w);
      if k < from {
        PosMonotone(t, indentation, k, from);
      }
      if r.value < k {
        PosMonotone(t, indentation, r.value, k);
      }
      SamePlace(t, indentation, k, r.value);
    }
  }

  lemma {:induction false} PosBefore(t: Bytes, indentation: Bytes, from: nat, k: nat)
    requires from <= k < |t|
    ensures Pos(t, indentation, from) <= Place(t, indentation, k)
  {
    hide Pos;
    Stretch(t, indentation, from, k);
  }

  lemma {:induction false} MatchInside(t: Bytes, k: nat, w: Bytes)
    requires MatchesAt(t, k, w) && w != []
    ensures k < |t|
  {
  }

  lemma {:induction false} SamePlace(t: Bytes, indentation: Bytes, a: nat, b: nat)
    requires a < |t| && b < |t| && b <= a && Place(t, indentation, a) <= Place(t, indentation, b)
    ensures a == b
  {
    if b < a {
      PosMonotone(t, indentation, b, a);
    }
  }

  // ---- Lines ------------------------------------------------------------------------------------------------

  lemma {:induction false} LineIs(t: Bytes, position: nat, k: nat)
    requires k <= position <= |t| && AtStart(t, k) && forall i :: k <= i < position ==> t[i] != NEWLINE
    ensures LineStart(t, position) == k
  {
    hide LineStart;
    var l := LineStart(t, position);
  }

  /** What is before a byte on its line. */
  lemma {:induction false} LinePrefix(t: Bytes, indentation: Bytes, l: nat, k: nat)
    requires l <= k < |t| && AtStart(t, l) && forall i :: l <= i < k ==> t[i] != NEWLINE
    ensures var u, p, q := Indented(t, indentation), Pos(t, indentation, l), Place(t, indentation, k);
            p <= q < |u| && u[p..q] == indentation + t[l..k]
  {
    hide IndentText;
    Stretch(t, indentation, l, k);
    OneByte(t, indentation, k);
    var u, p, m, q := Indented(t, indentation), Pos(t, indentation, l), Pos(t, indentation, k), Place(t, indentation, k);
    assert u[p..q] == u[p..m] + u[m..q];
    var line := t[l..k];
    if l < k {
      IndentLine(line, |line|, indentation, true);
      assert line[|line|..] == [] && line[..|line|] == line && t[k - 1] != NEWLINE;
      NoText(indentation, line[|line| - 1] == NEWLINE);
      assert u[p..m] == indentation + line + [] == indentation + line;
    } else {
      NoText(indentation, true);
      assert line == [] && u[p..m] == [] && [] + indentation == indentation + line;
    }
  }

  /** The line of a byte. */
  lemma {:induction false} LineMoves(t: Bytes, indentation: Bytes, k: nat)
    requires k < |t| && IsIndentation(indentation)
    ensures var l, u, q := LineStart(t, k), Indented(t, indentation), Place(t, indentation, k);
            && AtStart(t, l) && q < |u| && LineStart(u, q) == Pos(t, indentation, l)
            && u[Pos(t, indentation, l)..q] == indentation + t[l..k]
            && (PrefixIsIndent(u, q) <==> PrefixIsIndent(t, k))
  {
    hide LineStart, IndentText;
    var l, u, q := LineStart(t, k), Indented(t, indentation), Place(t, indentation, k);
    var p := Pos(t, indentation, l);
    LinePrefix(t, indentation, l, k);
    var prefix := indentation + t[l..k];
    NoNewline(indentation, t[l..k]);
    forall i | p <= i < q
      ensures u[i] != NEWLINE
    {
      assert u[i] == u[p..q][i - p];
    }
    BeforeStart(t, indentation, l);
    LineIs(u, q, p);
    SameIndentation(indentation, t[l..k]);
  }

  lemma {:induction false} NoNewline(a: Bytes, b: Bytes)
    requires IsIndentation(a) && NEWLINE !in b
    ensures NEWLINE !in a + b
  {
    forall i | 0 <= i < |a + b|
      ensures (a + b)[i] != NEWLINE
    {
      if i < |a| {
        assert IsIndentByte(a[i]);
      } else {
        assert (a + b)[i] == b[i - |a|];
      }
    }
  }

  lemma {:induction false} SameIndentation(a: Bytes, b: Bytes)
    requires IsIndentation(a)
    ensures IsIndentation(a + b) <==> IsIndentation(b)
  {
    if IsIndentation(a + b) {
      forall i | 0 <= i < |b|
        ensures IsIndentByte(b[i])
      {
        assert b[i] == (a + b)[|a| + i];
      }
    }
  }

  /** What starts a line in the text starts one in the indented text, its indentation included. */
  lemma {:induction false} BeforeStart(t: Bytes, indentation: Bytes, l: nat)
    requires l <= |t| && AtStart(t, l)
    ensures Pos(t, indentation, l) <= |Indented(t, indentation)| && AtStart(Indented(t, indentation), Pos(t, indentation, l))
  {
    Stretch(t, indentation, l, |t|);
    Ends(t, indentation);
    if l > 0 {
      OneByte(t, indentation, l - 1);
    }
  }

  /** In the middle of a line, the spaces and tabs that follow. */
  lemma {:induction false} BlanksMove(t: Bytes, indentation: Bytes, e: nat)
    requires e <= |t| && !AtStart(t, e)
    ensures Pos(t, indentation, e) <= |Indented(t, indentation)| && !AtStart(t, Scan(t, [SPACE, TAB], e, false))
    ensures Scan(Indented(t, indentation), [SPACE, TAB], Pos(t, indentation, e), false)
         == Pos(t, indentation, Scan(t, [SPACE, TAB], e, false))
  {
    hide IndentText, Pos;
    var p, u := Scan(t, [SPACE, TAB], e, false), Indented(t, indentation);
    var x := Pos(t, indentation, e);
    InMiddle(t, indentation, e, p);
    var y := Pos(t, indentation, p);
    forall i | x <= i < y
      ensures u[i] in [SPACE, TAB]
    {
      assert u[x..y][i - x] == u[i];
      assert t[e..p][i - x] == t[e + (i - x)];
    }
    if p < |t| {
      OneByte(t, indentation, p);
    } else {
      Ends(t, indentation);
    }
    ScanIs(u, x, y);
  }

  /** In the middle of a line, spaces and tabs up to its end. */
  lemma {:induction false} LineEndMoves(t: Bytes, indentation: Bytes, e: nat)
    requires e <= |t| && !AtStart(t, e)
    ensures Pos(t, indentation, e) <= |Indented(t, indentation)|
    ensures var r, s := LineEnd(t, e), LineEnd(Indented(t, indentation), Pos(t, indentation, e));
            if r.Some? then s == Some(Pos(t, indentation, r.value)) else s.None?
    ensures LineEnd(t, e).Some? ==>
              var v := LineEnd(t, e).value;
              IndentText(t[e..v], indentation, false) == t[e..v] && (e < v ==> TextEnd(t[e..v], false) == AtStart(t, v))
  {
    hide IndentText, Pos, Scan, TextEnd;
    var p, u := Scan(t, [SPACE, TAB], e, false), Indented(t, indentation);
    BlanksMove(t, indentation, e);
    Ends(t, indentation);
    if p < |t| {
      OneByte(t, indentation, p);
      if t[p] == RETURN && p + 1 < |t| {
        OneByte(t, indentation, p + 1);
      }
    }
    var r := LineEnd(t, e);
    if r.Some? {
      Blanks(t, e);
      RestOfLine(t, indentation, e, p, r.value);
    }
  }

  lemma {:induction false} Blanks(t: Bytes, e: nat)
    requires e <= |t|
    ensures forall i :: e <= i < Scan(t, [SPACE, TAB], e, false) ==> t[i] in [SPACE, TAB]
  {
  }

  lemma {:induction false} ScanIs(u: Bytes, x: nat, y: nat)
    requires x <= y <= |u| && (forall i :: x <= i < y ==> u[i] in [SPACE, TAB]) && (y < |u| ==> u[y] !in [SPACE, TAB])
    ensures Scan(u, [SPACE, TAB], x, false) == y
    decreases y - x
  {
    if x < y {
      ScanIs(u, x + 1, y);
    }
  }

  /** Without a newline but at its end, a stretch that starts in a line is not indented. */
  lemma {:induction false} Unindented(a: Bytes, indentation: Bytes)
    requires forall i :: 0 <= i < |a| - 1 ==> a[i] != NEWLINE
    ensures IndentText(a, indentation, false) == a
  {
    if a != [] {
      IndentLine(a, |a|, indentation, false);
      assert a[|a|..] == [] && a[..|a|] == a;
      NoText(indentation, a[|a| - 1] == NEWLINE);
      assert [] + a + [] == a;
    }
  }

  lemma {:induction false} InMiddle(t: Bytes, indentation: Bytes, e: nat, p: nat)
    requires e <= p <= |t| && !AtStart(t, e) && forall i :: e <= i < p ==> t[i] in [SPACE, TAB]
    ensures Pos(t, indentation, p) == Pos(t, indentation, e) + (p - e) <= |Indented(t, indentation)| && !AtStart(t, p)
    ensures Indented(t, indentation)[Pos(t, indentation, e)..Pos(t, indentation, p)] == t[e..p]
  {
    Stretch(t, indentation, e, p);
    Unindented(t[e..p], indentation);
  }

  lemma {:induction false} RestOfLine(t: Bytes, indentation: Bytes, e: nat, p: nat, v: nat)
    requires e <= p <= v <= |t| && (forall i :: e <= i < p ==> t[i] in [SPACE, TAB]) && !AtStart(t, e)
    requires (p == |t| && v == p) || (p < |t| && t[p] == NEWLINE && v == p + 1)
             || (p + 1 < |t| && t[p] == RETURN && t[p + 1] == NEWLINE && v == p + 2)
    ensures IndentText(t[e..v], indentation, false) == t[e..v]
    ensures e < v ==> TextEnd(t[e..v], false) == AtStart(t, v)
  {
    hide IndentText;
    forall i | 0 <= i < v - e - 1
      ensures t[e..v][i] != NEWLINE
    {
      assert t[e..v][i] == t[e + i];
    }
    Unindented(t[e..v], indentation);
    if e < v {
      assert t[e..v][v - e - 1] == t[v - 1];
    }
  }

  // ---- Line by line -----------------------------------------------------------------------------------------

  /** The lines, each followed by a line break, and what is behind the last break. */
  function Lined(lines: seq<Bytes>, rest: Bytes): Bytes {
    if lines == [] then rest else lines[0] + [NEWLINE] + Lined(lines[1..], rest)
  }

  /** The same with the indentation in front of each of them; nothing is put behind the last break if nothing follows it. */
  function LinedIndented(lines: seq<Bytes>, rest: Bytes, indentation: Bytes): Bytes {
    if lines == [] then (if rest == [] then [] else indentation + rest)
    else indentation + lines[0] + [NEWLINE] + LinedIndented(lines[1..], rest, indentation)
  }

  /** Indenting a text puts the indentation in front of each of its lines, empty ones included. */
  lemma {:induction false} LineByLine(lines: seq<Bytes>, rest: Bytes, indentation: Bytes)
    requires NEWLINE !in rest && forall i :: 0 <= i < |lines| ==> NEWLINE !in lines[i]
    ensures Indented(Lined(lines, rest), indentation) == LinedIndented(lines, rest, indentation)
  {
    hide IndentText;
    if lines != [] {
      var line, more := lines[0] + [NEWLINE], Lined(lines[1..], rest);
      LineByLine(lines[1..], rest, indentation);
      IndentConcat(line, more, indentation, true);
      WholeLine(line, indentation);
    } else if rest != [] {
      WholeLine(rest, indentation);
    } else {
      NoText(indentation, true);
    }
  }

  lemma {:induction false} WholeLine(line: Bytes, indentation: Bytes)
    requires line != [] && forall i :: 0 <= i < |line| - 1 ==> line[i] != NEWLINE
    ensures IndentText(line, indentation, true) == indentation + line && TextEnd(line, true) == (line[|line| - 1] == NEWLINE)
  {
    IndentLine(line, |line|, indentation, true);
    assert line[|line|..] == [] && line[..|line|] == line;
    NoText(indentation, line[|line| - 1] == NEWLINE);
    assert indentation + line + [] == indentation + line;
  }
}
