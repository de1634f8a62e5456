/** Escaping, and a reader of entities that undoes it. */
module Entities {
  import opened Base
  import opened RenderTrace

  const AMPERSAND: byte := '&' as int
  const SEMICOLON: byte := ';' as int

  /** The byte that an entity stands for, by what is between the ampersand and the semicolon. */
  function EntityOf(name: Bytes): Option<byte> {
    if name == ['l' as int, 't' as int] then Some('<' as int)
    else if name == ['g' as int, 't' as int] then Some('>' as int)
    else if name == ['a' as int, 'm' as int, 'p' as int] then Some('&' as int)
    else if name == ['q' as int, 'u' as int, 'o' as int, 't' as int] then Some('"' as int)
    else if name == ['#' as int, '0' as int, '3' as int, '9' as int] then Some('\'' as int)
    else None
  }

  /** The position of the first semicolon from there on. */
  function EndOf(s: Bytes, from: nat): (k: nat)
    requires from <= |s|
    ensures from <= k <= |s| && (k < |s| ==> s[k] == SEMICOLON) && forall i :: from <= i < k ==> s[i] != SEMICOLON
    decreases |s| - from
  {
    if from == |s| || s[from] == SEMICOLON then from else EndOf(s, from + 1)
  }

  /** The entity that starts with the first byte, if one does. */
  function Leading(s: Bytes): Option<byte> {
    if s == [] || s[0] != AMPERSAND then None
    else
      var end := EndOf(s, 1);
      if end == |s| then None else EntityOf(s[1..end])
  }

  /** Reading a text with entities. */
  function Unescaped(s: Bytes): Bytes
    decreases |s|
  {
    if s == [] then []
    else
      match Leading(s)
      case Some(b) => [b] + Unescaped(s[EndOf(s, 1) + 1..])
      case None => [s[0]] + Unescaped(s[1..])
  }

  /** The bytes that mean something to HTML. */
  predicate Special(b: byte) {
    b == '<' as int || b == '>' as int || b == '&' as int || b == '"' as int || b == '\'' as int
  }

  /** Text in which no byte means markup: none of the five but ampersands, and those only at the start of an entity. */
  predicate NoMarkup(s: Bytes) {
    forall i :: 0 <= i < |s| && Special(s[i]) ==> s[i] == AMPERSAND && Leading(s[i..]).Some?
  }

  /** What becomes of one byte: itself, or an entity that stands for it. */
  lemma {:induction false} OneByteEscaped(b: byte)
    ensures var e := EscapedByte(b);
            if !Special(b) then e == [b]
            else
              |e| > 2 && e[0] == AMPERSAND && e[|e| - 1] == SEMICOLON && EntityOf(e[1..|e| - 1]) == Some(b)
              && forall i :: 1 <= i < |e| ==> !Special(e[i]) && (i < |e| - 1 ==> e[i] != SEMICOLON)
  {
    assert AMP[1..4] == ['a' as int, 'm' as int, 'p' as int] && LT[1..3] == ['l' as int, 't' as int];
    assert GT[1..3] == ['g' as int, 't' as int] && QUOT[1..5] == ['q' as int, 'u' as int, 'o' as int, 't' as int];
    assert APOS[1..5] == ['#' as int, '0' as int, '3' as int, '9' as int];
  }

  /** Before anything else, the entity is read. */
  lemma {:induction false} LeadingEntity(e: Bytes, rest: Bytes, b: byte)
    requires |e| > 2 && e[0] == AMPERSAND && e[|e| - 1] == SEMICOLON && EntityOf(e[1..|e| - 1]) == Some(b)
    requires forall i :: 1 <= i < |e| - 1 ==> e[i] != SEMICOLON
    ensures EndOf(e + rest, 1) == |e| - 1 && Leading(e + rest) == Some(b) && (e + rest)[|e|..] == rest
  {
    var s := e + rest;
    forall i | 0 <= i < |e|
      ensures s[i] == e[i]
    {
    }
    var end := EndOf(s, 1);
    assert end == |e| - 1;
    assert s[1..end] == e[1..|e| - 1];
  }

  /** Whoever reads the entities of an escaped text gets the text back. */
  lemma {:induction false} EscapingIsUndone(s: Bytes)
    ensures Unescaped(Escaped(s)) == s
  {
    hide EscapedByte, EntityOf, EndOf, Leading;
    if s != [] {
      var e, rest := EscapedByte(s[0]), Escaped(s[1..]);
      EscapingIsUndone(s[1..]);
      OneByteEscaped(s[0]);
      if Special(s[0]) {
        LeadingEntity(e, rest, s[0]);
      } else {
        PlainFirst(s[0], rest);
      }
      assert s == [s[0]] + s[1..];
    }
  }

  lemma {:induction false} PlainFirst(b: byte, rest: Bytes)
    requires b != AMPERSAND
    ensures Unescaped([b] + rest) == [b] + Unescaped(rest)
  {
    assert ([b] + rest)[1..] == rest;
  }

  /** Nothing in an escaped text is markup. */
  lemma {:induction false} EscapedHasNoMarkup(s: Bytes)
    ensures NoMarkup(Escaped(s))
  {
    hide EscapedByte, EntityOf, EndOf, Leading, Special;
    if s != [] {
      var e, rest := EscapedByte(s[0]), Escaped(s[1..]);
      EscapedHasNoMarkup(s[1..]);
      OneByteEscaped(s[0]);
      if Special(s[0]) {
        LeadingEntity(e, rest, s[0]);
      }
      forall i | 0 <= i < |e + rest| && Special((e + rest)[i])
        ensures (e + rest)[i] == AMPERSAND && Leading((e + rest)[i..]).Some?
      {
        if i >= |e| {
          assert (e + rest)[i] == rest[i - |e|] && (e + rest)[i..] == rest[i - |e|..];
        } else {
          assert i == 0 && (e + rest)[0..] == e + rest;
        }
      }
    }
  }

  /** Text without any of the five bytes stays as it is. */
  lemma {:induction false} PlainTextStays(s: Bytes)
    requires forall i :: 0 <= i < |s| ==> !Special(s[i])
    ensures Escaped(s) == s
  {
    hide EscapedByte, Special;
    if s != [] {
      PlainTextStays(s[1..]);
      OneByteEscaped(s[0]);
      assert s == [s[0]] + s[1..];
    }
  }
}
