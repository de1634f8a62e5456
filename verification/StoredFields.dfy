/** What both stored formats keep of a node, field by field. */
module StoredFields {
  import opened Base
  import opened Template
  import opened Codec
  import opened Decoder
  import opened CodecTheorems
  import opened ArchiveGraph

  /** The number under which a type is stored. */
  function StoredNumber(kind: Type): Option<nat> {
    match kind
    case TypeRoot => Some(0x001)
    case TypeOutput => Some(0x002)
    case TypeTag => Some(0x004)
    case TypeVariable => Some(0x010)
    case TypeNegate => Some(0x020)
    case TypeSection => Some(0x040)
    case TypeStop => Some(0x080)
    case TypeComment => Some(0x100)
    case TypePartial => Some(0x200)
    case TypeInlinePartial => Some(0x400)
    case _ => None
  }

  /** The number that bytes spell, the first byte weighing most. */
  function BigEndian(bytes: Bytes): int {
    if bytes == [] then 0 else 0x100 * BigEndian(bytes[..|bytes| - 1]) + bytes[|bytes| - 1]
  }

  lemma {:induction false} ShortNumbers(a: byte, b: byte, c: byte, d: byte)
    ensures BigEndian([a, b]) == 0x100 * a + b && BigEndian([a, b, c]) == 0x1_0000 * a + 0x100 * b + c
    ensures BigEndian([a, b, c, d]) == 0x100_0000 * a + 0x1_0000 * b + 0x100 * c + d
  {
    assert [a, b, c, d][..3] == [a, b, c] && [a, b, c][..2] == [a, b] && [a, b][..1] == [a] && [a][..0] == [];
    assert BigEndian([a]) == a;
  }

  lemma {:induction false} SizeFields(v: nat)
    ensures v < 0x1_0000 ==> BigEndian(U16(v)) == v
    ensures v < 0x100_0000 ==> BigEndian(U24(v)) == v
    ensures v < 0x1_0000_0000 ==> BigEndian(U32(v)) == v
  {
    hide BigEndian, U16, U24, U32;
    var x, y, z := U16(v), U24(v), U32(v);
    assert x == [x[0], x[1]] && y == [y[0], y[1], y[2]] && z == [z[0], z[1], z[2], z[3]];
    ShortNumbers(x[0], x[1], 0, 0);
    ShortNumbers(y[0], y[1], y[2], 0);
    ShortNumbers(z[0], z[1], z[2], z[3]);
    if v < 0x1_0000 {
      IntegerField16(v);
    }
    if v < 0x100_0000 {
      IntegerField24(v);
    }
    if v < 0x1_0000_0000 {
      IntegerField32(v);
    }
  }

  lemma {:induction false} StoredNumbers(kind: Type)
    requires IsSerializableType(kind)
    ensures StoredNumber(kind) == Some(Code(kind)) && Code(kind) < 0x1_0000
  {
  }

  /** The legacy form of a node: a header of 14 bytes with its type, flags and sizes, its data with a zero byte behind it, and its
      children one after the other. */
  lemma {:induction false} HeaderFields(n: Node, marker: bool)
    requires Encodable(n, marker)
    ensures var e, body, text := Encoding(n), EncodingAll(n.children), if n.data.Some? then n.data.value + [0] else [];
            && |e| == 14 + |text| + |body| && e[0] == 'M' as int && e[1] == 'U' as int
            && StoredNumber(n.kind) == Some(BigEndian(e[2..4])) && e[4] == n.flags
            && BigEndian(e[5..8]) == |text| && BigEndian(e[8..10]) == |n.children| && BigEndian(e[10..14]) == |body|
            && e[14..14 + |text|] == text && e[14 + |text|..] == body
  {
    hide BigEndian, U16, U24, U32, EncodingAll;
    var e, body, text := Encoding(n), EncodingAll(n.children), if n.data.Some? then n.data.value + [0] else [];
    var code := Code(n.kind);
    SizeFields(code);
    SizeFields(|text|);
    SizeFields(|n.children|);
    SizeFields(|body|);
    StoredNumbers(n.kind);
    assert e == ['M' as int, 'U' as int] + U16(code) + [n.flags] + U24(|text|) + U16(|n.children|) + U32(|body|) + text + body;
    assert e[2..4] == U16(code) && e[5..8] == U24(|text|) && e[8..10] == U16(|n.children|) && e[10..14] == U32(|body|);
  }

  /** The archive record of a node: its type and flags as numbers, one presence bit for each of its four strings, and where they
      are in the pool. */
  lemma {:induction false} RecordFields(r: ArchiveNode, strings: Bytes, n: Node)
    requires n.Node? && Records(r, strings, n) && IsSerializableType(n.kind)
    ensures StoredNumber(n.kind) == Some(r.kind) && r.flags == n.flags
    ensures (r.presence % 2 == 1 <==> n.data.Some?) && (r.presence / 2 % 2 == 1 <==> n.start.Some?)
    ensures (r.presence / 4 % 2 == 1 <==> n.stop.Some?) && (r.presence / 8 % 2 == 1 <==> OriginalText(n).Some?)
    ensures Stores(r.data, strings, n.data) && Stores(r.startSequence, strings, n.start)
    ensures Stores(r.stopSequence, strings, n.stop) && Stores(r.originalSectionText, strings, OriginalText(n))
  {
    StoredNumbers(n.kind);
    PresenceBits(n);
  }

  /** The slice is where the text is in the pool; without a text it is empty and at the start. */
  predicate Stores(at: Slice, strings: Bytes, text: Option<Bytes>) {
    at.offset + at.length <= |strings|
    && if text.Some? then strings[at.offset..at.offset + at.length] == text.value else at.offset == at.length == 0
  }

  lemma {:induction false} PresenceBits(n: Node)
    requires n.Node?
    ensures var p := PresenceOf(n);
            && (p % 2 == 1 <==> n.data.Some?) && (p / 2 % 2 == 1 <==> n.start.Some?) && (p / 4 % 2 == 1 <==> n.stop.Some?)
            && (p / 8 % 2 == 1 <==> OriginalText(n).Some?)
  {
    hide OriginalText;
  }

  // ---- Which types may have what -------------------------------------------------------------------------------

  /** The types that may have children, that look their name up, that have no name, and whose names may have dots. */
  lemma {:induction false} TypesByMask(kind: Type)
    requires StoredNumber(kind).Some?
    ensures IsSerializableType(kind)
    ensures HasChildren(kind) <==> kind in {TypeRoot, TypeNegate, TypeSection, TypeInlinePartial}
    ensures HasData(kind) <==> kind in {TypeVariable, TypeNegate, TypeSection, TypePartial}
    ensures HasNoString(kind) <==> kind == TypeRoot
    ensures HasDot(kind) <==> kind in {TypeTag, TypeVariable, TypeNegate, TypeSection, TypeStop}
  {
  }

  /** The flags a stored node may have: escaping, or on text the mark of source that is not rendered, alone or as a partial's
      indentation. */
  lemma {:induction false} FlagsByType(kind: Type, flags: int)
    ensures FlagsAllowed(kind, flags) <==> flags in {0, 1} || (kind.TypeOutput? && flags in {2, 6})
  {
    if 0 <= flags < 8 {
      assert flags in {0, 1, 2, 3, 4, 5, 6, 7};
    }
  }
}
