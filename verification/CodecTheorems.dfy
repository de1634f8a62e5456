/** The legacy format is faithful and canonical: reading inverts writing, and only what writing yields can be read. */
module CodecTheorems {
  import opened Base
  import opened Template
  import opened Printer
  import opened Codec
  import opened Decoder

  /** What a stored tree remembers of a node: default section delimiters, no source, no container child. */
  function Stored(n: Node): Node {
    match n
    case Null => Null
    case Node(kind, flags, data, children, _, _, _, _) =>
      Node(kind, flags, data, StoredAll(children), Null, Delimiter(kind, OPEN), Delimiter(kind, CLOSE), None)
  }

  function StoredAll(ns: seq<Node>): (r: seq<Node>)
    ensures |r| == |ns|
  {
    if ns == [] then [] else [Stored(ns[0])] + StoredAll(ns[1..])
  }

  lemma {:induction false} StoredAt(ns: seq<Node>, i: nat)
    requires i < |ns|
    ensures StoredAll(ns)[i] == Stored(ns[i])
  {
    if i > 0 {
      StoredAt(ns[1..], i - 1);
    }
  }

  lemma {:induction false} StoredMarkers(ns: seq<Node>, i: nat)
    ensures MarkersFrom(StoredAll(ns), i) == MarkersFrom(ns, i)
    decreases |ns| - i
  {
    if i < |ns| {
      StoredAt(ns, i);
      if i + 1 < |ns| {
        StoredAt(ns, i + 1);
      }
      StoredMarkers(ns, i + 1);
      if i + 1 < |ns| {
        StoredMarkers(ns, i + 2);
      }
    }
  }

  // ---- Fields -------------------------------------------------------------------------------

  /** Taking off the last byte of a big-endian number. */
  lemma {:induction false} LastByte(high: nat, low: byte)
    ensures (high * 0x100 + low) / 0x100 == high && (high * 0x100 + low) % 0x100 == low
  {
  }

  lemma {:induction false} Shift(v: nat)
    ensures v / 0x1_0000 == v / 0x100 / 0x100 && v / 0x100_0000 == v / 0x100 / 0x100 / 0x100
  {
  }

  lemma {:induction false} IntegerField16(v: nat)
    requires v < 0x1_0000
    ensures U16At(U16(v), 0) == v
  {
  }

  lemma {:induction false} IntegerField24(v: nat)
    requires v < 0x100_0000
    ensures U24At(U24(v), 0) == v
  {
    Shift(v);
    var a := v / 0x100;
    var b := a / 0x100;
    assert v == a * 0x100 + v % 0x100 && a == b * 0x100 + a % 0x100;
    assert U24(v) == [b % 0x100, a % 0x100, v % 0x100];
  }

  lemma {:induction false} IntegerField32(v: nat)
    requires v < 0x1_0000_0000
    ensures U32At(U32(v), 0) == v
  {
    Shift(v);
    var a := v / 0x100;
    var b := a / 0x100;
    var c := b / 0x100;
    assert v == a * 0x100 + v % 0x100 && a == b * 0x100 + a % 0x100 && b == c * 0x100 + b % 0x100;
    assert U32(v) == [c % 0x100, b % 0x100, a % 0x100, v % 0x100];
  }

  lemma {:induction false} BytesOfField16(b: Bytes)
    requires |b| == 2
    ensures U16(U16At(b, 0)) == b
  {
    LastByte(b[0], b[1]);
  }

  lemma {:induction false} BytesOfField24(b: Bytes)
    requires |b| == 3
    ensures U24(U24At(b, 0)) == b
  {
    var high := b[0] as int * 0x100 + b[1];
    LastByte(b[0], b[1]);
    LastByte(high, b[2]);
    Shift(high * 0x100 + b[2]);
    assert U24At(b, 0) == high * 0x100 + b[2];
  }

  lemma {:induction false} BytesOfField32(b: Bytes)
    requires |b| == 4
    ensures U32(U32At(b, 0)) == b
  {
    var higher := b[0] as int * 0x100 + b[1];
    var high := higher * 0x100 + b[2];
    LastByte(b[0], b[1]);
    LastByte(higher, b[2]);
    LastByte(high, b[3]);
    Shift(high * 0x100 + b[3]);
    assert U32At(b, 0) == high * 0x100 + b[3];
  }

  lemma {:induction false} TypeOfCode(t: Type)
    requires IsSerializableType(t)
    ensures TypeOf(Code(t)) == t && 0 <= Code(t) < 0x1_0000
  {
  }

  // ---- Reading what was written ---------------------------------------------------------------

  lemma {:induction false} FieldsMove(bs: Bytes, pos: nat, h: Bytes)
    requires |h| == HEADER_SIZE && pos + HEADER_SIZE <= |bs| && bs[pos..pos + HEADER_SIZE] == h
    ensures FieldsAt(bs, pos) == FieldsAt(h, 0) && bs[pos] == h[0] && bs[pos + 1] == h[1]
  {
    hide TypeOf;
    assert forall k :: pos <= k < pos + HEADER_SIZE ==> bs[k] == h[k - pos];
  }

  lemma {:induction false} FieldsOfHeader(n: Node, size: nat)
    requires n.Node? && IsSerializableType(n.kind) && 0 <= n.flags < 8
    requires PayloadSize(n) <= MAX_DATA_SIZE && |n.children| <= MAX_CHILDREN && size <= MAX_UINT32
    ensures var h := Prefix(n) + U32(size);
            FieldsAt(h, 0) == Fields(n.kind, n.flags, PayloadSize(n), |n.children|, size)
            && h[0] == 'M' as int && h[1] == 'U' as int
  {
    hide TypeOf, Code, U16, U24, U32, PayloadSize;
    var h := Prefix(n) + U32(size);
    TypeOfCode(n.kind);
    IntegerField16(Code(n.kind));
    IntegerField24(PayloadSize(n));
    IntegerField16(|n.children|);
    IntegerField32(size);
    assert U16At(h, 2) == U16At(U16(Code(n.kind)), 0);
    assert U24At(h, 5) == U24At(U24(PayloadSize(n)), 0);
    assert U16At(h, 8) == U16At(U16(|n.children|), 0);
    assert U32At(h, 10) == U32At(U32(size), 0);
  }

  lemma {:induction false} EncodingsAreLong(ns: seq<Node>)
    requires EncodableAll(ns)
    ensures |EncodingAll(ns)| >= HEADER_SIZE * |ns|
  {
    if ns != [] {
      EncodingsAreLong(ns[1..]);
    }
  }

  lemma {:induction false} LastOfWindow(bs: Bytes, p: nat, d: Bytes)
    requires d != [] && p + |d| <= |bs| && bs[p..p + |d|] == d
    ensures bs[p + |d| - 1] == d[|d| - 1] && bs[p..p + |d| - 1] == d[..|d| - 1]
  {
    assert bs[p..p + |d|][|d| - 1] == bs[p + |d| - 1];
    assert bs[p..p + |d|][..|d| - 1] == bs[p..p + |d| - 1];
  }

  lemma {:induction false} RestOfEncoding(n: Node, bs: Bytes, p: nat, limit: nat, used: Counters, limits: SerializationLimits)
    requires n.Node? && NodeEncodable(n, true) && EncodableAll(n.children)
    requires p + PayloadSize(n) + |EncodingAll(n.children)| <= limit <= |bs|
    requires bs[p..p + PayloadSize(n)] == Payload(n)
    requires NodeParts(n) <= limits.maxDataPartsPerNode && used.parts + NodeParts(n) <= limits.maxDataParts
    ensures ParseRest(bs, Fields(n.kind, n.flags, PayloadSize(n), |n.children|, |EncodingAll(n.children)|),
                      p, limit, used, limits)
         == Ok(Head(n.kind, n.flags, n.data, |n.children|, p + PayloadSize(n),
                    p + PayloadSize(n) + |EncodingAll(n.children)|,
                    Counters(used.nodes + 1, used.parts + NodeParts(n))))
  {
    hide Count, MarkersFrom, FlagsAllowed, HasDot;
    EncodingsAreLong(n.children);
    if n.data.Some? {
      var d := Payload(n);
      assert d[|d| - 1] == 0 && d[..|d| - 1] == n.data.value;
      LastOfWindow(bs, p, d);
    }
  }

  lemma {:induction false} HeadOfEncoding(n: Node, bs: Bytes, pos: nat, limit: nat, depth: nat, used: Counters,
                                          limits: SerializationLimits)
    requires n.Node? && NodeEncodable(n, true) && EncodableAll(n.children) && |EncodingAll(n.children)| <= MAX_UINT32
    requires pos + |Encoding(n)| <= limit <= |bs| && bs[pos..pos + |Encoding(n)|] == Encoding(n)
    requires depth < limits.maxNestingDepth && used.nodes < limits.maxNodes
    requires NodeParts(n) <= limits.maxDataPartsPerNode && used.parts + NodeParts(n) <= limits.maxDataParts
    ensures ParseHead(bs, pos, limit, depth, used, limits)
         == Ok(Head(n.kind, n.flags, n.data, |n.children|, pos + HEADER_SIZE + PayloadSize(n), pos + |Encoding(n)|,
                    Counters(used.nodes + 1, used.parts + NodeParts(n))))
    ensures bs[pos + HEADER_SIZE + PayloadSize(n)..pos + |Encoding(n)|] == EncodingAll(n.children)
    ensures |Encoding(n)| == HEADER_SIZE + PayloadSize(n) + |EncodingAll(n.children)|
  {
    hide FieldsAt, Prefix, U32, Payload, ParseRest, MarkersFrom, HasChildren, NodeParts;
    var body := EncodingAll(n.children);
    var h := Prefix(n) + U32(|body|);
    Window(bs, pos, h, Payload(n), body);
    FieldsMove(bs, pos, h);
    FieldsOfHeader(n, |body|);
    RestOfEncoding(n, bs, pos + HEADER_SIZE, limit, used, limits);
  }

  lemma {:induction false} ParseEncoding(
      n: Node, marker: bool, bs: Bytes, pos: nat, limit: nat, depth: nat, used: Counters, limits: SerializationLimits)
    requires Encodable(n, marker)
    requires pos + |Encoding(n)| <= limit <= |bs| && bs[pos..pos + |Encoding(n)|] == Encoding(n)
    requires depth + Height(n) <= limits.maxNestingDepth && used.nodes + NodeCount(n) <= limits.maxNodes
    requires PartsWithin(n, limits.maxDataPartsPerNode) && used.parts + PartCount(n) <= limits.maxDataParts
    ensures Parse(bs, pos, limit, depth, used, limits)
         == Ok(Parsed(Stored(n), pos + |Encoding(n)|,
                      Counters(used.nodes + NodeCount(n), used.parts + PartCount(n))))
    decreases n, 1
  {
    hide ParseHead, NodeEncodable, Prefix, Payload, U32, NodeParts, MarkersFrom;
    MayBeMarker(n, marker);
    HeadOfEncoding(n, bs, pos, limit, depth, used, limits);
    var h := ParseHead(bs, pos, limit, depth, used, limits).value;
    ParseEncodings([], n.children, bs, h.pos, h.end, depth + 1, h.used, limits);
    assert [] + StoredAll(n.children) == StoredAll(n.children);
    StoredMarkers(n.children, 0);
  }

  lemma {:induction false} MayBeMarker(n: Node, marker: bool)
    requires n.Node? && NodeEncodable(n, marker)
    ensures NodeEncodable(n, true) && MarkersFrom(n.children, 0)
  {
  }

  lemma {:induction false} ParseEncodings(
      done: seq<Node>, ns: seq<Node>, bs: Bytes, pos: nat, limit: nat, depth: nat, used: Counters,
      limits: SerializationLimits)
    requires EncodableAll(ns)
    requires pos + |EncodingAll(ns)| <= limit <= |bs| && bs[pos..pos + |EncodingAll(ns)|] == EncodingAll(ns)
    requires depth + HeightAll(ns) <= limits.maxNestingDepth && used.nodes + NodeCountAll(ns) <= limits.maxNodes
    requires PartsWithinAll(ns, limits.maxDataPartsPerNode) && used.parts + PartCountAll(ns) <= limits.maxDataParts
    ensures ParseAll(done, |ns|, bs, pos, limit, depth, used, limits)
         == Ok(ParsedAll(done + StoredAll(ns), pos + |EncodingAll(ns)|,
                         Counters(used.nodes + NodeCountAll(ns), used.parts + PartCountAll(ns))))
    decreases ns, 0
  {
    hide Parse, Encodable, Encoding, Stored, Height, NodeCount, PartCount, PartsWithin;
    if ns == [] {
      assert done + [] == done;
    } else {
      var first := Encoding(ns[0]);
      Window(bs, pos, first, EncodingAll(ns[1..]), []);
      assert first + EncodingAll(ns[1..]) + [] == EncodingAll(ns);
      ParseEncoding(ns[0], IsMarker(ns[0]), bs, pos, limit, depth, used, limits);
      var next := Counters(used.nodes + NodeCount(ns[0]), used.parts + PartCount(ns[0]));
      ParseEncodings(done + [Stored(ns[0])], ns[1..], bs, pos + |first|, limit, depth, next, limits);
      assert done + [Stored(ns[0])] + StoredAll(ns[1..]) == done + StoredAll(ns);
    }
  }

  // ---- Writing what was read ------------------------------------------------------------------

  /** A node that was read: what it stands for is exactly what its bytes say. */
  predicate ReadAs(n: Node, bs: Bytes, pos: nat, end: nat, from: Counters, to: Counters, depth: nat,
                   limits: SerializationLimits)
    requires pos <= end <= |bs|
  {
    && Encodable(n, true) && Stored(n) == n
    && bs[pos..end] == Encoding(n)
    && depth + Height(n) <= limits.maxNestingDepth
    && PartsWithin(n, limits.maxDataPartsPerNode)
    && to == Counters(from.nodes + NodeCount(n), from.parts + PartCount(n))
    && to.nodes <= limits.maxNodes && to.parts <= limits.maxDataParts
  }

  predicate AllReadAs(ns: seq<Node>, bs: Bytes, pos: nat, end: nat, from: Counters, to: Counters, depth: nat,
                      limits: SerializationLimits)
    requires pos <= end <= |bs|
  {
    && (forall i :: 0 <= i < |ns| ==> Encodable(ns[i], true)) && StoredAll(ns) == ns
    && bs[pos..end] == EncodingAll(ns)
    && depth + HeightAll(ns) <= limits.maxNestingDepth
    && PartsWithinAll(ns, limits.maxDataPartsPerNode)
    && to == Counters(from.nodes + NodeCountAll(ns), from.parts + PartCountAll(ns))
    && to.nodes <= limits.maxNodes && to.parts <= limits.maxDataParts
  }

  lemma {:induction false} BytesOfHeader(bs: Bytes, pos: nat, n: Node, size: nat)
    requires pos + HEADER_SIZE <= |bs| && n.Node?
    requires bs[pos] == 'M' as int && bs[pos + 1] == 'U' as int
    requires FieldsAt(bs, pos) == Fields(n.kind, n.flags, PayloadSize(n), |n.children|, size)
    ensures bs[pos..pos + HEADER_SIZE] == Prefix(n) + U32(size)
  {
    hide U16, U24, U32, U16At, U24At, U32At;
    BytesOfField16(bs[pos + 2..pos + 4]);
    BytesOfField24(bs[pos + 5..pos + 8]);
    BytesOfField16(bs[pos + 8..pos + 10]);
    BytesOfField32(bs[pos + 10..pos + 14]);
    FieldsOfSlices(bs, pos);
    assert bs[pos..pos + 14] == [bs[pos], bs[pos + 1]] + bs[pos + 2..pos + 4] + [bs[pos + 4]] + bs[pos + 5..pos + 8]
        + bs[pos + 8..pos + 10] + bs[pos + 10..pos + 14];
  }

  lemma {:induction false} FieldsOfSlices(bs: Bytes, pos: nat)
    requires pos + HEADER_SIZE <= |bs|
    ensures U16At(bs, pos + 2) == U16At(bs[pos + 2..pos + 4], 0)
    ensures U24At(bs, pos + 5) == U24At(bs[pos + 5..pos + 8], 0)
    ensures U16At(bs, pos + 8) == U16At(bs[pos + 8..pos + 10], 0)
    ensures U32At(bs, pos + 10) == U32At(bs[pos + 10..pos + 14], 0)
  {
  }

  lemma {:induction false} HeadIsEncoded(bs: Bytes, pos: nat, limit: nat, depth: nat, used: Counters,
                                         limits: SerializationLimits,
                      children: seq<Node>)
    requires pos <= limit <= |bs|
    requires ParseHead(bs, pos, limit, depth, used, limits).Ok?
    requires |children| == ParseHead(bs, pos, limit, depth, used, limits).value.count
    ensures var h := ParseHead(bs, pos, limit, depth, used, limits).value;
            var n := HeadNode(h, children);
            && bs[pos..h.pos] == Prefix(n) + U32(h.end - h.pos) + Payload(n)
            && h.end - h.pos <= MAX_UINT32
            && ShapeAllowed(n.kind, n.flags, n.data.Some?, |children|)
            && |children| <= MAX_CHILDREN && PayloadSize(n) <= MAX_DATA_SIZE
            && h.used == Counters(used.nodes + 1, used.parts + NodeParts(n))
            && h.used.nodes <= limits.maxNodes && h.used.parts <= limits.maxDataParts
            && NodeParts(n) <= limits.maxDataPartsPerNode && depth < limits.maxNestingDepth
  {
    hide TypeOf, HasDot, FlagsAllowed, HasChildren, Prefix, U32;
    var f, p := FieldsAt(bs, pos), pos + HEADER_SIZE;
    FieldRanges(bs, pos);
    var h := ParseHead(bs, pos, limit, depth, used, limits).value;
    var n := HeadNode(h, children);
    BytesOfHeader(bs, pos, n, f.bodySize);
    PayloadRead(bs, p, f.size, n);
    assert bs[pos..h.pos] == bs[pos..p] + bs[p..h.pos];
  }

  lemma {:induction false} HeadWithin(bs: Bytes, pos: nat, limit: nat, depth: nat, used: Counters, limits: SerializationLimits)
    requires pos <= limit <= |bs|
    requires ParseHead(bs, pos, limit, depth, used, limits).Ok?
    ensures var h := ParseHead(bs, pos, limit, depth, used, limits).value;
            h.used.nodes <= limits.maxNodes && h.used.parts <= limits.maxDataParts && depth < limits.maxNestingDepth
  {
    hide FieldsAt, ShapeAllowed, Parts;
  }

  lemma {:induction false} FieldRanges(bs: Bytes, pos: nat)
    requires pos + HEADER_SIZE <= |bs|
    ensures var f := FieldsAt(bs, pos);
            f.size <= MAX_DATA_SIZE && f.count <= MAX_CHILDREN && f.bodySize <= MAX_UINT32 && 0 <= f.flags < 0x100
  {
    hide TypeOf;
  }

  lemma {:induction false} PayloadRead(bs: Bytes, p: nat, size: nat, n: Node)
    requires n.Node? && p + size <= |bs| && (size > 0 ==> bs[p + size - 1] == 0)
    requires n.data == if size > 0 then Some(bs[p..p + size - 1]) else None
    ensures bs[p..p + size] == Payload(n)
  {
  }

  /** A sibling with the marker flag that passed the scan is a marker: the one sibling the scan skips is a partial. */
  lemma {:induction false} FlaggedAreMarkers(ns: seq<Node>, i: nat, k: nat)
    requires MarkersFrom(ns, i) && i <= k < |ns| && ns[k].Node?
    requires forall j :: 0 <= j < |ns| ==> ns[j].Node? && FlagsAllowed(ns[j].kind, ns[j].flags)
    requires Bit(ns[k].flags, FLAG_PARTIAL_INDENT)
    ensures IsMarker(ns[k])
    decreases |ns| - i
  {
    if !Bit(ns[i].flags, FLAG_PARTIAL_INDENT) {
      FlaggedAreMarkers(ns, i + 1, k);
    } else if k >= i + 2 {
      FlaggedAreMarkers(ns, i + 2, k);
    }
  }

  lemma {:induction false} SiblingsEncodable(ns: seq<Node>, i: nat)
    requires MarkersFrom(ns, 0) && i <= |ns|
    requires forall j :: 0 <= j < |ns| ==> Encodable(ns[j], true)
    ensures EncodableAll(ns[i..])
    decreases |ns| - i
  {
    if i < |ns| {
      assert ns[i..][0] == ns[i] && ns[i..][1..] == ns[i + 1..];
      SiblingsEncodable(ns, i + 1);
      if Bit(ns[i].flags, FLAG_PARTIAL_INDENT) {
        FlaggedAreMarkers(ns, 0, i);
      }
    }
  }

  lemma {:induction false} ParseIsCanonical(
      bs: Bytes, pos: nat, limit: nat, depth: nat, used: Counters, limits: SerializationLimits)
    requires pos <= limit <= |bs|
    requires Parse(bs, pos, limit, depth, used, limits).Ok?
    ensures var r := Parse(bs, pos, limit, depth, used, limits).value;
            ReadAs(r.node, bs, pos, r.pos, used, r.used, depth, limits)
    decreases limit - pos, 0
  {
    hide ParseHead, MarkersFrom, ShapeAllowed, Prefix, Payload, U32, NodeParts, HeightAll, NodeCountAll, PartCountAll;
    hide PartsWithinAll;
    var h := ParseHead(bs, pos, limit, depth, used, limits).value;
    var all := ParseAll([], h.count, bs, h.pos, h.end, depth + 1, h.used, limits).value;
    HeadWithin(bs, pos, limit, depth, used, limits);
    ParseAllIsCanonical([], h.count, bs, h.pos, h.end, depth + 1, h.used, limits);
    HeadIsEncoded(bs, pos, limit, depth, used, limits, all.nodes);
    SiblingsEncodable(all.nodes, 0);
    NodeWritten(HeadNode(h, all.nodes), bs, pos, h.pos, h.end);
  }

  lemma {:induction false} NodeWritten(n: Node, bs: Bytes, pos: nat, body: nat, end: nat)
    requires n.Node? && pos <= body <= end <= |bs|
    requires bs[pos..body] == Prefix(n) + U32(end - body) + Payload(n)
    requires bs[body..end] == EncodingAll(n.children)
    ensures bs[pos..end] == Encoding(n)
  {
    assert bs[pos..end] == bs[pos..body] + bs[body..end];
  }

  lemma {:induction false} ParseAllIsCanonical(
      done: seq<Node>, count: nat, bs: Bytes, pos: nat, limit: nat, depth: nat, used: Counters,
      limits: SerializationLimits)
    requires pos <= limit <= |bs|
    requires ParseAll(done, count, bs, pos, limit, depth, used, limits).Ok?
    requires depth <= limits.maxNestingDepth && used.nodes <= limits.maxNodes && used.parts <= limits.maxDataParts
    ensures var r := ParseAll(done, count, bs, pos, limit, depth, used, limits).value;
            |r.nodes| == |done| + count && r.nodes[..|done|] == done
            && AllReadAs(r.nodes[|done|..], bs, pos, r.pos, used, r.used, depth, limits)
    decreases limit - pos, 1, count
  {
    hide Parse, Encodable, Encoding, Stored, Height, NodeCount, PartCount, PartsWithin;
    if count > 0 {
      var next := Parse(bs, pos, limit, depth, used, limits).value;
      ParseIsCanonical(bs, pos, limit, depth, used, limits);
      ParseAllIsCanonical(done + [next.node], count - 1, bs, next.pos, limit, depth, next.used, limits);
      var r := ParseAll(done, count, bs, pos, limit, depth, used, limits).value;
      var ns := r.nodes[|done|..];
      assert ns[0] == next.node && ns[1..] == r.nodes[|done| + 1..];
      assert bs[pos..r.pos] == bs[pos..next.pos] + bs[next.pos..r.pos];
    }
  }

  // ---- Main results ---------------------------------------------------------------------------

  /** Every tree the writer accepts is read back from its bytes, up to what the format drops by design. */
  lemma {:induction false} DecodeAfterEncode(n: Node, limits: SerializationLimits)
    requires Accepts(n, limits) && |Encoding(n)| <= limits.maxInputBytes
    ensures Decode(Encoding(n), limits) == Ok(Stored(n))
  {
    hide Parse, Encoding;
    var bs := Encoding(n);
    assert bs[0..|bs|] == bs;
    ParseEncoding(n, false, bs, 0, |bs|, 0, Counters(0, 0), limits);
  }

  /** What the reader accepts, the writer writes back byte for byte, under the same node and name limits. */
  lemma {:induction false} EncodeAfterDecode(bs: Bytes, limits: SerializationLimits)
    requires Decode(bs, limits).Ok?
    ensures var n := Decode(bs, limits).value;
            Encoding(n) == bs && Stored(n) == n && Accepts(n, limits.(maxOutputBytes := |bs|))
  {
    hide Parse;
    ParseIsCanonical(bs, 0, |bs|, 0, Counters(0, 0), limits);
    assert bs[0..|bs|] == bs;
    UnmarkedRoot(Decode(bs, limits).value);
  }

  lemma {:induction false} UnmarkedRoot(n: Node)
    requires n.Node? && Encodable(n, true) && !Bit(n.flags, FLAG_PARTIAL_INDENT)
    ensures Encodable(n, false)
  {
  }

  /** The reader accepts exactly the encodings of the trees the writer accepts, and nothing else. */
  lemma {:induction false} AcceptedBytes(bs: Bytes, limits: SerializationLimits)
    ensures Decode(bs, limits).Ok? <==>
            |bs| <= limits.maxInputBytes
            && exists n :: Accepts(n, limits.(maxOutputBytes := |bs|)) && Encoding(n) == bs
  {
    hide Parse;
    if Decode(bs, limits).Ok? {
      EncodeAfterDecode(bs, limits);
      assert Accepts(Decode(bs, limits).value, limits.(maxOutputBytes := |bs|));
    }
    if n :| |bs| <= limits.maxInputBytes && Accepts(n, limits.(maxOutputBytes := |bs|)) && Encoding(n) == bs {
      LimitsAlike(n, bs, limits);
    }
  }

  /** Reading does not consult the output limit. */
  lemma {:induction false} LimitsAlike(n: Node, bs: Bytes, limits: SerializationLimits)
    requires Accepts(n, limits.(maxOutputBytes := |bs|)) && Encoding(n) == bs && |bs| <= limits.maxInputBytes
    ensures Decode(bs, limits).Ok?
  {
    hide Parse;
    assert bs[0..|bs|] == bs;
    ParseEncoding(n, false, bs, 0, |bs|, 0, Counters(0, 0), limits);
  }

  /** No accepted string is a proper prefix of another, whatever the limits it was accepted under. */
  lemma {:induction false} PrefixFree(bs: Bytes, more: Bytes, limits: SerializationLimits, limits': SerializationLimits)
    requires Decode(bs, limits).Ok? && Decode(bs + more, limits').Ok?
    ensures more == []
  {
    hide Parse, ParseHead, Prefix, U32, Payload;
    SizeFromHeader(bs, limits);
    SizeFromHeader(bs + more, limits');
    FieldsMove(bs + more, 0, bs[..HEADER_SIZE]);
    FieldsMove(bs, 0, bs[..HEADER_SIZE]);
  }

  /** The header of an accepted string determines its length. */
  lemma {:induction false} SizeFromHeader(bs: Bytes, limits: SerializationLimits)
    requires Decode(bs, limits).Ok?
    ensures |bs| >= HEADER_SIZE && |bs| == HEADER_SIZE + FieldsAt(bs, 0).size + FieldsAt(bs, 0).bodySize
  {
    hide ParseAll, FieldsAt, ShapeAllowed, Parts;
  }

  // ---- What the format drops ----------------------------------------------------------------------------

  /** The second tree says what the first does: it differs at most in delimiters that were left open and are now the default
      ones, and in original section texts that its own children print. */
  predicate SaysTheSame(n: Node, m: Node) {
    match n
    case Null => m.Null?
    case Node(kind, flags, data, children, _, start, stop, _) =>
      && m.Node? && m.kind == kind && m.flags == flags && m.data == data
      && (kind.TypeSection? ==>
            (start.Some? ==> m.start == start) && (stop.Some? ==> m.stop == stop)
            && (start.None? && m.start.Some? ==> m.start.value == OPEN) && (stop.None? && m.stop.Some? ==> m.stop.value == CLOSE))
      && (OriginalText(n).Some? ==> OriginalText(n).value == NodesText(m.children, OPEN, CLOSE, true))
      && AllSayTheSame(children, m.children)
  }

  predicate AllSayTheSame(ns: seq<Node>, ms: seq<Node>) {
    |ms| == |ns| && (ns == [] || (SaysTheSame(ns[0], ms[0]) && AllSayTheSame(ns[1..], ms[1..])))
  }

  /** Whatever the writer accepts, the reader's tree says the same. */
  lemma {:induction false} NothingLost(n: Node, marker: bool)
    requires Encodable(n, marker)
    ensures SaysTheSame(n, Stored(n))
    decreases n, 1
  {
    hide NodesText, EncodingAll;
    AllNothingLost(n.children);
    StoredAllPrints(n.children, OPEN, CLOSE, true);
  }

  lemma {:induction false} AllNothingLost(ns: seq<Node>)
    requires EncodableAll(ns)
    ensures AllSayTheSame(ns, StoredAll(ns))
    decreases ns, 0
  {
    hide Encodable, Stored;
    if ns != [] {
      NothingLost(ns[0], IsMarker(ns[0]));
      AllNothingLost(ns[1..]);
    }
  }

  /** Printing does not see what storing drops. */
  lemma {:induction false} StoredPrints(n: Node, start: Bytes, stop: Bytes)
    ensures NodeText(Stored(n), start, stop) == NodeText(n, start, stop)
    decreases n, 1
  {
    if n.Node? {
      StoredAllPrints(n.children, start, stop, false);
    }
  }

  lemma {:induction false} StoredAllPrints(ns: seq<Node>, start: Bytes, stop: Bytes, skipStops: bool)
    ensures NodesText(StoredAll(ns), start, stop, skipStops) == NodesText(ns, start, stop, skipStops)
    decreases ns, 0
  {
    hide HeadText;
    if ns != [] {
      StoredPrints(ns[0], start, stop);
      StoredAllPrints(ns[1..], start, stop, skipStops);
    }
  }
}
