/** The reader of the legacy serialized form, and its agreement with the writer. */
module Decoder {
  import opened Base
  import opened Template
  import opened Printer
  import opened Codec

  datatype Counters = Counters(nodes: nat, parts: nat)

  datatype Parsed = Parsed(node: Node, pos: nat, used: Counters)

  datatype ParsedAll = ParsedAll(nodes: seq<Node>, pos: nat, used: Counters)

  function U16At(b: Bytes, p: nat): nat
    requires p + 2 <= |b|
  {
    b[p] as int * 0x100 + b[p + 1]
  }

  function U24At(b: Bytes, p: nat): nat
    requires p + 3 <= |b|
  {
    b[p] as int * 0x1_0000 + b[p + 1] as int * 0x100 + b[p + 2]
  }

  function U32At(b: Bytes, p: nat): nat
    requires p + 4 <= |b|
  {
    b[p] as int * 0x100_0000 + b[p + 1] as int * 0x1_0000 + b[p + 2] as int * 0x100 + b[p + 3]
  }

  /** The delimiters a decoded section regains. */
  function Delimiter(kind: Type, value: Bytes): Option<Bytes> {
    if kind.TypeSection? then Some(value) else None
  }

  /** One node without its children: they lie in the window from `pos` to `end`. */
  datatype Head = Head(kind: Type, flags: int, data: Option<Bytes>, count: nat, pos: nat, end: nat, used: Counters)

  function HeadNode(h: Head, children: seq<Node>): Node {
    Node(h.kind, h.flags, h.data, children, Null, Delimiter(h.kind, OPEN), Delimiter(h.kind, CLOSE), None)
  }

  /** The fixed-size fields of a node header. */
  datatype Fields = Fields(kind: Type, flags: int, size: nat, count: nat, bodySize: nat)

  function FieldsAt(bs: Bytes, pos: nat): (f: Fields)
    requires pos + HEADER_SIZE <= |bs|
  {
    Fields(TypeOf(U16At(bs, pos + 2)), bs[pos + 4], U24At(bs, pos + 5), U16At(bs, pos + 8), U32At(bs, pos + 10))
  }

  function ParseHead(bs: Bytes, pos: nat, limit: nat, depth: nat, used: Counters, limits: SerializationLimits)
    : (r: Result<Head>)
    requires pos <= limit <= |bs|
    ensures r.Ok? ==> pos + HEADER_SIZE <= r.value.pos <= r.value.end <= limit
  {
    if depth >= limits.maxNestingDepth then Err(SerialNestingLimit)
    else if used.nodes >= limits.maxNodes then Err(SerialNodeLimit)
    else if limit - pos < HEADER_SIZE then Err(TruncatedHeader)
    else if bs[pos] != 'M' as int || bs[pos + 1] != 'U' as int then Err(SerialMagic)
    else ParseRest(bs, FieldsAt(bs, pos), pos + HEADER_SIZE, limit, used, limits)
  }

  /** The checks that follow the fixed-size fields; `p` is where the data begins. */
  function ParseRest(bs: Bytes, f: Fields, p: nat, limit: nat, used: Counters, limits: SerializationLimits)
    : (r: Result<Head>)
    requires p <= limit <= |bs|
    ensures r.Ok? ==> p <= r.value.pos <= r.value.end <= limit
  {
    if !ShapeAllowed(f.kind, f.flags, f.size > 0, f.count) then Err(SerialShape)
    else if f.size > limit - p then Err(TruncatedData)
    else if f.size > 0 && bs[p + f.size - 1] != 0 then Err(SerialTerminator)
    else
      var data := if f.size > 0 then Some(bs[p..p + f.size - 1]) else None;
      var parts := if f.size > 0 then Parts(f.kind, data.value) else 0;
      var q := p + f.size;
      if parts > limits.maxDataPartsPerNode || used.parts + parts > limits.maxDataParts then
        Err(SerialPartLimit)
      else if f.bodySize > limit - q then Err(TruncatedChildren)
      else if f.count > 0 && f.bodySize / HEADER_SIZE < f.count then Err(SerialChildSize)
      else Ok(Head(f.kind, f.flags, data, f.count, q, q + f.bodySize, Counters(used.nodes + 1, used.parts + parts)))
  }

  /** What reading yields for the bytes at `pos`, with every read confined to the window that ends at `limit`. */
  function Parse(bs: Bytes, pos: nat, limit: nat, depth: nat, used: Counters, limits: SerializationLimits)
    : (r: Result<Parsed>)
    requires pos <= limit <= |bs|
    ensures r.Ok? ==> pos + HEADER_SIZE <= r.value.pos <= limit && r.value.node.Node?
    decreases limit - pos, 0
  {
    var h :- ParseHead(bs, pos, limit, depth, used, limits);
    var children :- ParseAll([], h.count, bs, h.pos, h.end, depth + 1, h.used, limits);
    if !MarkersFrom(children.nodes, 0) then Err(SerialMarker)
    else if children.pos != h.end then Err(SerialChildSize)
    else Ok(Parsed(HeadNode(h, children.nodes), h.end, children.used))
  }

  /** Reads `count` more siblings after the ones in `done`. */
  function ParseAll(done: seq<Node>, count: nat, bs: Bytes, pos: nat, limit: nat, depth: nat, used: Counters,
                    limits: SerializationLimits)
    : (r: Result<ParsedAll>)
    requires pos <= limit <= |bs|
    ensures r.Ok? ==> pos <= r.value.pos <= limit
    decreases limit - pos, 1, count
  {
    if count == 0 then Ok(ParsedAll(done, pos, used))
    else
      var next :- Parse(bs, pos, limit, depth, used, limits);
      ParseAll(done + [next.node], count - 1, bs, next.pos, limit, depth, next.used, limits)
  }

  /** `unserializeOwned` on the whole of bs: one node, no trailing bytes, no marker at the root. */
  function Decode(bs: Bytes, limits: SerializationLimits): Result<Node> {
    if |bs| > limits.maxInputBytes then Err(SerialSizeLimit)
    else
      var root :- Parse(bs, 0, |bs|, 0, Counters(0, 0), limits);
      if Bit(root.node.flags, FLAG_PARTIAL_INDENT) then Err(SerialMarker)
      else if root.pos != |bs| then Err(TrailingData)
      else Ok(root.node)
  }

  // ---- The reader ---------------------------------------------------------------------------

  class SerialReader {
    const serial: Bytes
    var pos: nat

    constructor (serial: Bytes, offset: nat)
      ensures this.serial == serial && pos == offset
    {
      this.serial := serial;
      pos := offset;
    }

    method ReadByte(limit: nat) returns (b: byte)
      requires pos < limit <= |serial|
      modifies this`pos
      ensures b == serial[old(pos)] && pos == old(pos) + 1
    {
      b := serial[pos];
      pos := pos + 1;
    }

    method ReadUint16(limit: nat) returns (v: nat)
      requires pos + 2 <= limit <= |serial|
      modifies this`pos
      ensures v == U16At(serial, old(pos)) && pos == old(pos) + 2
    {
      var high := ReadByte(limit);
      var low := ReadByte(limit);
      v := high as int * 0x100 + low;
    }

    method ReadUint24(limit: nat) returns (v: nat)
      requires pos + 3 <= limit <= |serial|
      modifies this`pos
      ensures v == U24At(serial, old(pos)) && pos == old(pos) + 3
    {
      var high := ReadByte(limit);
      var low := ReadUint16(limit);
      v := high as int * 0x1_0000 + low;
    }

    method ReadUint32(limit: nat) returns (v: nat)
      requires pos + 4 <= limit <= |serial|
      modifies this`pos
      ensures v == U32At(serial, old(pos)) && pos == old(pos) + 4
    {
      var high := ReadByte(limit);
      var low := ReadUint24(limit);
      v := high as int * 0x100_0000 + low;
    }

    method ReadString(length: nat, limit: nat) returns (s: Bytes)
      requires pos + length <= limit <= |serial|
      modifies this`pos
      ensures s == serial[old(pos)..old(pos) + length] && pos == old(pos) + length
    {
      s := serial[pos..pos + length];
      pos := pos + length;
    }

    method ReadFields(limit: nat) returns (f: Fields)
      requires pos + 12 <= limit <= |serial| && pos >= 2
      modifies this`pos
      ensures f == FieldsAt(serial, old(pos) - 2) && pos == old(pos) + 12
    {
      var code := ReadUint16(limit);
      var flags := ReadByte(limit);
      var dataSize := ReadUint24(limit);
      var childrenNum := ReadUint16(limit);
      var childrenSize := ReadUint32(limit);
      f := Fields(TypeOf(code), flags, dataSize, childrenNum, childrenSize);
    }

    method ReadHead(limit: nat, state: SerialState, depth: nat) returns (r: Result<Head>)
      requires pos <= limit <= |serial| && state.Valid()
      modifies this`pos, state
      ensures r == ParseHead(serial, old(pos), limit, depth, old(Counters(state.nodes, state.dataParts)), state.limits)
      ensures r.Ok? ==> pos == r.value.pos && Counters(state.nodes, state.dataParts) == r.value.used && state.Valid()
    {
      var budget := state.CheckBudget(depth);
      if budget.Fail? {
        return Err(budget.error);
      }
      if limit - pos < HEADER_SIZE {
        return Err(TruncatedHeader);
      }
      var m := ReadByte(limit);
      var u := ReadByte(limit);
      if m != 'M' as int || u != 'U' as int {
        return Err(SerialMagic);
      }
      var f := ReadFields(limit);
      r := ReadRest(f, limit, state);
    }

    method ReadRest(f: Fields, limit: nat, state: SerialState) returns (r: Result<Head>)
      requires pos <= limit <= |serial| && state.Valid() && state.nodes > 0
      modifies this`pos, state
      ensures r == ParseRest(serial, f, old(pos), limit, old(Counters(state.nodes - 1, state.dataParts)), state.limits)
      ensures r.Ok? ==> pos == r.value.pos && Counters(state.nodes, state.dataParts) == r.value.used && state.Valid()
    {
      if !ShapeAllowed(f.kind, f.flags, f.size > 0, f.count) {
        return Err(SerialShape);
      }
      if f.size > limit - pos {
        return Err(TruncatedData);
      }
      var data := None;
      if f.size > 0 {
        var text := ReadString(f.size - 1, limit);
        var terminator := ReadByte(limit);
        if terminator != 0 {
          return Err(SerialTerminator);
        }
        var checked := state.ValidateNodeData(f.kind, text);
        if checked.Fail? {
          return Err(checked.error);
        }
        data := Some(text);
      }
      if f.bodySize > limit - pos {
        return Err(TruncatedChildren);
      }
      if f.count > 0 && f.bodySize / HEADER_SIZE < f.count {
        return Err(SerialChildSize);
      }
      return Ok(Head(f.kind, f.flags, data, f.count, pos, pos + f.bodySize, Counters(state.nodes, state.dataParts)));
    }

    method ReadNode(limit: nat, state: SerialState, depth: nat) returns (r: Result<Node>)
      requires pos <= limit <= |serial| && state.Valid()
      modifies this`pos, state
      ensures var spec := Parse(serial, old(pos), limit, depth, old(Counters(state.nodes, state.dataParts)), state.limits);
              if r.Ok? then spec == Ok(Parsed(r.value, pos, Counters(state.nodes, state.dataParts))) && state.Valid()
              else spec == Err(r.error)
      decreases limit - pos, 0
    {
      var head :- ReadHead(limit, state, depth);
      var children :- ReadChildren(head.count, head.end, state, depth + 1);
      if !MarkersFrom(children, 0) {
        return Err(SerialMarker);
      }
      if pos != head.end {
        return Err(SerialChildSize);
      }
      return Ok(HeadNode(head, children));
    }

    method ReadChildren(count: nat, limit: nat, state: SerialState, depth: nat) returns (r: Result<seq<Node>>)
      requires pos <= limit <= |serial| && state.Valid()
      modifies this`pos, state
      ensures var spec := ParseAll([], count, serial, old(pos), limit, depth,
                                   old(Counters(state.nodes, state.dataParts)), state.limits);
              if r.Ok? then spec == Ok(ParsedAll(r.value, pos, Counters(state.nodes, state.dataParts))) && state.Valid()
              else spec == Err(r.error)
      decreases limit - pos, 1
    {
      hide ParseHead;
      var children := [];
      var i := 0;
      ghost var L := state.limits;
      ghost var whole := ParseAll([], count, serial, pos, limit, depth, Counters(state.nodes, state.dataParts), L);
      while i < count
        invariant 0 <= i <= count && old(pos) <= pos <= limit && state.Valid()
        invariant i > 0 ==> pos > old(pos)
        invariant ParseAll(children, count - i, serial, pos, limit, depth, Counters(state.nodes, state.dataParts), L) == whole
      {
        var child :- ReadNode(limit, state, depth);
        children := children + [child];
        i := i + 1;
      }
      return Ok(children);
    }
  }

  method UnserializeOwned(serial: Bytes, limits: SerializationLimits) returns (r: Result<Node>)
    ensures r == Decode(serial, limits)
  {
    if |serial| > limits.maxInputBytes {
      return Err(SerialSizeLimit);
    }
    var reader := new SerialReader(serial, 0);
    var state := new SerialState(limits);
    var node :- reader.ReadNode(|serial|, state, 0);
    if Bit(node.flags, FLAG_PARTIAL_INDENT) {
      return Err(SerialMarker);
    }
    if reader.pos != |serial| {
      return Err(TrailingData);
    }
    return Ok(node);
  }
}
