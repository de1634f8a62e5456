/** The legacy serialized form: a length-prefixed nested byte format, its writer and its windowed reader. */
module Codec {
  import opened Base
  import opened Template
  import opened Printer

  const HEADER_SIZE: nat := 14
  const MAX_DATA_SIZE: nat := 0xff_ffff
  const MAX_CHILDREN: nat := 0xffff

  datatype SerializationLimits = SerializationLimits(
    maxInputBytes: nat,
    maxOutputBytes: nat,
    maxNestingDepth: nat,
    maxNodes: nat,
    maxDataPartsPerNode: nat,
    maxDataParts: nat)

  // ---- The format -------------------------------------------------------------------------

  function U16(v: int): (b: Bytes)
    ensures |b| == 2
  {
    [v / 0x100 % 0x100, v % 0x100]
  }

  function U24(v: int): (b: Bytes)
    ensures |b| == 3
  {
    [v / 0x1_0000 % 0x100, v / 0x100 % 0x100, v % 0x100]
  }

  function U32(v: int): (b: Bytes)
    ensures |b| == 4
  {
    [v / 0x100_0000 % 0x100, v / 0x1_0000 % 0x100, v / 0x100 % 0x100, v % 0x100]
  }

  function PayloadSize(n: Node): nat
    requires n.Node?
  {
    if n.data.Some? then |n.data.value| + 1 else 0
  }

  function Payload(n: Node): (b: Bytes)
    requires n.Node?
    ensures |b| == PayloadSize(n)
  {
    if n.data.Some? then n.data.value + [0] else []
  }

  /** Everything in the header that precedes the size of the children. */
  function Prefix(n: Node): (b: Bytes)
    requires n.Node?
    ensures |b| == 10
  {
    ['M' as int, 'U' as int] + U16(Code(n.kind)) + [n.flags % 0x100] + U24(PayloadSize(n)) + U16(|n.children|)
  }

  function Encoding(n: Node): Bytes {
    match n
    case Null => []
    case Node(_, _, _, children, _, _, _, _) =>
      var body := EncodingAll(children);
      Prefix(n) + U32(|body|) + Payload(n) + body
  }

  function EncodingAll(ns: seq<Node>): Bytes {
    if ns == [] then [] else Encoding(ns[0]) + EncodingAll(ns[1..])
  }

  // ---- Which trees the format can hold ------------------------------------------------------

  /** The checks the writer makes on one node; `marker` says that it stands where an indentation marker may. */
  predicate NodeEncodable(n: Node, marker: bool)
    requires n.Node?
  {
    && ShapeAllowed(n.kind, n.flags, n.data.Some?, |n.children|)
    && (n.kind.TypeSection? ==>
          (n.start.Some? ==> n.start.value == OPEN) && (n.stop.Some? ==> n.stop.value == CLOSE))
    && (Bit(n.flags, FLAG_PARTIAL_INDENT) ==> marker)
    && MarkersFrom(n.children, 0)
    && |n.children| <= MAX_CHILDREN
    && (n.data.Some? ==> |n.data.value| < MAX_DATA_SIZE)
  }

  /** The format drops original section text, so it must be what reconstruction would give. */
  predicate SourceExpendable(n: Node)
    requires n.Node?
  {
    OriginalText(n).Some? ==> OriginalText(n).value == NodesText(n.children, OPEN, CLOSE, true)
  }

  predicate Encodable(n: Node, marker: bool) {
    match n
    case Null => false
    case Node(_, _, _, children, _, _, _, _) =>
      NodeEncodable(n, marker) && EncodableAll(children) && |EncodingAll(children)| <= MAX_UINT32 && SourceExpendable(n)
  }

  predicate EncodableAll(ns: seq<Node>) {
    ns == [] || (Encodable(ns[0], IsMarker(ns[0])) && EncodableAll(ns[1..]))
  }

  // ---- Budgets ------------------------------------------------------------------------------

  /** The node and name-component budgets of one run of the writer or of the reader. */
  class SerialState {
    const limits: SerializationLimits
    var nodes: nat
    var dataParts: nat

    constructor (limits: SerializationLimits)
      ensures this.limits == limits && nodes == 0 && dataParts == 0
    {
      this.limits := limits;
      nodes, dataParts := 0, 0;
    }

    predicate Valid()
      reads this
    {
      nodes <= limits.maxNodes && dataParts <= limits.maxDataParts
    }

    method CheckBudget(depth: nat) returns (r: Outcome)
      modifies this`nodes
      ensures r == if depth >= limits.maxNestingDepth then Fail(SerialNestingLimit)
                   else if old(nodes) >= limits.maxNodes then Fail(SerialNodeLimit) else Pass
      ensures r.Pass? ==> nodes == old(nodes) + 1
    {
      if depth >= limits.maxNestingDepth {
        return Fail(SerialNestingLimit);
      }
      if nodes >= limits.maxNodes {
        return Fail(SerialNodeLimit);
      }
      nodes := nodes + 1;
      return Pass;
    }

    method ValidateNodeData(kind: Type, data: Bytes) returns (r: Outcome)
      requires dataParts <= limits.maxDataParts
      modifies this`dataParts
      ensures r == if Parts(kind, data) <= limits.maxDataPartsPerNode
                      && old(dataParts) + Parts(kind, data) <= limits.maxDataParts then Pass
                   else Fail(SerialPartLimit)
      ensures r.Pass? ==> dataParts == old(dataParts) + Parts(kind, data)
    {
      if HasDot(kind) {
        var parts := Count(data, DOT) + 1;
        if parts > limits.maxDataPartsPerNode || dataParts > limits.maxDataParts
           || parts > limits.maxDataParts - dataParts {
          return Fail(SerialPartLimit);
        }
        dataParts := dataParts + parts;
      }
      return Pass;
    }

  }

  // ---- Writer -------------------------------------------------------------------------------

  class SerialWriter {
    const limits: SerializationLimits
    const state: SerialState
    var output: Bytes

    constructor (limits: SerializationLimits)
      ensures Valid() && fresh(state) && this.limits == limits
      ensures state.nodes == 0 && state.dataParts == 0 && output == []
    {
      this.limits := limits;
      state := new SerialState(limits);
      output := [];
    }

    predicate Valid()
      reads this, state
    {
      state.limits == limits && state.Valid() && |output| <= limits.maxOutputBytes
    }

    /** Room for this many more nodes, name components and bytes. */
    predicate Fits(count: nat, parts: nat, bytes: nat)
      reads this, state
    {
      state.nodes + count <= limits.maxNodes && state.dataParts + parts <= limits.maxDataParts
      && |output| + bytes <= limits.maxOutputBytes
    }

    /** Appends a field whose room has been reserved; the program's check of every byte cannot fail then. */
    method Append(value: Bytes)
      requires |output| + |value| <= limits.maxOutputBytes
      modifies this`output
      ensures output == old(output) + value
    {
      output := output + value;
    }

    /** Overwrites four bytes in place. */
    method WriteUint32(pos: nat, value: nat)
      requires pos + 4 <= |output|
      modifies this`output
      ensures output == old(output)[..pos] + U32(value) + old(output)[pos + 4..]
    {
      output := output[..pos] + U32(value) + output[pos + 4..];
    }

    method ValidateNode(n: Node, depth: nat, marker: bool) returns (r: Outcome)
      requires n.Node? && Valid()
      modifies state
      ensures r.Pass? <==> NodeEncodable(n, marker) && depth < limits.maxNestingDepth
                           && NodeParts(n) <= limits.maxDataPartsPerNode && old(Fits(1, NodeParts(n), 0))
      ensures r.Pass? ==> state.nodes == old(state.nodes) + 1 && state.dataParts == old(state.dataParts) + NodeParts(n)
    {
      r := Pass;
      :- state.CheckBudget(depth);
      if !ShapeAllowed(n.kind, n.flags, n.data.Some?, |n.children|) {
        return Fail(SerialShape);
      }
      if n.kind.TypeSection? && ((n.start.Some? && n.start.value != OPEN) || (n.stop.Some? && n.stop.value != CLOSE)) {
        return Fail(SerialDelimiters);
      }
      if Bit(n.flags, FLAG_PARTIAL_INDENT) && !marker {
        return Fail(SerialMarker);
      }
      if !MarkersFrom(n.children, 0) {
        return Fail(SerialMarker);
      }
      if |n.children| > MAX_CHILDREN {
        return Fail(SerialChildCount);
      }
      if n.data.Some? {
        if |n.data.value| >= MAX_DATA_SIZE {
          return Fail(SerialDataSize);
        }
        :- state.ValidateNodeData(n.kind, n.data.value);
      }
      return Pass;
    }

    /** Header with a zero in place of the size of the children, then the data; returns where that zero stands. */
    method AppendHead(n: Node) returns (r: Outcome, childrenSizePos: nat)
      requires n.Node?
      modifies this`output
      ensures r.Pass? <==> |old(output)| + HEADER_SIZE + PayloadSize(n) <= limits.maxOutputBytes
      ensures r.Pass? ==> output == old(output) + Prefix(n) + U32(0) + Payload(n)
                          && childrenSizePos == |old(output)| + 10
    {
      childrenSizePos := 0;
      if |output| > limits.maxOutputBytes || HEADER_SIZE + PayloadSize(n) > limits.maxOutputBytes - |output| {
        return Fail(SerialSizeLimit), 0;
      }
      ghost var before := output;
      Append(['M' as int, 'U' as int]);
      Append(U16(Code(n.kind)));
      Append([n.flags % 0x100]);
      Append(U24(PayloadSize(n)));
      Append(U16(|n.children|));
      assert output == before + Prefix(n);
      childrenSizePos := |output|;
      Append(U32(0));
      if n.data.Some? {
        Append(n.data.value + [0]);
      }
      assert output == before + Prefix(n) + U32(0) + Payload(n);
      r := Pass;
    }

    /** The children already passed every limit, so reconstruction cannot fail on one. */
    method CheckSource(n: Node, depth: nat) returns (r: Outcome)
      requires n.Node? && EncodableAll(n.children) && depth + Height(n) <= limits.maxNestingDepth
      requires NodeCount(n) <= limits.maxNodes && |EncodingAll(n.children)| <= limits.maxOutputBytes
      ensures r.Pass? <==> SourceExpendable(n)
    {
      if OriginalText(n).None? {
        return Pass;
      }
      ReconstructionFits(n);
      var reconstruction := TemplateStringLimits(limits.maxOutputBytes, limits.maxNestingDepth - depth, limits.maxNodes);
      var text := ChildrenTemplateString(n, OPEN, CLOSE, reconstruction, limits.maxNestingDepth - depth);
      if text.Err? {
        assert false;
      }
      if text != Ok(OriginalText(n).value) {
        return Fail(SerialSource);
      }
      return Pass;
    }

    method SerializeNode(n: Node, depth: nat, marker: bool) returns (r: Outcome)
      requires n.Node? && Valid()
      modifies this, state
      ensures r.Pass? <==> Encodable(n, marker) && depth + Height(n) <= limits.maxNestingDepth
                           && PartsWithin(n, limits.maxDataPartsPerNode)
                           && old(Fits(NodeCount(n), PartCount(n), |Encoding(n)|))
      ensures r.Pass? ==> state.nodes == old(state.nodes) + NodeCount(n) && state.dataParts == old(state.dataParts) + PartCount(n)
                          && output == old(output) + Encoding(n)
      decreases n, 1
    {
      ghost var before := output;
      :- ValidateNode(n, depth, marker);
      var childrenSizePos;
      r, childrenSizePos := AppendHead(n);
      if r.Fail? {
        return;
      }
      var childrenStart := |output|;
      :- SerializeChildren(n, depth + 1);
      var childrenSize := |output| - childrenStart;
      if childrenSize > MAX_UINT32 {
        return Fail(SerialBodySize);
      }
      PatchedIsEncoding(n, before, output);
      WriteUint32(childrenSizePos, childrenSize);
      r := CheckSource(n, depth);
    }

    method SerializeChildren(n: Node, depth: nat) returns (r: Outcome)
      requires n.Node? && Valid() && depth <= limits.maxNestingDepth
      modifies this, state
      ensures r.Pass? <==> EncodableAll(n.children) && depth + HeightAll(n.children) <= limits.maxNestingDepth
                           && PartsWithinAll(n.children, limits.maxDataPartsPerNode)
                           && old(Fits(NodeCountAll(n.children), PartCountAll(n.children), |EncodingAll(n.children)|))
      ensures r.Pass? ==> state.nodes == old(state.nodes) + NodeCountAll(n.children)
                          && state.dataParts == old(state.dataParts) + PartCountAll(n.children)
                          && output == old(output) + EncodingAll(n.children)
      decreases n, 0
    {
      var cs := n.children;
      var i := 0;
      while i < |cs|
        invariant 0 <= i <= |cs| && Valid()
        invariant EncodableAll(cs) <==> EncodableAll(cs[i..])
        invariant depth + HeightAll(cs) <= limits.maxNestingDepth <==>
                  depth + HeightAll(cs[i..]) <= limits.maxNestingDepth
        invariant PartsWithinAll(cs, limits.maxDataPartsPerNode) <==>
                  PartsWithinAll(cs[i..], limits.maxDataPartsPerNode)
        invariant old(state.nodes) + NodeCountAll(cs) == state.nodes + NodeCountAll(cs[i..])
        invariant old(state.dataParts) + PartCountAll(cs) == state.dataParts + PartCountAll(cs[i..])
        invariant old(output) + EncodingAll(cs) == output + EncodingAll(cs[i..])
      {
        assert |old(output)| + |EncodingAll(cs)| == |output| + |EncodingAll(cs[i..])|;
        UnfoldEncoding(cs, i, output);
        assert cs[i..][0] == cs[i] && cs[i..][1..] == cs[i + 1..];
        if cs[i].Null? {
          return Fail(NullSerialChild);
        }
        :- SerializeNode(cs[i], depth, IsMarker(cs[i]));
        i := i + 1;
      }
      assert old(output) + EncodingAll(cs) == output + [] == output;
      r := Pass;
    }
  }

  /** What `serializeValue` accepts: a tree the format can hold, within each of the five limits. */
  predicate Accepts(n: Node, limits: SerializationLimits) {
    Encodable(n, false)
    && Height(n) <= limits.maxNestingDepth
    && NodeCount(n) <= limits.maxNodes
    && PartsWithin(n, limits.maxDataPartsPerNode) && PartCount(n) <= limits.maxDataParts
    && |Encoding(n)| <= limits.maxOutputBytes
  }

  method SerializeValue(n: Node, limits: SerializationLimits) returns (r: Result<Bytes>)
    requires n.Node?
    ensures r.Ok? <==> Accepts(n, limits)
    ensures r.Ok? ==> r.value == Encoding(n)
  {
    var writer := new SerialWriter(limits);
    var done := writer.SerializeNode(n, 0, false);
    if done.Fail? {
      return Err(done.error);
    }
    return Ok(writer.output);
  }

  /** Overwriting the reserved zero with the size of what follows the data completes the encoding. */
  lemma {:induction false} PatchedIsEncoding(n: Node, before: Bytes, output: Bytes)
    requires n.Node?
    requires output == before + Prefix(n) + U32(0) + Payload(n) + EncodingAll(n.children)
    ensures output[..|before| + 10] + U32(|EncodingAll(n.children)|) + output[|before| + 14..] == before + Encoding(n)
    ensures |Encoding(n)| == HEADER_SIZE + PayloadSize(n) + |EncodingAll(n.children)|
  {
    Splice(before, Prefix(n), U32(0), Payload(n), EncodingAll(n.children), U32(|EncodingAll(n.children)|));
  }

  lemma {:induction false} Splice(before: Bytes, prefix: Bytes, hole: Bytes, payload: Bytes, body: Bytes, size: Bytes)
    requires |prefix| == 10 && |hole| == 4 && |size| == 4
    ensures var output := before + prefix + hole + payload + body;
            output[..|before| + 10] + size + output[|before| + 14..] == before + (prefix + size + payload + body)
  {
    var output := before + prefix + hole + payload + body;
    assert output[..|before| + 10] == before + prefix;
    assert output[|before| + 14..] == payload + body;
  }

  lemma {:induction false} UnfoldEncoding(ns: seq<Node>, i: nat, before: Bytes)
    requires i < |ns|
    ensures before + EncodingAll(ns[i..]) == before + Encoding(ns[i]) + EncodingAll(ns[i + 1..])
    ensures |EncodingAll(ns[i..])| == |Encoding(ns[i])| + |EncodingAll(ns[i + 1..])|
  {
    assert ns[i..][0] == ns[i] && ns[i..][1..] == ns[i + 1..];
  }

  // ---- Reconstruction of an encodable body stays within the budgets its encoding met --------------

  lemma {:induction false} ReconstructionFits(n: Node)
    requires n.Node? && EncodableAll(n.children)
    ensures PrintableAll(n.children, true)
    ensures PrintHeightAll(n.children, true) <= HeightAll(n.children)
    ensures PrintCountAll(n.children, true) <= NodeCountAll(n.children)
    ensures |NodesText(n.children, OPEN, CLOSE, true)| <= |EncodingAll(n.children)|
  {
    PrintsWithin(n.children, true);
  }

  lemma {:induction false} PrintsWithin(ns: seq<Node>, skipStops: bool)
    requires EncodableAll(ns)
    ensures PrintableAll(ns, skipStops)
    ensures PrintHeightAll(ns, skipStops) <= HeightAll(ns)
    ensures PrintCountAll(ns, skipStops) <= NodeCountAll(ns)
    ensures |NodesText(ns, OPEN, CLOSE, skipStops)| <= |EncodingAll(ns)|
  {
    if ns != [] {
      PrintWithin(ns[0]);
      PrintsWithin(ns[1..], skipStops);
    }
  }

  lemma {:induction false} PrintWithin(n: Node)
    requires Encodable(n, IsMarker(n))
    ensures Printable(n) && PrintHeight(n) <= Height(n) && PrintCount(n) <= NodeCount(n)
    ensures |NodeText(n, OPEN, CLOSE)| <= |Encoding(n)|
    decreases n, 0
  {
    PrintsWithin(n.children, false);
  }
}
