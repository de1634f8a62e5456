/** The archived index table, and what it means for a table to denote a forest of template trees. */
module ArchiveGraph {
  import opened Base
  import opened Template

  type u8 = i: int | 0 <= i < 0x100
  type u16 = i: int | 0 <= i < 0x1_0000
  type u32 = i: int | 0 <= i < 0x1_0000_0000

  const MAGIC: int := 0x4D55535443495354
  const SCHEMA_VERSION: u32 := 2
  const INVALID: u32 := 0xffff_ffff

  /** The implementation's own ceiling on nesting, whatever the limits say. */
  const RENDER_NESTING_CEILING: nat := 256

  datatype Slice = Slice(offset: u32, length: u32)

  const NO_SLICE := Slice(0, 0)

  const HAS_DATA: u8 := 1
  const HAS_START: u8 := 2
  const HAS_STOP: u8 := 4
  const HAS_ORIGINAL: u8 := 8

  datatype ArchiveNode = ArchiveNode(
    data: Slice,
    startSequence: Slice,
    stopSequence: Slice,
    originalSectionText: Slice,
    firstChild: u32,
    nextSibling: u32,
    kind: u16,
    flags: u16,
    presence: u8,
    reserved0: u8,
    reserved1: u8,
    reserved2: u8)

  datatype ArchivePartial = ArchivePartial(name: Slice, root: u32)

  datatype Graph = Graph(
    magic: int,
    version: u32,
    root: u32,
    serializedSize: nat,
    nodes: seq<ArchiveNode>,
    partials: seq<ArchivePartial>,
    strings: Bytes)

  datatype ArchiveLimits = ArchiveLimits(
    maxArchiveBytes: nat,
    maxNestingDepth: nat,
    maxNodes: nat,
    maxTotalStringBytes: nat,
    maxDataPartsPerNode: nat,
    maxTotalDataParts: nat)

  function DepthLimit(limits: ArchiveLimits): nat {
    if limits.maxNestingDepth < RENDER_NESTING_CEILING then limits.maxNestingDepth else RENDER_NESTING_CEILING
  }

  // ---- One record -----------------------------------------------------------------------------

  predicate InRange(s: Slice, strings: Bytes) {
    s.offset + s.length <= |strings|
  }

  function View(s: Slice, strings: Bytes): Bytes
    requires InRange(s, strings)
  {
    strings[s.offset..s.offset + s.length]
  }

  /** The slice stores an optional string: an absent one is the zero slice. */
  predicate Holds(s: Slice, strings: Bytes, value: Option<Bytes>) {
    InRange(s, strings) && if value.Some? then View(s, strings) == value.value else s == NO_SLICE
  }

  function PresenceOf(n: Node): u8
    requires n.Node?
  {
    (if n.data.Some? then HAS_DATA else 0) + (if n.start.Some? then HAS_START else 0)
    + (if n.stop.Some? then HAS_STOP else 0) + (if OriginalText(n).Some? then HAS_ORIGINAL else 0)
  }

  /** The record stores the fields of n, links aside. */
  predicate Records(r: ArchiveNode, strings: Bytes, n: Node)
    requires n.Node?
  {
    && r.kind == Code(n.kind) && r.flags == n.flags && r.presence == PresenceOf(n)
    && r.reserved0 == 0 && r.reserved1 == 0 && r.reserved2 == 0
    && Holds(r.data, strings, n.data)
    && Holds(r.startSequence, strings, n.start)
    && Holds(r.stopSequence, strings, n.stop)
    && Holds(r.originalSectionText, strings, OriginalText(n))
  }

  // ---- Trees in a table -----------------------------------------------------------------------

  /** Following first-child and next-sibling links from record i spells out exactly the tree n. */
  predicate Denotes(nodes: seq<ArchiveNode>, strings: Bytes, i: u32, n: Node)
    decreases n, 0
  {
    n.Node? && n.child.Null? && i < |nodes| && Records(nodes[i], strings, n)
    && DenotesChain(nodes, strings, nodes[i].firstChild, n.children)
  }

  predicate DenotesChain(nodes: seq<ArchiveNode>, strings: Bytes, i: u32, ns: seq<Node>)
    decreases ns, 1
  {
    if i == INVALID then ns == []
    else
      ns != [] && i < |nodes| && Denotes(nodes, strings, i, ns[0])
      && DenotesChain(nodes, strings, nodes[i].nextSibling, ns[1..])
  }

  /** The indices of the records the tree occupies, parents first. */
  function Visited(nodes: seq<ArchiveNode>, strings: Bytes, i: u32, n: Node): seq<nat>
    requires Denotes(nodes, strings, i, n)
    decreases n, 0
  {
    [i] + VisitedChain(nodes, strings, nodes[i].firstChild, n.children)
  }

  function VisitedChain(nodes: seq<ArchiveNode>, strings: Bytes, i: u32, ns: seq<Node>): seq<nat>
    requires DenotesChain(nodes, strings, i, ns)
    decreases ns, 1
  {
    if i == INVALID then []
    else Visited(nodes, strings, i, ns[0]) + VisitedChain(nodes, strings, nodes[i].nextSibling, ns[1..])
  }

  /** The shape rules of the archive for one tree. */
  predicate WellShaped(n: Node, marker: bool) {
    match n
    case Null => false
    case Node(kind, flags, data, children, _, start, stop, _) =>
      && ShapeAllowed(kind, flags, data.Some?, |children|)
      && (Bit(flags, FLAG_PARTIAL_INDENT) ==> marker)
      && (start.Some? <==> stop.Some?) && (start.Some? ==> kind.TypeSection?)
      && MarkersPlaced(children)
      && WellShapedAll(children)
  }

  predicate WellShapedAll(ns: seq<Node>) {
    ns == [] || (WellShaped(ns[0], IsMarker(ns[0])) && WellShapedAll(ns[1..]))
  }

  predicate Distinct(s: seq<nat>) {
    forall i, j :: 0 <= i < j < |s| ==> s[i] != s[j]
  }
}
