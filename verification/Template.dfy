/** The template tree (`Node`), its type codes and its flag bits. */
module Template {
  import opened Base

  /** The node types; `TypeOther` stands for every integer that is not an enumerator with a meaning of its own. */
  datatype Type =
    | TypeNone
    | TypeRoot
    | TypeOutput
    | TypeTag
    | TypeContainer
    | TypeVariable
    | TypeNegate
    | TypeSection
    | TypeStop
    | TypeComment
    | TypePartial
    | TypeInlinePartial
    | TypeOther(code: int)

  function Code(t: Type): int {
    match t
    case TypeNone => 0
    case TypeRoot => 1
    case TypeOutput => 2
    case TypeTag => 4
    case TypeContainer => 8
    case TypeVariable => 16
    case TypeNegate => 32
    case TypeSection => 64
    case TypeStop => 128
    case TypeComment => 256
    case TypePartial => 512
    case TypeInlinePartial => 1024
    case TypeOther(code) => code
  }

  /** The type a stored code denotes; `Code` is its inverse. */
  function TypeOf(code: int): (t: Type)
    ensures Code(t) == code
  {
    if code == 0 then TypeNone
    else if code == 1 then TypeRoot
    else if code == 2 then TypeOutput
    else if code == 4 then TypeTag
    else if code == 8 then TypeContainer
    else if code == 16 then TypeVariable
    else if code == 32 then TypeNegate
    else if code == 64 then TypeSection
    else if code == 128 then TypeStop
    else if code == 256 then TypeComment
    else if code == 512 then TypePartial
    else if code == 1024 then TypeInlinePartial
    else TypeOther(code)
  }

  predicate IsSerializableType(t: Type) {
    t.TypeRoot? || t.TypeOutput? || t.TypeTag? || t.TypeVariable? || t.TypeNegate? || t.TypeSection? ||
    t.TypeStop? || t.TypeComment? || t.TypePartial? || t.TypeInlinePartial?
  }

  // The four type masks of the program.

  predicate HasChildren(t: Type) {
    var c := Code(t);
    Bit(c, 1) || Bit(c, 32) || Bit(c, 64) || Bit(c, 1024)
  }

  predicate HasData(t: Type) {
    var c := Code(t);
    Bit(c, 16) || Bit(c, 32) || Bit(c, 64) || Bit(c, 512)
  }

  predicate HasNoString(t: Type) {
    var c := Code(t);
    Bit(c, 1) || Bit(c, 8)
  }

  predicate HasDot(t: Type) {
    var c := Code(t);
    Bit(c, 32) || Bit(c, 64) || Bit(c, 128) || Bit(c, 4) || Bit(c, 16)
  }

  const FLAG_NONE := 0
  const FLAG_ESCAPE := 1
  const FLAG_LAMBDA_ONLY := 2
  const FLAG_PARTIAL_INDENT := 4
  /** The flags of an indentation marker: lambda-only and partial-indent together. */
  const FLAGS_MARKER := 6

  /** A slice of a shared, immutable source buffer; `buffer` is the identity of the buffer that holds `text`. */
  datatype SourceSlice = SourceSlice(buffer: nat, text: Bytes, begin: nat, length: nat)

  type Source = s: SourceSlice | s.begin + s.length <= |s.text| witness SourceSlice(0, [], 0, 0)

  /** A template node; `Null` is an empty owning pointer. */
  datatype Node =
    | Null
    | Node(
        kind: Type,
        flags: int,
        data: Option<Bytes>,
        children: seq<Node>,
        child: Node,
        start: Option<Bytes>,
        stop: Option<Bytes>,
        source: Option<Source>)

  /** The original section text: only a section that still has its source keeps one. */
  function OriginalText(n: Node): Option<Bytes>
    requires n.Node?
  {
    if n.kind.TypeSection? && n.source.Some? then
      var s := n.source.value;
      Some(s.text[s.begin..s.begin + s.length])
    else
      None
  }

  predicate IsMarker(n: Node) {
    n.Node? && n.kind.TypeOutput? && n.flags == FLAGS_MARKER && n.data.Some? && IsIndentation(n.data.value)
  }

  function NodeCount(n: Node): nat {
    match n
    case Null => 0
    case Node(_, _, _, children, _, _, _, _) => 1 + NodeCountAll(children)
  }

  function NodeCountAll(ns: seq<Node>): nat {
    if ns == [] then 0 else NodeCount(ns[0]) + NodeCountAll(ns[1..])
  }

  /** The number of nodes on the longest path from this node down. */
  function Height(n: Node): nat {
    match n
    case Null => 0
    case Node(_, _, _, children, _, _, _, _) => 1 + HeightAll(children)
  }

  function HeightAll(ns: seq<Node>): nat {
    if ns == [] then 0 else Max(Height(ns[0]), HeightAll(ns[1..]))
  }

  // Flag and shape rules shared by both stored formats.

  predicate FlagsAllowed(kind: Type, flags: int) {
    0 <= flags < 8
    && (Bit(flags, FLAG_LAMBDA_ONLY) ==>
          kind.TypeOutput? && (flags == FLAG_LAMBDA_ONLY || flags == FLAGS_MARKER))
    && (Bit(flags, FLAG_PARTIAL_INDENT) ==> kind.TypeOutput? && flags == FLAGS_MARKER)
  }

  predicate ShapeAllowed(kind: Type, flags: int, hasData: bool, children: nat) {
    IsSerializableType(kind)
    && FlagsAllowed(kind, flags)
    && (kind.TypeRoot? <==> !hasData)
    && (children > 0 ==> HasChildren(kind))
  }

  /** Every indentation marker among these siblings is well formed and directly precedes a partial. */
  predicate MarkersPlaced(children: seq<Node>) {
    forall i :: 0 <= i < |children| && children[i].Node? && Bit(children[i].flags, FLAG_PARTIAL_INDENT) ==>
      IsMarker(children[i]) && i + 1 < |children| && children[i + 1].Node? && children[i + 1].kind.TypePartial?
  }

  /** The sibling scan as the legacy codec runs it: past a well-placed marker it skips the partial unexamined. */
  predicate MarkersFrom(children: seq<Node>, i: nat)
    decreases |children| - i
  {
    if i >= |children| then true
    else if children[i].Null? || !Bit(children[i].flags, FLAG_PARTIAL_INDENT) then MarkersFrom(children, i + 1)
    else
      IsMarker(children[i]) && i + 1 < |children| && children[i + 1].Node? && children[i + 1].kind.TypePartial?
      && MarkersFrom(children, i + 2)
  }

  /** The dotted components of a name, counted as both stored formats charge them. */
  function Parts(kind: Type, data: Bytes): nat {
    if HasDot(kind) then Count(data, DOT) + 1 else 0
  }

  function NodeParts(n: Node): nat
    requires n.Node?
  {
    if n.data.Some? then Parts(n.kind, n.data.value) else 0
  }

  function PartCount(n: Node): nat {
    match n
    case Null => 0
    case Node(_, _, _, children, _, _, _, _) => NodeParts(n) + PartCountAll(children)
  }

  function PartCountAll(ns: seq<Node>): nat {
    if ns == [] then 0 else PartCount(ns[0]) + PartCountAll(ns[1..])
  }

  /** Every node of the tree stays within the per-node component limit. */
  predicate PartsWithin(n: Node, maximum: nat) {
    match n
    case Null => true
    case Node(_, _, _, children, _, _, _, _) => NodeParts(n) <= maximum && PartsWithinAll(children, maximum)
  }

  predicate PartsWithinAll(ns: seq<Node>, maximum: nat) {
    ns == [] || (PartsWithin(ns[0], maximum) && PartsWithinAll(ns[1..], maximum))
  }
}
