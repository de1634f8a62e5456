/** The archive validator: a marking walk over an arbitrary table. */
module ArchiveValidator {
  import opened Base
  import opened Template
  import opened Partials
  import opened ArchiveGraph

  // ---- One record -----------------------------------------------------------------------------

  predicate Has(r: ArchiveNode, bit: u8)
    requires bit > 0
  {
    Bit(r.presence, bit)
  }

  /** The checks on a record by itself, in the program's order. */
  function CheckRecord(r: ArchiveNode, strings: Bytes, marker: bool): (checked: Outcome)
    ensures checked.Pass? ==> InRange(r.data, strings)
  {
    var kind := TypeOf(r.kind);
    if !IsSerializableType(kind) then Fail(ArchiveType)
    else if !FlagsAllowed(kind, r.flags) then Fail(ArchiveFlags)
    else if Bit(r.flags, FLAG_PARTIAL_INDENT) && !marker then Fail(ArchiveMarker)
    else if r.presence >= 16 then Fail(PresenceBits)
    else if r.reserved0 != 0 || r.reserved1 != 0 || r.reserved2 != 0 then Fail(ReservedBytes)
    else if kind.TypeRoot? == Has(r, HAS_DATA) then Fail(ArchiveData)
    else if !InRange(r.data, strings) then Fail(StringRange)
    else if !Has(r, HAS_DATA) && r.data != NO_SLICE then Fail(AbsentData)
    else if r.firstChild != INVALID && !HasChildren(kind) then Fail(ArchiveChildren)
    else if !InRange(r.startSequence, strings) || !InRange(r.stopSequence, strings) then Fail(StringRange)
    else if Has(r, HAS_START) != Has(r, HAS_STOP)
         || ((Has(r, HAS_START) || Has(r, HAS_STOP)) && !kind.TypeSection?)
         || (!Has(r, HAS_START) && (r.startSequence != NO_SLICE || r.stopSequence != NO_SLICE)) then Fail(ArchiveDelimiters)
    else if !InRange(r.originalSectionText, strings) then Fail(StringRange)
    else if (Has(r, HAS_ORIGINAL) && !kind.TypeSection?)
         || (!Has(r, HAS_ORIGINAL) && r.originalSectionText != NO_SLICE) then Fail(ArchiveOriginal)
    else Pass
  }

  /** The conditions under which the record of a child may carry the marker flag. */
  function CheckMarker(nodes: seq<ArchiveNode>, strings: Bytes, child: ArchiveNode): Outcome
    requires child.nextSibling == INVALID || child.nextSibling < |nodes|
  {
    if child.kind != Code(TypeOutput) || child.flags != FLAGS_MARKER || !Has(child, HAS_DATA)
       || child.nextSibling == INVALID then Fail(ArchiveMarker)
    else if !InRange(child.data, strings) then Fail(StringRange)
    else if !IsIndentation(View(child.data, strings)) || nodes[child.nextSibling].kind != Code(TypePartial) then
      Fail(ArchiveMarker)
    else Pass
  }

  function RecordParts(r: ArchiveNode, strings: Bytes): nat
    requires InRange(r.data, strings)
  {
    Parts(TypeOf(r.kind), View(r.data, strings))
  }

  // ---- The walk, as a function ------------------------------------------------------------------

  ghost function Indices(n: nat): (s: set<nat>)
    ensures |s| == n && forall i: nat :: i in s <==> i < n
  {
    if n == 0 then {} else Indices(n - 1) + {n - 1}
  }

  /** The records marked so far and the name components charged so far. */
  datatype Progress = Progress(seen: set<nat>, parts: nat)

  ghost predicate Within(p: Progress, nodes: seq<ArchiveNode>) {
    p.seen <= Indices(|nodes|)
  }

  function Visit(nodes: seq<ArchiveNode>, strings: Bytes, i: u32, depth: nat, marker: bool, p: Progress,
                 limits: ArchiveLimits): (r: Result<Progress>)
    requires Within(p, nodes)
    ensures r.Ok? ==> p.seen < r.value.seen && Within(r.value, nodes)
    decreases Indices(|nodes|) - p.seen, 0
  {
    if i >= |nodes| then Err(NodeIndex)
    else if depth >= limits.maxNestingDepth || depth >= RENDER_NESTING_CEILING then Err(ArchiveNesting)
    else if |p.seen| >= limits.maxNodes then Err(ArchiveNodeLimit)
    else if i in p.seen then Err(NotDisjoint)
    else
      var r := nodes[i];
      var checked := CheckRecord(r, strings, marker);
      if checked.Fail? then Err(checked.error)
      else
        var parts := RecordParts(r, strings);
        if parts > limits.maxDataPartsPerNode then Err(PartsPerNode)
        else if p.parts + parts > limits.maxTotalDataParts then Err(PartsTotal)
        else VisitChain(nodes, strings, r.firstChild, depth, Progress(p.seen + {i as nat}, p.parts + parts), limits)
  }

  /** The children that start at record i, below a parent at the given depth. */
  function VisitChain(nodes: seq<ArchiveNode>, strings: Bytes, i: u32, depth: nat, p: Progress, limits: ArchiveLimits)
    : (r: Result<Progress>)
    requires Within(p, nodes)
    ensures r.Ok? ==> p.seen <= r.value.seen && Within(r.value, nodes)
    decreases Indices(|nodes|) - p.seen, 1
  {
    if i == INVALID then Ok(p)
    else if i >= |nodes| then Err(ChildIndex)
    else
      var child := nodes[i];
      if child.nextSibling != INVALID && child.nextSibling >= |nodes| then Err(SiblingIndex)
      else
        var marker := Bit(child.flags, FLAG_PARTIAL_INDENT);
        var placed := if marker then CheckMarker(nodes, strings, child) else Pass;
        if placed.Fail? then Err(placed.error)
        else
          var q :- Visit(nodes, strings, i, depth + 1, marker, p, limits);
          VisitChain(nodes, strings, child.nextSibling, depth, q, limits)
  }

  lemma {:induction false} ChainStep(nodes: seq<ArchiveNode>, strings: Bytes, i: u32, depth: nat, p: Progress,
                                     limits: ArchiveLimits)
    requires Within(p, nodes)
    ensures VisitChain(nodes, strings, i, depth, p, limits)
         == if i == INVALID then Ok(p)
            else if i >= |nodes| then Err(ChildIndex)
            else if nodes[i].nextSibling != INVALID && nodes[i].nextSibling >= |nodes| then Err(SiblingIndex)
            else
              var marker := Bit(nodes[i].flags, FLAG_PARTIAL_INDENT);
              if marker && CheckMarker(nodes, strings, nodes[i]).Fail? then Err(CheckMarker(nodes, strings, nodes[i]).error)
              else
                match Visit(nodes, strings, i, depth + 1, marker, p, limits)
                case Ok(q) => VisitChain(nodes, strings, nodes[i].nextSibling, depth, q, limits)
                case Err(e) => Err(e)
  {
    hide Visit, CheckMarker;
  }

  lemma {:induction false} FewerLeft(n: nat, p: Progress, q: Progress, nodes: seq<ArchiveNode>)
    requires n == |nodes| && Within(p, nodes) && Within(q, nodes) && p.seen < q.seen
    ensures Indices(n) - q.seen < Indices(n) - p.seen
  {
    var i :| i in q.seen && i !in p.seen;
    assert i in Indices(n) - p.seen;
  }

  /** The checks on the k-th partial entry before its tree is walked. */
  function CheckPartial(g: Graph, k: nat): (checked: Outcome)
    requires k < |g.partials|
    requires k > 0 ==> InRange(g.partials[k - 1].name, g.strings)
    ensures checked.Pass? ==> InRange(g.partials[k].name, g.strings)
  {
    var partial := g.partials[k];
    if !InRange(partial.name, g.strings) then Fail(StringRange)
    else if View(partial.name, g.strings) == [] then Fail(EmptyPartialName)
    else if k > 0 && !Less(View(g.partials[k - 1].name, g.strings), View(partial.name, g.strings)) then Fail(PartialOrder)
    else if partial.root >= |g.nodes| then Fail(PartialRoot)
    else if g.nodes[partial.root].nextSibling != INVALID then Fail(PartialSibling)
    else Pass
  }

  /** The partials from the k-th on. */
  function VisitPartials(g: Graph, k: nat, p: Progress, limits: ArchiveLimits): (r: Result<Progress>)
    requires k <= |g.partials| && Within(p, g.nodes)
    requires k > 0 ==> InRange(g.partials[k - 1].name, g.strings)
    ensures r.Ok? ==> p.seen <= r.value.seen && Within(r.value, g.nodes)
    decreases |g.partials| - k
  {
    if k == |g.partials| then Ok(p)
    else
      var checked := CheckPartial(g, k);
      if checked.Fail? then Err(checked.error)
      else
        var q :- Visit(g.nodes, g.strings, g.partials[k].root, 0, false, p, limits);
        VisitPartials(g, k + 1, q, limits)
  }

  function Validation(g: Graph, inputBytes: nat, limits: ArchiveLimits): Outcome {
    if g.magic != MAGIC || g.nodes == [] then Fail(ArchiveHeader)
    else if g.version != SCHEMA_VERSION then Fail(ArchiveVersion)
    else if |g.nodes| > limits.maxNodes then Fail(ArchiveNodeLimit)
    else if inputBytes != 0 && g.serializedSize != inputBytes then Fail(ArchiveLength)
    else if |g.strings| > limits.maxTotalStringBytes then Fail(ArchiveStringLimit)
    else if g.root >= |g.nodes| || g.nodes[g.root].kind != Code(TypeRoot) then Fail(ArchiveRoot)
    else if g.nodes[g.root].nextSibling != INVALID then Fail(RootSibling)
    else
      match Visit(g.nodes, g.strings, g.root, 0, false, Progress({}, 0), limits)
      case Err(e) => Fail(e)
      case Ok(p) =>
        match VisitPartials(g, 0, p, limits)
        case Err(e) => Fail(e)
        case Ok(q) => if |q.seen| != |g.nodes| then Fail(UnreachableNode) else Pass
  }

  // ---- The walk, as the program runs it -----------------------------------------------------------

  class Validator {
    const graph: Graph
    const limits: ArchiveLimits
    const inputBytes: nat
    var states: seq<u8>
    var nodes: nat
    var dataParts: nat

    constructor (graph: Graph, limits: ArchiveLimits, inputBytes: nat)
      ensures this.graph == graph && this.limits == limits && this.inputBytes == inputBytes
      ensures nodes == 0 && dataParts == 0
    {
      this.graph, this.limits, this.inputBytes := graph, limits, inputBytes;
      states, nodes, dataParts := [], 0, 0;
    }

    ghost function Seen(): set<nat>
      reads this
    {
      set i: nat | i < |states| && states[i] != 0
    }

    ghost function Now(): Progress
      reads this
    {
      Progress(Seen(), dataParts)
    }

    ghost predicate Valid()
      reads this
    {
      |states| == |graph.nodes| && nodes == |Seen()|
    }

    lemma {:induction false} SeenWithin()
      requires Valid()
      ensures Within(Now(), graph.nodes)
    {
    }

    method Mark(i: nat)
      requires Valid() && i < |states| && states[i] == 0
      modifies this`states, this`nodes
      ensures Valid() && Seen() == old(Seen()) + {i} && |states| == old(|states|)
    {
      ghost var before := Seen();
      states := states[i := 1];
      nodes := nodes + 1;
      assert Seen() == before + {i};
    }

    method ValidateNode(i: u32, depth: nat, marker: bool) returns (r: Outcome)
      requires Valid() && Within(Now(), graph.nodes)
      modifies this
      ensures r == match Visit(graph.nodes, graph.strings, i, depth, marker, old(Now()), limits)
                   case Ok(_) => Pass
                   case Err(e) => Fail(e)
      ensures r.Pass? ==> Valid()
                          && Visit(graph.nodes, graph.strings, i, depth, marker, old(Now()), limits) == Ok(Now())
      decreases Indices(|graph.nodes|) - Now().seen, 0
    {
      hide CheckRecord, RecordParts, VisitChain;
      if i >= |graph.nodes| {
        return Fail(NodeIndex);
      }
      if depth >= limits.maxNestingDepth || depth >= RENDER_NESTING_CEILING {
        return Fail(ArchiveNesting);
      }
      if nodes >= limits.maxNodes {
        return Fail(ArchiveNodeLimit);
      }
      if states[i] != 0 {
        return Fail(NotDisjoint);
      }
      Mark(i);
      var record := graph.nodes[i];
      r := CheckRecord(record, graph.strings, marker);
      if r.Fail? {
        return;
      }
      var parts := RecordParts(record, graph.strings);
      if parts > limits.maxDataPartsPerNode {
        return Fail(PartsPerNode);
      }
      if parts > limits.maxTotalDataParts || dataParts > limits.maxTotalDataParts - parts {
        return Fail(PartsTotal);
      }
      dataParts := dataParts + parts;
      r := ValidateChildren(record, depth);
      if r.Pass? {
        Finish(i);
      }
    }

    /** A finished record stays marked. */
    method Finish(i: nat)
      requires Valid() && i < |states| && states[i] != 0
      modifies this`states
      ensures Valid() && Seen() == old(Seen())
    {
      ghost var before := Seen();
      states := states[i := 2];
      assert Seen() == before;
    }

    method ValidateChildren(record: ArchiveNode, depth: nat) returns (r: Outcome)
      requires Valid() && Within(Now(), graph.nodes)
      modifies this
      ensures r == match VisitChain(graph.nodes, graph.strings, record.firstChild, depth, old(Now()), limits)
                   case Ok(_) => Pass
                   case Err(e) => Fail(e)
      ensures r.Pass? ==> Valid()
                          && VisitChain(graph.nodes, graph.strings, record.firstChild, depth, old(Now()), limits) == Ok(Now())
      decreases Indices(|graph.nodes|) - Now().seen, 1
    {
      hide CheckRecord, RecordParts, CheckMarker, Within, Visit, VisitChain, Indices, Bit;
      hide Validator.Seen, Validator.Now, Validator.Valid;
      var i: u32 := record.firstChild;
      ghost var p := Now();
      ghost var whole := VisitChain(graph.nodes, graph.strings, i, depth, p, limits);
      while i != INVALID
        invariant Valid() && Now() == p && Within(p, graph.nodes)
        invariant old(Now()).seen <= p.seen && (i == record.firstChild || old(Now()).seen < p.seen)
        invariant VisitChain(graph.nodes, graph.strings, i, depth, p, limits) == whole
        decreases Indices(|graph.nodes|) - p.seen
      {
        ChainStep(graph.nodes, graph.strings, i, depth, p, limits);
        if i >= |graph.nodes| {
          return Fail(ChildIndex);
        }
        var child := graph.nodes[i];
        if child.nextSibling != INVALID && child.nextSibling >= |graph.nodes| {
          return Fail(SiblingIndex);
        }
        var marker := Bit(child.flags, FLAG_PARTIAL_INDENT);
        if marker {
          r := CheckMarker(graph.nodes, graph.strings, child);
          if r.Fail? {
            return;
          }
        }
        :- ValidateNode(i, depth + 1, marker);
        FewerLeft(|graph.nodes|, p, Now(), graph.nodes);
        p := Now();
        i := child.nextSibling;
      }
      ChainStep(graph.nodes, graph.strings, i, depth, p, limits);
      return Pass;
    }

    method ValidatePartials() returns (r: Outcome)
      requires Valid() && Within(Now(), graph.nodes)
      modifies this
      ensures r == match VisitPartials(graph, 0, old(Now()), limits)
                   case Ok(_) => Pass
                   case Err(e) => Fail(e)
      ensures r.Pass? ==> Valid() && VisitPartials(graph, 0, old(Now()), limits) == Ok(Now())
    {
      hide Visit, CheckPartial, View, Within, Validator.Seen, Validator.Now, Validator.Valid;
      var previousName: Bytes, hasPreviousName := [], false;
      var k := 0;
      ghost var p := Now();
      ghost var whole := VisitPartials(graph, 0, p, limits);
      while k < |graph.partials|
        invariant 0 <= k <= |graph.partials| && Valid() && Now() == p && Within(p, graph.nodes)
        invariant hasPreviousName == (k > 0)
        invariant k > 0 ==> InRange(graph.partials[k - 1].name, graph.strings)
                            && previousName == View(graph.partials[k - 1].name, graph.strings)
        invariant VisitPartials(graph, k, p, limits) == whole
      {
        r := ValidateEntry(k, previousName, hasPreviousName);
        if r.Fail? {
          return;
        }
        previousName, hasPreviousName := View(graph.partials[k].name, graph.strings), true;
        :- ValidateNode(graph.partials[k].root, 0, false);
        p := Now();
        k := k + 1;
      }
      return Pass;
    }

    method ValidateEntry(k: nat, previousName: Bytes, hasPreviousName: bool) returns (r: Outcome)
      requires k < |graph.partials| && hasPreviousName == (k > 0)
      requires k > 0 ==> InRange(graph.partials[k - 1].name, graph.strings)
                         && previousName == View(graph.partials[k - 1].name, graph.strings)
      ensures r == CheckPartial(graph, k)
    {
      var partial := graph.partials[k];
      if !InRange(partial.name, graph.strings) {
        return Fail(StringRange);
      }
      var name := View(partial.name, graph.strings);
      if name == [] {
        return Fail(EmptyPartialName);
      }
      if hasPreviousName && !Less(previousName, name) {
        return Fail(PartialOrder);
      }
      if partial.root >= |graph.nodes| {
        return Fail(PartialRoot);
      }
      if graph.nodes[partial.root].nextSibling != INVALID {
        return Fail(PartialSibling);
      }
      return Pass;
    }

    method Validate() returns (r: Outcome)
      requires nodes == 0 && dataParts == 0
      modifies this
      ensures r == Validation(graph, inputBytes, limits)
    {
      hide Visit, VisitPartials;
      r := Pass;
      if graph.magic != MAGIC || graph.nodes == [] {
        return Fail(ArchiveHeader);
      }
      if graph.version != SCHEMA_VERSION {
        return Fail(ArchiveVersion);
      }
      if |graph.nodes| > limits.maxNodes {
        return Fail(ArchiveNodeLimit);
      }
      states := seq(|graph.nodes|, _ => 0);
      assert Seen() == {};
      if inputBytes != 0 && graph.serializedSize != inputBytes {
        return Fail(ArchiveLength);
      }
      if |graph.strings| > limits.maxTotalStringBytes {
        return Fail(ArchiveStringLimit);
      }
      if graph.root >= |graph.nodes| || graph.nodes[graph.root].kind != Code(TypeRoot) {
        return Fail(ArchiveRoot);
      }
      if graph.nodes[graph.root].nextSibling != INVALID {
        return Fail(RootSibling);
      }
      :- ValidateNode(graph.root, 0, false);
      SeenWithin();
      :- ValidatePartials();
      if nodes != |graph.nodes| {
        return Fail(UnreachableNode);
      }
      r := Pass;
    }
  }
}
