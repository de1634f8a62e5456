/** Template reconstruction: source text from a template tree, with its budgets (`to_template_string`). */
module Printer {
  import opened Base
  import opened Template

  datatype TemplateStringLimits = TemplateStringLimits(maxOutputBytes: nat, maxNestingDepth: nat, maxNodes: nat)

  const IMPLEMENTATION_MAX_DEPTH: nat := 256

  // The text itself, independent of every budget.

  /** The bytes between the start delimiter and the data of a tag. */
  function Sigil(n: Node): Bytes
    requires n.Node?
  {
    match n.kind
    case TypeComment => ['!' as int]
    case TypePartial => ['>' as int]
    case TypeNegate => ['^' as int]
    case TypeSection => ['#' as int]
    case TypeStop => ['/' as int]
    case TypeVariable => if Bit(n.flags, FLAG_ESCAPE) then [] else ['&' as int]
    case _ => []
  }

  predicate PrintsTag(t: Type) {
    t.TypeComment? || t.TypePartial? || t.TypeNegate? || t.TypeSection? || t.TypeStop? || t.TypeVariable?
  }

  /** The types whose children are printed after the node itself. */
  predicate PrintsChildren(t: Type) {
    t.TypeRoot? || t.TypeNegate? || t.TypeSection? || t.TypeStop? || t.TypeVariable?
  }

  function HeadText(n: Node, start: Bytes, stop: Bytes): Bytes
    requires n.Node?
  {
    var data := if n.data.Some? then n.data.value else [];
    if PrintsTag(n.kind) then start + Sigil(n) + data + stop
    else if n.kind.TypeOutput? then data
    else []
  }

  /** Printing the body of a section leaves out its own closing tag. */
  predicate Skipped(n: Node, skipStops: bool) {
    skipStops && n.Node? && n.kind.TypeStop?
  }

  function NodeText(n: Node, start: Bytes, stop: Bytes): Bytes
    decreases n, 0
  {
    match n
    case Null => []
    case Node(kind, _, _, children, _, _, _, _) =>
      HeadText(n, start, stop) + if PrintsChildren(kind) then NodesText(children, start, stop, false) else []
  }

  function NodesText(ns: seq<Node>, start: Bytes, stop: Bytes, skipStops: bool): Bytes {
    if ns == [] then []
    else ChildText(ns[0], start, stop, skipStops) + NodesText(ns[1..], start, stop, skipStops)
  }

  function ChildText(n: Node, start: Bytes, stop: Bytes, skipStops: bool): Bytes
    decreases n, 1
  {
    if Skipped(n, skipStops) then [] else NodeText(n, start, stop)
  }

  // When reconstruction succeeds: no empty pointer, every printed node has its data, and three totals.

  predicate Printable(n: Node) {
    match n
    case Null => false
    case Node(kind, _, data, children, _, _, _, _) =>
      (HasNoString(kind) || data.Some?) && (PrintsChildren(kind) ==> PrintableAll(children, false))
  }

  predicate PrintableAll(ns: seq<Node>, skipStops: bool) {
    ns == [] || ((Skipped(ns[0], skipStops) || Printable(ns[0])) && PrintableAll(ns[1..], skipStops))
  }

  function PrintCount(n: Node): nat {
    match n
    case Null => 0
    case Node(kind, _, _, children, _, _, _, _) =>
      1 + if PrintsChildren(kind) then PrintCountAll(children, false) else 0
  }

  function PrintCountAll(ns: seq<Node>, skipStops: bool): nat {
    if ns == [] then 0
    else (if Skipped(ns[0], skipStops) then 1 else PrintCount(ns[0])) + PrintCountAll(ns[1..], skipStops)
  }

  function PrintHeight(n: Node): nat {
    match n
    case Null => 0
    case Node(kind, _, _, children, _, _, _, _) =>
      1 + if PrintsChildren(kind) then PrintHeightAll(children, false) else 0
  }

  function PrintHeightAll(ns: seq<Node>, skipStops: bool): nat {
    if ns == [] then 0
    else Max(if Skipped(ns[0], skipStops) then 1 else PrintHeight(ns[0]), PrintHeightAll(ns[1..], skipStops))
  }

  // The budgeted printer.

  class TemplateStringState {
    const limits: TemplateStringLimits
    const maxNestingDepth: nat
    var nodes: nat
    var output: Bytes

    constructor (limits: TemplateStringLimits, maxNestingDepth: nat)
      ensures this.limits == limits && nodes == 0 && output == []
      ensures this.maxNestingDepth == if limits.maxNestingDepth < maxNestingDepth then limits.maxNestingDepth
                                      else maxNestingDepth
    {
      this.limits := limits;
      this.maxNestingDepth := if limits.maxNestingDepth < maxNestingDepth then limits.maxNestingDepth
      else maxNestingDepth;
      nodes := 0;
      output := [];
    }

    /** Room for this many more nodes and bytes. */
    predicate Fits(count: nat, bytes: nat)
      reads this
    {
      nodes + count <= limits.maxNodes && |output| + bytes <= limits.maxOutputBytes
    }

    method CheckBudget(depth: nat) returns (r: Outcome)
      modifies this`nodes
      ensures r.Pass? <==> depth < maxNestingDepth && old(nodes) < limits.maxNodes
      ensures r.Pass? ==> nodes == old(nodes) + 1
    {
      if depth >= maxNestingDepth {
        return Fail(TemplateNestingLimit);
      }
      if nodes >= limits.maxNodes {
        return Fail(TemplateNodeLimit);
      }
      nodes := nodes + 1;
      return Pass;
    }

    method Append(value: Bytes) returns (r: Outcome)
      modifies this`output
      ensures r.Pass? <==> |old(output)| + |value| <= limits.maxOutputBytes
      ensures r.Pass? ==> output == old(output) + value
    {
      if |output| > limits.maxOutputBytes || |value| > limits.maxOutputBytes - |output| {
        return Fail(TemplateSizeLimit);
      }
      output := output + value;
      return Pass;
    }

    /** Prints the node itself: `start`, sigil, data and `stop` for a tag, the data alone for output. */
    method AppendHead(n: Node, start: Bytes, stop: Bytes) returns (r: Outcome)
      requires n.Node? && (HasNoString(n.kind) || n.data.Some?)
      requires |output| <= limits.maxOutputBytes
      modifies this`output
      ensures r.Pass? <==> |old(output)| + |HeadText(n, start, stop)| <= limits.maxOutputBytes
      ensures r.Pass? ==> output == old(output) + HeadText(n, start, stop)
    {
      ghost var before := output;
      r := Pass;
      if PrintsTag(n.kind) {
        assert n.data.Some?;
        :- Append(start);
        :- Append(Sigil(n));
        :- Append(n.data.value);
        :- Append(stop);
        assert output == before + HeadText(n, start, stop);
      } else if n.kind.TypeOutput? {
        r := Append(n.data.value);
      }
    }

    method AppendNode(n: Node, start: Bytes, stop: Bytes, depth: nat) returns (r: Outcome)
      requires nodes <= limits.maxNodes && |output| <= limits.maxOutputBytes
      modifies this
      ensures r.Pass? <==> Printable(n) && depth + PrintHeight(n) <= maxNestingDepth
                           && old(Fits(PrintCount(n), |NodeText(n, start, stop)|))
      ensures r.Pass? ==> output == old(output) + NodeText(n, start, stop) && nodes == old(nodes) + PrintCount(n)
      decreases n, 1
    {
      if n.Null? {
        return Fail(NullChild);
      }
      :- CheckBudget(depth);
      if !HasNoString(n.kind) && n.data.None? {
        return Fail(NodeWithoutData);
      }
      ghost var before := output;
      :- AppendHead(n, start, stop);
      r := Pass;
      if PrintsChildren(n.kind) {
        :- AppendChildren(n, start, stop, depth + 1, false);
      }
      assert output == before + NodeText(n, start, stop);
    }

    method AppendChildren(n: Node, start: Bytes, stop: Bytes, depth: nat, skipStops: bool) returns (r: Outcome)
      requires n.Node? && nodes <= limits.maxNodes && |output| <= limits.maxOutputBytes
      requires depth <= maxNestingDepth
      modifies this
      ensures r.Pass? <==> PrintableAll(n.children, skipStops)
                           && depth + PrintHeightAll(n.children, skipStops) <= maxNestingDepth
                           && old(Fits(PrintCountAll(n.children, skipStops),
                                       |NodesText(n.children, start, stop, skipStops)|))
      ensures r.Pass? ==> output == old(output) + NodesText(n.children, start, stop, skipStops)
                          && nodes == old(nodes) + PrintCountAll(n.children, skipStops)
      decreases n, 0
    {
      var cs := n.children;
      var i := 0;
      while i < |cs|
        invariant 0 <= i <= |cs|
        invariant nodes <= limits.maxNodes && |output| <= limits.maxOutputBytes
        invariant PrintableAll(cs, skipStops) <==> PrintableAll(cs[i..], skipStops)
        invariant depth + PrintHeightAll(cs, skipStops) <= maxNestingDepth <==>
                  depth + PrintHeightAll(cs[i..], skipStops) <= maxNestingDepth
        invariant old(nodes) + PrintCountAll(cs, skipStops) == nodes + PrintCountAll(cs[i..], skipStops)
        invariant old(output) + NodesText(cs, start, stop, skipStops)
               == output + NodesText(cs[i..], start, stop, skipStops)
      {
        ghost var was := output;
        assert |old(output)| + |NodesText(cs, start, stop, skipStops)|
            == |output| + |NodesText(cs[i..], start, stop, skipStops)|;
        UnfoldText(cs, i, output, start, stop, skipStops);
        assert cs[i..][0] == cs[i] && cs[i..][1..] == cs[i + 1..];
        :- AppendChild(cs[i], start, stop, depth, skipStops);
        i := i + 1;
      }
      assert old(output) + NodesText(cs, start, stop, skipStops) == output + [] == output;
      r := Pass;
    }

    method AppendChild(n: Node, start: Bytes, stop: Bytes, depth: nat, skipStops: bool) returns (r: Outcome)
      requires nodes <= limits.maxNodes && |output| <= limits.maxOutputBytes
      modifies this
      ensures r.Pass? <==> (Skipped(n, skipStops) || Printable(n))
                           && depth + (if Skipped(n, skipStops) then 1 else PrintHeight(n)) <= maxNestingDepth
                           && old(Fits(if Skipped(n, skipStops) then 1 else PrintCount(n),
                                       |ChildText(n, start, stop, skipStops)|))
      ensures r.Pass? ==> output == old(output) + ChildText(n, start, stop, skipStops)
                          && nodes == old(nodes) + if Skipped(n, skipStops) then 1 else PrintCount(n)
      decreases n, 2
    {
      if Skipped(n, skipStops) {
        r := CheckBudget(depth);
      } else {
        r := AppendNode(n, start, stop, depth);
      }
    }
  }

  lemma {:induction false} UnfoldText(ns: seq<Node>, i: nat, before: Bytes, start: Bytes, stop: Bytes, skipStops: bool)
    requires i < |ns|
    ensures before + NodesText(ns[i..], start, stop, skipStops)
         == before + ChildText(ns[i], start, stop, skipStops) + NodesText(ns[i + 1..], start, stop, skipStops)
    ensures |NodesText(ns[i..], start, stop, skipStops)|
         == |ChildText(ns[i], start, stop, skipStops)| + |NodesText(ns[i + 1..], start, stop, skipStops)|
  {
    assert ns[i..][0] == ns[i] && ns[i..][1..] == ns[i + 1..];
  }

  /** `children_to_template_string`: the node itself is charged, its direct closing tags are not printed. */
  method ChildrenTemplateString(
      n: Node, start: Bytes, stop: Bytes, limits: TemplateStringLimits, maxNestingDepth: nat)
    returns (r: Result<Bytes>)
    requires n.Node?
    ensures var depth := if limits.maxNestingDepth < maxNestingDepth then limits.maxNestingDepth else maxNestingDepth;
            r.Ok? <==> PrintableAll(n.children, true)
                       && 1 + PrintHeightAll(n.children, true) <= depth
                       && 1 + PrintCountAll(n.children, true) <= limits.maxNodes
                       && |NodesText(n.children, start, stop, true)| <= limits.maxOutputBytes
    ensures r.Ok? ==> r.value == NodesText(n.children, start, stop, true)
  {
    var state := new TemplateStringState(limits, maxNestingDepth);
    var checked := state.CheckBudget(0);
    if checked.Fail? {
      return Err(checked.error);
    }
    checked := state.AppendChildren(n, start, stop, 1, true);
    if checked.Fail? {
      return Err(checked.error);
    }
    return Ok(state.output);
  }

  /** `to_template_string`. */
  method ToTemplateString(n: Node, start: Bytes, stop: Bytes, limits: TemplateStringLimits) returns (r: Result<Bytes>)
    requires n.Node?
    ensures var depth := if limits.maxNestingDepth < IMPLEMENTATION_MAX_DEPTH then limits.maxNestingDepth
                         else IMPLEMENTATION_MAX_DEPTH;
            r.Ok? <==> Printable(n) && PrintHeight(n) <= depth && PrintCount(n) <= limits.maxNodes
                       && |NodeText(n, start, stop)| <= limits.maxOutputBytes
    ensures r.Ok? ==> r.value == NodeText(n, start, stop)
  {
    var state := new TemplateStringState(limits, IMPLEMENTATION_MAX_DEPTH);
    var checked := state.AppendNode(n, start, stop, 0);
    if checked.Fail? {
      return Err(checked.error);
    }
    return Ok(state.output);
  }
}
