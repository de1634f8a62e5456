/** The particular table the builder lays out: records in pre-order, each shared source buffer stored once. */
module ArchiveLayout {
  import opened Base
  import opened Template
  import opened Partials
  import opened ArchiveGraph

  /** Record i starts the pre-order block of the tree n. */
  predicate Laid(nodes: seq<ArchiveNode>, strings: Bytes, i: nat, n: Node)
    decreases n, 0
  {
    n.Node? && n.child.Null? && i + NodeCount(n) <= |nodes| <= INVALID && Records(nodes[i], strings, n)
    && nodes[i].firstChild == (if n.children == [] then INVALID else i + 1)
    && LaidAll(nodes, strings, i + 1, n.children)
  }

  predicate LaidAll(nodes: seq<ArchiveNode>, strings: Bytes, i: nat, ns: seq<Node>)
    decreases ns, 1
  {
    ns == [] ||
    (Laid(nodes, strings, i, ns[0])
     && nodes[i].nextSibling == (if |ns| == 1 then INVALID else i + NodeCount(ns[0]))
     && LaidAll(nodes, strings, i + NodeCount(ns[0]), ns[1..]))
  }

  lemma {:induction false} CountSplit(ns: seq<Node>, ms: seq<Node>)
    ensures NodeCountAll(ns + ms) == NodeCountAll(ns) + NodeCountAll(ms)
  {
    if ns == [] {
      assert ns + ms == ms;
    } else {
      assert (ns + ms)[0] == ns[0] && (ns + ms)[1..] == ns[1..] + ms;
      CountSplit(ns[1..], ms);
    }
  }

  // ---- What later appends and patches leave alone ---------------------------------------------------

  predicate SameButSibling(a: ArchiveNode, b: ArchiveNode) {
    a.(nextSibling := 0) == b.(nextSibling := 0)
  }

  /** Nothing in the block changed, except perhaps the sibling link of its first record. */
  predicate BlockKept(nodes: seq<ArchiveNode>, nodes': seq<ArchiveNode>, i: nat, count: nat) {
    i + count <= |nodes| && i + count <= |nodes'| <= INVALID
    && (count > 0 ==> SameButSibling(nodes[i], nodes'[i]))
    && forall k :: i < k < i + count ==> nodes'[k] == nodes[k]
  }

  lemma {:induction false} RecordKept(r: ArchiveNode, r': ArchiveNode, strings: Bytes, strings': Bytes, n: Node)
    requires n.Node? && Records(r, strings, n) && SameButSibling(r, r') && strings <= strings'
    ensures Records(r', strings', n)
  {
  }

  lemma {:induction false} RecordLinked(r: ArchiveNode, firstChild: u32, strings: Bytes, strings': Bytes, n: Node)
    requires n.Node? && Records(r, strings, n) && strings <= strings'
    ensures Records(r.(firstChild := firstChild), strings', n)
  {
  }

  lemma {:induction false} LaidKept(nodes: seq<ArchiveNode>, nodes': seq<ArchiveNode>, strings: Bytes, strings': Bytes,
                                    i: nat, n: Node)
    requires Laid(nodes, strings, i, n) && strings <= strings' && BlockKept(nodes, nodes', i, NodeCount(n))
    ensures Laid(nodes', strings', i, n)
    decreases n, 0
  {
    hide Records;
    RecordKept(nodes[i], nodes'[i], strings, strings', n);
    LaidAllKept(nodes, nodes', strings, strings', i + 1, n.children);
  }

  lemma {:induction false} LaidAllKept(nodes: seq<ArchiveNode>, nodes': seq<ArchiveNode>, strings: Bytes, strings': Bytes,
                                       i: nat, ns: seq<Node>)
    requires LaidAll(nodes, strings, i, ns) && strings <= strings'
    requires i + NodeCountAll(ns) <= |nodes| && i + NodeCountAll(ns) <= |nodes'| <= INVALID
    requires forall k :: i <= k < i + NodeCountAll(ns) ==> nodes'[k] == nodes[k]
    ensures LaidAll(nodes', strings', i, ns)
    decreases ns, 1
  {
    hide Laid;
    if ns != [] {
      NodeHasRecord(nodes, strings, i, ns[0]);
      LaidKept(nodes, nodes', strings, strings', i, ns[0]);
      LaidAllKept(nodes, nodes', strings, strings', i + NodeCount(ns[0]), ns[1..]);
    }
  }

  lemma {:induction false} NodeHasRecord(nodes: seq<ArchiveNode>, strings: Bytes, i: nat, n: Node)
    requires Laid(nodes, strings, i, n)
    ensures n.Node? && i + NodeCount(n) <= |nodes| <= INVALID && NodeCount(n) > 0
  {
  }

  lemma {:induction false} LaidSingle(nodes: seq<ArchiveNode>, strings: Bytes, i: nat, n: Node)
    requires Laid(nodes, strings, i, n) && i < |nodes| && nodes[i].nextSibling == INVALID
    ensures LaidAll(nodes, strings, i, [n])
  {
  }

  /** Appending one more sibling block and linking it from the last one. */
  lemma {:induction false} LaidSnoc(nodes: seq<ArchiveNode>, strings: Bytes, i: nat, ns: seq<Node>, n: Node,
                                    nodes': seq<ArchiveNode>)
    requires ns != [] && LaidAll(nodes, strings, i, ns)
    requires Laid(nodes, strings, i + NodeCountAll(ns), n) && nodes[i + NodeCountAll(ns)].nextSibling == INVALID
    requires var last := i + NodeCountAll(ns[..|ns| - 1]);
             last < |nodes| && nodes' == nodes[last := nodes[last].(nextSibling := i + NodeCountAll(ns))]
    ensures LaidAll(nodes', strings, i, ns + [n])
    decreases ns
  {
    hide Laid;
    var at := i + NodeCountAll(ns);
    NodeHasRecord(nodes, strings, at, n);
    NodeHasRecord(nodes, strings, i, ns[0]);
    assert (ns + [n])[0] == ns[0] && (ns + [n])[1..] == ns[1..] + [n];
    if |ns| == 1 {
      assert ns[..0] == [] && ns[1..] == [];
      LaidKept(nodes, nodes', strings, strings, i, ns[0]);
      LaidKept(nodes, nodes', strings, strings, at, n);
      assert NodeCountAll(ns) == NodeCount(ns[0]) && NodeCountAll([]) == 0;
      LaidSingle(nodes', strings, at, n);
      assert (ns + [n])[1..] == [n];
    } else {
      var next := i + NodeCount(ns[0]);
      assert ns[..|ns| - 1][0] == ns[0] && ns[..|ns| - 1][1..] == ns[1..][..|ns| - 2];
      LaidSnoc(nodes, strings, next, ns[1..], n, nodes');
      LaidKept(nodes, nodes', strings, strings, i, ns[0]);
    }
  }

  // ---- A laid-out block denotes its tree ------------------------------------------------------------

  function Interval(i: nat, count: nat): seq<nat> {
    seq(count, k requires 0 <= k < count => i + k)
  }

  lemma {:induction false} LaidDenotes(nodes: seq<ArchiveNode>, strings: Bytes, i: nat, n: Node)
    requires Laid(nodes, strings, i, n) && i < INVALID
    ensures Denotes(nodes, strings, i, n)
    ensures Visited(nodes, strings, i, n) == Interval(i, NodeCount(n))
    decreases n, 0
  {
    LaidChain(nodes, strings, i + 1, n.children);
    assert Interval(i, NodeCount(n)) == [i] + Interval(i + 1, NodeCountAll(n.children));
  }

  lemma {:induction false} LaidChain(nodes: seq<ArchiveNode>, strings: Bytes, i: nat, ns: seq<Node>)
    requires LaidAll(nodes, strings, i, ns) && |nodes| <= INVALID
    ensures ns != [] ==> i < INVALID
    ensures var from := if ns == [] then INVALID else i;
            DenotesChain(nodes, strings, from, ns)
            && VisitedChain(nodes, strings, from, ns) == Interval(i, NodeCountAll(ns))
    decreases ns, 1
  {
    if ns != [] {
      LaidDenotes(nodes, strings, i, ns[0]);
      LaidChain(nodes, strings, i + NodeCount(ns[0]), ns[1..]);
      assert Interval(i, NodeCountAll(ns))
          == Interval(i, NodeCount(ns[0])) + Interval(i + NodeCount(ns[0]), NodeCountAll(ns[1..]));
    }
  }

  // ---- The whole table ----------------------------------------------------------------------------

  /** The k-th partial's tree starts where the trees before it end. */
  function StartOf(root: Node, eff: seq<Entry>, k: nat): nat
    requires k <= |eff|
  {
    NodeCount(root) + NodeCountAll(Roots(eff)[..k])
  }

  predicate LaidPartial(nodes: seq<ArchiveNode>, strings: Bytes, p: ArchivePartial, e: Entry, at: nat) {
    InRange(p.name, strings) && View(p.name, strings) == e.name
    && p.root == at && Laid(nodes, strings, at, e.root) && at < |nodes| && nodes[at].nextSibling == INVALID
  }

  /** The table of a template and its effective partials: the root's tree first, then the partials in name order. */
  predicate Built(g: Graph, root: Node, eff: seq<Entry>) {
    && g.magic == MAGIC && g.version == SCHEMA_VERSION && g.root == 0
    && Laid(g.nodes, g.strings, 0, root) && g.nodes != [] && g.nodes[0].nextSibling == INVALID
    && |g.partials| == |eff|
    && (forall k :: 0 <= k < |eff| ==> LaidPartial(g.nodes, g.strings, g.partials[k], eff[k], StartOf(root, eff, k)))
    && |g.nodes| == NodeCount(root) + NodeCountAll(Roots(eff))
  }

  lemma {:induction false} LaidPartialKept(nodes: seq<ArchiveNode>, nodes': seq<ArchiveNode>, strings: Bytes, strings': Bytes,
                        p: ArchivePartial, e: Entry, at: nat)
    requires LaidPartial(nodes, strings, p, e, at) && nodes <= nodes' && strings <= strings' && |nodes'| <= INVALID
    ensures LaidPartial(nodes', strings', p, e, at)
  {
    hide Laid;
    NodeHasRecord(nodes, strings, at, e.root);
    LaidKept(nodes, nodes', strings, strings', at, e.root);
    assert strings'[..|strings|] == strings;
  }

  lemma {:induction false} RootsAt(m: seq<Entry>, k: nat)
    requires k < |m|
    ensures Roots(m)[k] == m[k].root
  {
    if k > 0 {
      RootsAt(m[1..], k - 1);
    }
  }
}
