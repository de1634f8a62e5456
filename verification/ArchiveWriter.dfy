/** What the builder writes is read back unchanged, and its own validator never refuses it. */
module ArchiveWriter {
  import opened Base
  import opened Template
  import opened Partials
  import opened ArchiveGraph
  import opened ArchiveValidator
  import opened ArchiveLegality
  import opened ArchiveLayout
  import opened ArchiveBuilder

  // ---- Reading back -----------------------------------------------------------------------------

  /** All that a table keeps of a tree besides the original section texts. */
  function Plain(n: Node): Node {
    match n
    case Null => Null
    case Node(kind, flags, data, children, _, start, stop, _) =>
      Node(kind, flags, data, PlainAll(children), Null, start, stop, None)
  }

  function PlainAll(ns: seq<Node>): (r: seq<Node>)
    ensures |r| == |ns|
  {
    if ns == [] then [] else [Plain(ns[0])] + PlainAll(ns[1..])
  }

  lemma {:induction false} PlainAt(ns: seq<Node>, i: nat)
    requires i < |ns|
    ensures PlainAll(ns)[i] == Plain(ns[i])
  {
    if i > 0 {
      PlainAt(ns[1..], i - 1);
    }
  }

  lemma {:induction false} SameFields(r: ArchiveNode, strings: Bytes, n: Node, m: Node)
    requires n.Node? && m.Node? && Records(r, strings, n) && Records(r, strings, m)
    requires IsSerializableType(n.kind) && IsSerializableType(m.kind)
    ensures n.kind == m.kind && n.flags == m.flags && n.data == m.data && n.start == m.start && n.stop == m.stop
    ensures OriginalText(n) == OriginalText(m)
  {
    hide OriginalText;
    SerializableCode(n.kind);
    SerializableCode(m.kind);
    BitsFromPresence(n.data.Some?, n.start.Some?, n.stop.Some?, OriginalText(n).Some?);
    BitsFromPresence(m.data.Some?, m.start.Some?, m.stop.Some?, OriginalText(m).Some?);
  }

  /** A record denotes one tree only: two storable trees read from it agree in every field that is stored. */
  lemma {:induction false} DenotesUnique(nodes: seq<ArchiveNode>, strings: Bytes, i: u32, n: Node, m: Node)
    requires Denotes(nodes, strings, i, n) && Denotes(nodes, strings, i, m) && Storable(n) && Storable(m)
    ensures Plain(n) == Plain(m) && OriginalText(n) == OriginalText(m)
    decreases n, 0
  {
    hide Records, OriginalText;
    SameFields(nodes[i], strings, n, m);
    ChainUnique(nodes, strings, nodes[i].firstChild, n.children, m.children);
  }

  lemma {:induction false} ChainUnique(nodes: seq<ArchiveNode>, strings: Bytes, i: u32, ns: seq<Node>, ms: seq<Node>)
    requires DenotesChain(nodes, strings, i, ns) && DenotesChain(nodes, strings, i, ms)
    requires StorableAll(ns) && StorableAll(ms)
    ensures PlainAll(ns) == PlainAll(ms)
    decreases ns, 1
  {
    if i != INVALID {
      DenotesUnique(nodes, strings, i, ns[0], ms[0]);
      ChainUnique(nodes, strings, nodes[i].nextSibling, ns[1..], ms[1..]);
    }
  }

  // ---- Shape is a matter of the plain tree ----------------------------------------------------------

  lemma {:induction false} PlainMarkers(ns: seq<Node>)
    ensures MarkersPlaced(PlainAll(ns)) <==> MarkersPlaced(ns)
  {
    var ps := PlainAll(ns);
    forall i | 0 <= i < |ns|
      ensures ps[i] == Plain(ns[i])
    {
      PlainAt(ns, i);
    }
    forall i | 0 <= i < |ns|
      ensures ps[i].Node? == ns[i].Node? && IsMarker(ps[i]) == IsMarker(ns[i])
      ensures ns[i].Node? ==> ps[i].flags == ns[i].flags && ps[i].kind == ns[i].kind
    {
    }
  }

  lemma {:induction false} PlainShape(n: Node, marker: bool)
    ensures WellShaped(Plain(n), marker) <==> WellShaped(n, marker)
    decreases n, 0
  {
    if n.Node? {
      PlainMarkers(n.children);
      PlainShapeAll(n.children);
    }
  }

  lemma {:induction false} PlainShapeAll(ns: seq<Node>)
    ensures WellShapedAll(PlainAll(ns)) <==> WellShapedAll(ns)
    decreases ns, 1
  {
    if ns != [] {
      PlainShape(ns[0], IsMarker(ns[0]));
      PlainShapeAll(ns[1..]);
      assert IsMarker(Plain(ns[0])) == IsMarker(ns[0]);
    }
  }

  lemma {:induction false} ShapedStorable(n: Node, marker: bool, nodes: seq<ArchiveNode>, strings: Bytes, i: u32)
    requires WellShaped(n, marker) && Denotes(nodes, strings, i, n)
    ensures Storable(n)
    decreases n, 0
  {
    hide Records, MarkersPlaced;
    ShapedStorableAll(n.children, nodes, strings, nodes[i].firstChild);
  }

  lemma {:induction false} ShapedStorableAll(ns: seq<Node>, nodes: seq<ArchiveNode>, strings: Bytes, i: u32)
    requires WellShapedAll(ns) && DenotesChain(nodes, strings, i, ns)
    ensures StorableAll(ns)
    decreases ns, 1
  {
    if ns != [] {
      ShapedStorable(ns[0], IsMarker(ns[0]), nodes, strings, i);
      ShapedStorableAll(ns[1..], nodes, strings, nodes[i].nextSibling);
    }
  }

  // ---- Well-shaped trees are charged what the validator charges -------------------------------------

  lemma {:induction false} SameCharge(n: Node, marker: bool, maximum: nat)
    requires WellShaped(n, marker) && Countable(n, maximum)
    ensures ChargedPartCount(n) == PartCount(n) && PartsWithin(n, maximum)
    decreases n, 0
  {
    hide MarkersPlaced;
    SameChargeAll(n.children, maximum);
  }

  lemma {:induction false} SameChargeAll(ns: seq<Node>, maximum: nat)
    requires WellShapedAll(ns) && CountableAll(ns, maximum)
    ensures ChargedPartCountAll(ns) == PartCountAll(ns) && PartsWithinAll(ns, maximum)
    decreases ns, 1
  {
    if ns != [] {
      SameCharge(ns[0], IsMarker(ns[0]), maximum);
      SameChargeAll(ns[1..], maximum);
    }
  }

  // ---- The written table is a forest ----------------------------------------------------------------

  /** The part of acceptance that the builder does not check: shapes and names. */
  predicate Presentable(root: Node, eff: seq<Entry>) {
    root.Node? && root.kind.TypeRoot? && WellShaped(root, false)
    && forall k :: 0 <= k < |eff| ==> WellShaped(eff[k].root, false) && eff[k].name != []
  }

  lemma {:induction false} HeightOf(eff: seq<Entry>, k: nat, maximum: nat)
    requires k < |eff| && CountableAll(Roots(eff), maximum)
    ensures Height(eff[k].root) <= HeightAll(Roots(eff)) && Countable(eff[k].root, maximum)
  {
    if k > 0 {
      HeightOf(eff[1..], k - 1, maximum);
    }
  }

  lemma {:induction false} IntervalDistinct(i: nat, count: nat)
    ensures Distinct(Interval(i, count)) && |Interval(i, count)| == count
  {
  }

  lemma {:induction false} IntervalJoin(i: nat, a: nat, b: nat)
    ensures Interval(i, a) + Interval(i + a, b) == Interval(i, a + b)
  {
  }

  lemma {:induction false} StartNext(root: Node, eff: seq<Entry>, k: nat)
    requires k < |eff|
    ensures StartOf(root, eff, k + 1) == StartOf(root, eff, k) + NodeCount(eff[k].root)
  {
    var rs := Roots(eff);
    RootsAt(eff, k);
    assert rs[..k + 1] == rs[..k] + [rs[k]];
    CountSplit(rs[..k], [rs[k]]);
    assert [rs[k]][1..] == [] && NodeCountAll([rs[k]]) == NodeCount(rs[k]);
  }

  /** From the k-th partial on, the table denotes the effective partials, block after block. */
  lemma {:induction false} TreesFrom(g: Graph, root: Node, eff: seq<Entry>, k: nat, limits: ArchiveLimits)
    requires Built(g, root, eff) && k <= |eff|
    requires forall j :: k <= j < |eff| ==> TreeLegal(eff[j].root, limits)
    ensures PartialTrees(g, Roots(eff[k..]), k, limits)
    ensures VisitedFrom(g, Roots(eff[k..]), k, limits) == Interval(StartOf(root, eff, k), NodeCountAll(Roots(eff[k..])))
    decreases |eff| - k
  {
    hide Laid, TreeLegal, Denotes, NodeCount;
    if k < |eff| {
      var at, e := StartOf(root, eff, k), eff[k];
      assert eff[k..][0] == e && eff[k..][1..] == eff[k + 1..];
      assert LaidPartial(g.nodes, g.strings, g.partials[k], e, at);
      NodeHasRecord(g.nodes, g.strings, at, e.root);
      LaidDenotes(g.nodes, g.strings, at, e.root);
      StartNext(root, eff, k);
      TreesFrom(g, root, eff, k + 1, limits);
      IntervalJoin(at, NodeCount(e.root), NodeCountAll(Roots(eff[k + 1..])));
    }
  }

  lemma {:induction false} NamesOf(g: Graph, root: Node, eff: seq<Entry>)
    requires Built(g, root, eff) && Ascending(eff)
    ensures NamesLegal(g) <==> forall k :: 0 <= k < |eff| ==> eff[k].name != []
  {
    hide Laid, Less;
    forall k | 0 <= k < |eff|
      ensures InRange(g.partials[k].name, g.strings) && View(g.partials[k].name, g.strings) == eff[k].name
      ensures NameLegal(g, k) <==> eff[k].name != []
    {
      assert LaidPartial(g.nodes, g.strings, g.partials[k], eff[k], StartOf(root, eff, k));
    }
  }

  lemma {:induction false} PartCharges(eff: seq<Entry>, maximum: nat)
    requires CountableAll(Roots(eff), maximum) && forall e :: e in eff ==> WellShaped(e.root, false)
    ensures ChargedPartCountAll(Roots(eff)) == PartCountAll(Roots(eff))
  {
    if eff != [] {
      assert eff[0] in eff;
      SameCharge(eff[0].root, false, maximum);
      PartCharges(eff[1..], maximum);
    }
  }

  /** The tree of a written archive obeys the reader's rules as soon as it is well shaped. */
  lemma {:induction false} WrittenTreeLegal(n: Node, limits: ArchiveLimits)
    requires Countable(n, limits.maxDataPartsPerNode) && Height(n) <= DepthLimit(limits) && WellShaped(n, false)
    ensures TreeLegal(n, limits)
  {
    SameCharge(n, false, limits.maxDataPartsPerNode);
  }

  lemma {:induction false} WrittenIsLegal(g: Graph, root: Node, eff: seq<Entry>, limits: ArchiveLimits, sizes: RecordSizes)
    requires Built(g, root, eff) && Ascending(eff) && Fitting(root, eff, limits, sizes) && Presentable(root, eff)
    requires |g.strings| == TotalBytes(root, eff)
    ensures Legal(g, 0, limits)
  {
    hide Laid, LaidPartial, WellShaped, TreeLegal, MinimumFits, Denotes, Countable, CountableAll, Height, HeightAll, Less;
    hide DepthLimit;
    WrittenTreeLegal(root, limits);
    forall k | 0 <= k < |eff|
      ensures TreeLegal(eff[k].root, limits)
    {
      HeightOf(eff, k, limits.maxDataPartsPerNode);
      WrittenTreeLegal(eff[k].root, limits);
    }
    NamesOf(g, root, eff);
    TreesFrom(g, root, eff, 0, limits);
    assert eff[0..] == eff;
    RootBlock(g, root, eff, limits);
    SameCharge(root, false, limits.maxDataPartsPerNode);
    PartCharges(eff, limits.maxDataPartsPerNode);
    assert Forest(g, limits, root, Roots(eff));
  }

  lemma {:induction false} RootBlock(g: Graph, root: Node, eff: seq<Entry>, limits: ArchiveLimits)
    requires Built(g, root, eff) && PartialTrees(g, Roots(eff), 0, limits)
    requires VisitedFrom(g, Roots(eff), 0, limits) == Interval(NodeCount(root), NodeCountAll(Roots(eff)))
    ensures Denotes(g.nodes, g.strings, g.root, root) && StandsAlone(g, g.root)
    ensures var all := Visited(g.nodes, g.strings, g.root, root) + VisitedFrom(g, Roots(eff), 0, limits);
            Distinct(all) && |all| == |g.nodes|
  {
    hide Denotes;
    NodeHasRecord(g.nodes, g.strings, 0, root);
    LaidDenotes(g.nodes, g.strings, 0, root);
    IntervalJoin(0, NodeCount(root), NodeCountAll(Roots(eff)));
    IntervalDistinct(0, |g.nodes|);
  }

  lemma {:induction false} PartialTreeAt(g: Graph, ps: seq<Node>, j: nat, k: nat, limits: ArchiveLimits)
    requires PartialTrees(g, ps, j, limits) && j <= k < |g.partials|
    ensures k - j < |ps| && Denotes(g.nodes, g.strings, g.partials[k].root, ps[k - j]) && TreeLegal(ps[k - j], limits)
    decreases k - j
  {
    hide Denotes, TreeLegal;
    if k > j {
      PartialTreeAt(g, ps[1..], j + 1, k, limits);
    }
  }

  /** The shape of a stored tree can be told from the table. */
  lemma {:induction false} ShapeCarries(g: Graph, i: u32, n: Node, m: Node)
    requires Denotes(g.nodes, g.strings, i, n) && Storable(n)
    requires Denotes(g.nodes, g.strings, i, m) && WellShaped(m, false)
    ensures WellShaped(n, false) && (m.kind.TypeRoot? ==> n.kind.TypeRoot?)
  {
    hide Denotes;
    ShapedStorable(m, false, g.nodes, g.strings, i);
    DenotesUnique(g.nodes, g.strings, i, n, m);
    PlainShape(n, false);
    PlainShape(m, false);
  }

  lemma {:induction false} LegalIsPresentable(g: Graph, root: Node, eff: seq<Entry>, limits: ArchiveLimits)
    requires Built(g, root, eff) && Ascending(eff) && Storable(root) && StorableAll(Roots(eff))
    requires Legal(g, 0, limits)
    ensures Presentable(root, eff)
  {
    hide Denotes, WellShaped, Laid, Storable, StorableAll;
    var root', ps :| Forest(g, limits, root', ps);
    NodeHasRecord(g.nodes, g.strings, 0, root);
    LaidDenotes(g.nodes, g.strings, 0, root);
    ShapeCarries(g, 0, root, root');
    NamesOf(g, root, eff);
    forall k | 0 <= k < |eff|
      ensures WellShaped(eff[k].root, false)
    {
      PartialTreeAt(g, ps, 0, k, limits);
      assert LaidPartial(g.nodes, g.strings, g.partials[k], eff[k], StartOf(root, eff, k));
      NodeHasRecord(g.nodes, g.strings, StartOf(root, eff, k), eff[k].root);
      LaidDenotes(g.nodes, g.strings, StartOf(root, eff, k), eff[k].root);
      StorableAt(eff, k);
      ShapeCarries(g, g.partials[k].root, eff[k].root, ps[k]);
    }
  }

  lemma {:induction false} StorableAt(eff: seq<Entry>, k: nat)
    requires k < |eff| && StorableAll(Roots(eff))
    ensures Storable(eff[k].root)
  {
    if k > 0 {
      StorableAt(eff[1..], k - 1);
    }
  }

  // ---- Main results -----------------------------------------------------------------------------------

  /** The size field matters only for a reader that knows the size of its input. */
  lemma {:induction false} SizedLegal(g: Graph, size: nat, inputBytes: nat, limits: ArchiveLimits)
    ensures Legal(g.(serializedSize := size), inputBytes, limits)
       <==> Legal(g, 0, limits) && (inputBytes == 0 || inputBytes == size)
  {
    var h := g.(serializedSize := size);
    forall k, ps: seq<Node>
      ensures PartialTrees(h, ps, k, limits) <==> PartialTrees(g, ps, k, limits)
    {
      SizedTrees(g, h, ps, k, limits);
    }
    forall root, ps: seq<Node>
      ensures Forest(h, limits, root, ps) <==> Forest(g, limits, root, ps)
    {
      SizedTrees(g, h, ps, 0, limits);
    }
    assert NamesLegal(h) <==> NamesLegal(g) by {
      assert forall k :: 0 <= k < |g.partials| ==> (NameLegal(h, k) <==> NameLegal(g, k));
    }
  }

  lemma {:induction false} SizedTrees(g: Graph, h: Graph, ps: seq<Node>, k: nat, limits: ArchiveLimits)
    requires h == g.(serializedSize := h.serializedSize)
    ensures PartialTrees(h, ps, k, limits) <==> PartialTrees(g, ps, k, limits)
    ensures PartialTrees(g, ps, k, limits) ==> VisitedFrom(h, ps, k, limits) == VisitedFrom(g, ps, k, limits)
    decreases ps
  {
    hide TreeLegal, Denotes, Visited;
    if ps != [] {
      SizedTrees(g, h, ps[1..], k + 1, limits);
    }
  }

  /** After a successful build, the validator under the very same limits can object to nothing but an ill-shaped tree, a
      root of another type or an empty partial name: every count and every link is as it demands. It does so in the writer,
      which does not know the size yet, and in the reader of a file of the size that the writer has put into the table. */
  lemma {:induction false} WriterNeverRefused(g: Graph, root: Node, eff: seq<Entry>, limits: ArchiveLimits, sizes: RecordSizes)
    requires Built(g, root, eff) && |g.strings| == TotalBytes(root, eff) && Ascending(eff)
    requires Fitting(root, eff, limits, sizes) && Storable(root) && StorableAll(Roots(eff))
    ensures Validation(g, 0, limits).Pass? <==> Presentable(root, eff)
    ensures forall size, inputBytes: nat ::
              Validation(g.(serializedSize := size), inputBytes, limits).Pass?
              <==> Presentable(root, eff) && (inputBytes == 0 || inputBytes == size)
  {
    ValidatorDecidesLegality(g, 0, limits);
    if Presentable(root, eff) {
      WrittenIsLegal(g, root, eff, limits, sizes);
    }
    if Legal(g, 0, limits) {
      LegalIsPresentable(g, root, eff, limits);
    }
    forall size: nat, inputBytes: nat
      ensures Validation(g.(serializedSize := size), inputBytes, limits).Pass?
              <==> Presentable(root, eff) && (inputBytes == 0 || inputBytes == size)
    {
      ValidatorDecidesLegality(g.(serializedSize := size), inputBytes, limits);
      SizedLegal(g, size, inputBytes, limits);
    }
  }

  /** Walking the written table from its root and from each partial gives back the trees that went in, and nothing else
      can be read there. */
  lemma {:induction false} FlattenReadBack(g: Graph, root: Node, eff: seq<Entry>)
    requires Built(g, root, eff) && Storable(root) && StorableAll(Roots(eff))
    ensures Denotes(g.nodes, g.strings, g.root, root)
    ensures forall m :: Denotes(g.nodes, g.strings, g.root, m) && Storable(m) ==>
              Plain(m) == Plain(root) && OriginalText(m) == OriginalText(root)
    ensures forall k :: 0 <= k < |eff| ==>
              InRange(g.partials[k].name, g.strings) && View(g.partials[k].name, g.strings) == eff[k].name
              && Denotes(g.nodes, g.strings, g.partials[k].root, eff[k].root)
    ensures forall k, m :: 0 <= k < |eff| && Denotes(g.nodes, g.strings, g.partials[k].root, m) && Storable(m) ==>
              Plain(m) == Plain(eff[k].root) && OriginalText(m) == OriginalText(eff[k].root)
  {
    hide DenotesChain, Records, Laid, Storable, StorableAll, OriginalText;
    NodeHasRecord(g.nodes, g.strings, 0, root);
    LaidDenotes(g.nodes, g.strings, 0, root);
    forall m | Denotes(g.nodes, g.strings, g.root, m) && Storable(m)
      ensures Plain(m) == Plain(root) && OriginalText(m) == OriginalText(root)
    {
      DenotesUnique(g.nodes, g.strings, g.root, m, root);
    }
    forall k | 0 <= k < |eff|
      ensures InRange(g.partials[k].name, g.strings) && View(g.partials[k].name, g.strings) == eff[k].name
      ensures Denotes(g.nodes, g.strings, g.partials[k].root, eff[k].root)
    {
      assert LaidPartial(g.nodes, g.strings, g.partials[k], eff[k], StartOf(root, eff, k));
      NodeHasRecord(g.nodes, g.strings, StartOf(root, eff, k), eff[k].root);
      LaidDenotes(g.nodes, g.strings, StartOf(root, eff, k), eff[k].root);
    }
    forall k, m | 0 <= k < |eff| && Denotes(g.nodes, g.strings, g.partials[k].root, m) && Storable(m)
      ensures Plain(m) == Plain(eff[k].root) && OriginalText(m) == OriginalText(eff[k].root)
    {
      StorableAt(eff, k);
      DenotesUnique(g.nodes, g.strings, g.partials[k].root, m, eff[k].root);
    }
  }
}
