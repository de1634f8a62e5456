/** Rendering an archive is rendering the template it was made from. */
module RenderAgreement {
  import opened Base
  import opened Template
  import opened Partials
  import opened ArchiveGraph
  import opened ArchiveLegality
  import opened ArchiveLayout
  import opened ArchiveBuilder
  import opened ArchiveWriter
  import ArchiveValidator
  import opened RenderTrace
  import opened RenderLimits
  import opened NodeViews
  import opened RenderEngine

  /** The partials of an owned template: the caller's first, then the root's own. */
  function OwnedEnv(external: seq<Entry>, own: seq<Entry>): Env {
    name => FirstOwned(None, external, own, name)
  }

  function TableEnv(eff: seq<Entry>): Env {
    name => Find(eff, name)
  }

  /** The outcome of a render into an empty buffer, as `Renderer` reports it. */
  function Whole(n: Node, env: Env, data: Data, limits: Limits, strict: bool): Performed {
    Rendered(n, Context(env, strict), data, limits, [])
  }

  method RenderOwned(root: Node, own: seq<Entry>, external: seq<Entry>, data: Data, limits: Limits, strict: bool)
    returns (p: Performed)
    requires root.Node?
    ensures p == Whole(root, OwnedEnv(external, own), data, limits, strict)
  {
    hide TraceNode, Run;
    var renderer := new Renderer(limits, strict, OwnedPartials(None, external, own), true, []);
    ghost var c := Context(OwnedEnv(external, own), strict);
    var r := renderer.RenderRoot(Owned(root), Some(data), root, c);
    p := Performed(Progress(renderer.nodeVisits, renderer.output), r);
  }

  /** Rendering straight from the table, without rebuilding any tree. */
  method RenderArchive(g: Graph, data: Data, limits: Limits, strict: bool, ghost root: Node, ghost env: Env)
    returns (p: Performed)
    requires g.root != INVALID && Denotes(g.nodes, g.strings, g.root, root) && Storable(root)
    requires Serves(ArchivedPartials(g), env)
    ensures p == Whole(root, env, data, limits, strict)
  {
    hide TraceNode, Run, Storable, DenotesChain, Records, Serves;
    var renderer := new Renderer(limits, strict, ArchivedPartials(g), true, []);
    var r := renderer.RenderRoot(Archived(g, g.root), Some(data), root, Context(env, strict));
    p := Performed(Progress(renderer.nodeVisits, renderer.output), r);
  }

  // ---- Tables that were built -----------------------------------------------------------------------

  lemma {:induction false} BuiltIsIndexed(g: Graph, root: Node, eff: seq<Entry>)
    requires Built(g, root, eff) && Storable(root) && StorableAll(Roots(eff)) && Ascending(eff)
    ensures Indexed(g, eff) && g.root != INVALID && Denotes(g.nodes, g.strings, g.root, root)
  {
    hide DenotesChain, Records, Laid, Storable, StorableAll, Denotes;
    FlattenReadBack(g, root, eff);
    forall k | 0 <= k < |eff|
      ensures Indexes(g.partials[k], g, eff[k])
    {
      assert LaidPartial(g.nodes, g.strings, g.partials[k], eff[k], StartOf(root, eff, k));
      NodeHasRecord(g.nodes, g.strings, StartOf(root, eff, k), eff[k].root);
      StorableAt(eff, k);
    }
  }

  /** Both partial sources are the same function of the name. */
  lemma {:induction false} SameEnvironment(own: seq<Entry>, external: seq<Entry>)
    requires Ascending(own) && Ascending(external)
    ensures forall name :: TableEnv(Effective(own, external))(name) == OwnedEnv(external, own)(name)
  {
    hide Effective;
    forall name
      ensures TableEnv(Effective(own, external))(name) == OwnedEnv(external, own)(name)
    {
      EffectiveLookup(own, external, name);
    }
  }

  /** For every template, partial maps, data and limits: once the archive can be written, rendering it gives the same
      output and the same failure as rendering the template itself. */
  method RenderBothWays(root: Node, own: seq<Entry>, external: seq<Entry>, data: Data, limits: Limits, strict: bool,
                        archiveLimits: ArchiveLimits, sizes: RecordSizes, ghost texts: map<nat, Bytes>)
    returns (archive: Result<Graph>, owned: Performed, archived: Option<Performed>)
    requires root.Node? && Ascending(own) && Ascending(external)
    requires Shared(root, texts) && SharedAll(Roots(Effective(own, external)), texts)
    ensures owned == Whole(root, OwnedEnv(external, own), data, limits, strict)
    ensures archived == if archive.Ok? then Some(owned) else None
    ensures archive.Ok? <==> Fitting(root, Effective(own, external), archiveLimits, sizes) && Storable(root)
                             && StorableAll(Roots(Effective(own, external)))
  {
    hide TraceNode, Run, Fitting, Storable, StorableAll, Shared, SharedAll, Built, Effective;
    owned := RenderOwned(root, own, external, data, limits, strict);
    var builder := new Builder(archiveLimits, sizes);
    archive := builder.Build(root, own, external, texts);
    archived := None;
    if archive.Ok? {
      EffectiveAscending(own, external);
      BuiltIsIndexed(archive.value, root, Effective(own, external));
      ServedBy(archive.value, own, external);
      var p := RenderArchive(archive.value, data, limits, strict, root, OwnedEnv(external, own));
      archived := Some(p);
    }
  }

  lemma {:induction false} EffectiveAscending(own: seq<Entry>, external: seq<Entry>)
    ensures Ascending(Effective(own, external))
  {
    OverlayAscending([], own);
    OverlayAscending(Overlay([], own), external);
  }

  lemma {:induction false} ServedBy(g: Graph, own: seq<Entry>, external: seq<Entry>)
    requires Ascending(own) && Ascending(external) && Indexed(g, Effective(own, external))
    ensures Serves(ArchivedPartials(g), OwnedEnv(external, own))
  {
    hide Effective, Indexed;
    SameEnvironment(own, external);
    var eff := Effective(own, external);
    forall name
      ensures OwnedEnv(external, own)(name) == Find(eff, name)
    {
      assert TableEnv(eff)(name) == Find(eff, name);
    }
  }

  // ---- Tables that the validator accepted -------------------------------------------------------------

  /** Rendering accepted bytes never reads outside the table: it renders the trees the table denotes. The number of
      records is what a 32-bit size can say. */
  method RenderAccepted(g: Graph, inputBytes: nat, archiveLimits: ArchiveLimits, data: Data, limits: Limits)
    returns (r: Result<Performed>)
    requires |g.nodes| <= INVALID
    ensures r.Ok? <==> Legal(g, inputBytes, archiveLimits)
    ensures r.Ok? ==> exists root, eff ::
              Denotes(g.nodes, g.strings, g.root, root) && TreeLegal(root, archiveLimits) && Indexed(g, eff)
              && r.value == Whole(root, TableEnv(eff), data, limits, false)
  {
    hide TraceNode, Run, Storable, Denotes, TreeLegal, Indexed, Legal, Whole;
    var validator := new ArchiveValidator.Validator(g, archiveLimits, inputBytes);
    var checked := validator.Validate();
    ValidatorDecidesLegality(g, inputBytes, archiveLimits);
    if checked.Fail? {
      return Err(checked.error);
    }
    ghost var root, eff := AcceptedIsIndexed(g, inputBytes, archiveLimits);
    assert forall name :: TableEnv(eff)(name) == Find(eff, name);
    var p := RenderArchive(g, data, limits, false, root, TableEnv(eff));
    r := Ok(p);
  }

  lemma {:induction false} AcceptedIsIndexed(g: Graph, inputBytes: nat, limits: ArchiveLimits)
    returns (root: Node, eff: seq<Entry>)
    requires Legal(g, inputBytes, limits) && |g.nodes| <= INVALID
    ensures Denotes(g.nodes, g.strings, g.root, root) && Storable(root) && TreeLegal(root, limits) && Indexed(g, eff)
    ensures g.root != INVALID
  {
    hide Denotes, Storable, WellShaped;
    var ps: seq<Node>;
    root, ps :| Forest(g, limits, root, ps);
    ShapedStorable(root, false, g.nodes, g.strings, g.root);
    forall k | 0 <= k < |g.partials|
      ensures InRange(g.partials[k].name, g.strings)
    {
      assert NameLegal(g, k);
    }
    TreesCount(g, ps, 0, limits);
    eff := seq(|g.partials|, k requires 0 <= k < |g.partials| => Entry(View(g.partials[k].name, g.strings), ps[k]));
    forall k | 0 <= k < |eff|
      ensures Indexes(g.partials[k], g, eff[k])
    {
      PartialTreeAt(g, ps, 0, k, limits);
      InTable(g.nodes, g.strings, g.partials[k].root, ps[k]);
      ShapedStorable(ps[k], false, g.nodes, g.strings, g.partials[k].root);
    }
  }

  lemma {:induction false} InTable(nodes: seq<ArchiveNode>, strings: Bytes, i: u32, n: Node)
    requires Denotes(nodes, strings, i, n)
    ensures i < |nodes|
  {
    hide DenotesChain, Records;
  }

  lemma {:induction false} TreesCount(g: Graph, ps: seq<Node>, k: nat, limits: ArchiveLimits)
    requires PartialTrees(g, ps, k, limits)
    ensures k + |ps| == |g.partials|
    decreases |ps|
  {
    hide Denotes, TreeLegal;
    if ps != [] {
      TreesCount(g, ps[1..], k + 1, limits);
    }
  }
}
