/** The validator accepts a table exactly when the table denotes a legal forest. */
module ArchiveLegality {
  import opened Base
  import opened Template
  import opened Partials
  import opened ArchiveGraph
  import opened ArchiveValidator

  // ---- Legal forests ----------------------------------------------------------------------------

  /** The limits and shape rules that every tree of the archive obeys by itself. */
  predicate TreeLegal(n: Node, limits: ArchiveLimits) {
    WellShaped(n, false) && Height(n) <= DepthLimit(limits) && PartsWithin(n, limits.maxDataPartsPerNode)
  }

  /** A record no sibling link leaves: the root of a tree. */
  predicate StandsAlone(g: Graph, i: u32) {
    i < |g.nodes| && g.nodes[i].nextSibling == INVALID
  }

  /** The partials from the k-th on denote the legal trees ps. */
  predicate PartialTrees(g: Graph, ps: seq<Node>, k: nat, limits: ArchiveLimits)
    decreases ps
  {
    if k >= |g.partials| then k == |g.partials| && ps == []
    else
      ps != [] && Denotes(g.nodes, g.strings, g.partials[k].root, ps[0]) && StandsAlone(g, g.partials[k].root)
      && TreeLegal(ps[0], limits) && PartialTrees(g, ps[1..], k + 1, limits)
  }

  /** The indices of the records those trees occupy. */
  function VisitedFrom(g: Graph, ps: seq<Node>, k: nat, limits: ArchiveLimits): seq<nat>
    requires PartialTrees(g, ps, k, limits)
    decreases ps
  {
    if k == |g.partials| then []
    else Visited(g.nodes, g.strings, g.partials[k].root, ps[0]) + VisitedFrom(g, ps[1..], k + 1, limits)
  }

  predicate NameLegal(g: Graph, k: nat)
    requires k < |g.partials|
  {
    InRange(g.partials[k].name, g.strings) && View(g.partials[k].name, g.strings) != []
  }

  /** Non-empty partial names in strictly ascending order. */
  predicate NamesLegal(g: Graph) {
    (forall k :: 0 <= k < |g.partials| ==> NameLegal(g, k))
    && forall j, k :: 0 <= j < k < |g.partials| ==>
         NameLegal(g, j) && NameLegal(g, k)
         && Less(View(g.partials[j].name, g.strings), View(g.partials[k].name, g.strings))
  }

  /** The table is the disjoint union of the tree of the root and one tree for each partial. */
  predicate Forest(g: Graph, limits: ArchiveLimits, root: Node, ps: seq<Node>) {
    && Denotes(g.nodes, g.strings, g.root, root) && root.kind.TypeRoot? && StandsAlone(g, g.root)
    && TreeLegal(root, limits)
    && PartialTrees(g, ps, 0, limits)
    && PartCount(root) + PartCountAll(ps) <= limits.maxTotalDataParts
    && var all := Visited(g.nodes, g.strings, g.root, root) + VisitedFrom(g, ps, 0, limits);
       Distinct(all) && |all| == |g.nodes|
  }

  ghost predicate Legal(g: Graph, inputBytes: nat, limits: ArchiveLimits) {
    && g.magic == MAGIC && g.version == SCHEMA_VERSION && (inputBytes == 0 || g.serializedSize == inputBytes)
    && 0 < |g.nodes| <= limits.maxNodes && |g.strings| <= limits.maxTotalStringBytes
    && NamesLegal(g)
    && exists root, ps :: Forest(g, limits, root, ps)
  }

  // ---- One record -------------------------------------------------------------------------------

  function OptionOf(present: bool, s: Slice, strings: Bytes): Option<Bytes>
    requires InRange(s, strings)
  {
    if present then Some(View(s, strings)) else None
  }

  /** The node a sound record stores, given its children. */
  function NodeOf(r: ArchiveNode, strings: Bytes, children: seq<Node>): Node
    requires InRange(r.data, strings) && InRange(r.startSequence, strings) && InRange(r.stopSequence, strings)
    requires InRange(r.originalSectionText, strings)
  {
    Node(TypeOf(r.kind), r.flags, OptionOf(Has(r, HAS_DATA), r.data, strings), children, Null,
         OptionOf(Has(r, HAS_START), r.startSequence, strings), OptionOf(Has(r, HAS_STOP), r.stopSequence, strings),
         if Has(r, HAS_ORIGINAL) then
           var text := View(r.originalSectionText, strings);
           Some(SourceSlice(0, text, 0, |text|))
         else None)
  }

  lemma {:induction false} PresenceFromBits(v: u8)
    ensures v < 16 <==> v == (if Bit(v, 1) then 1 else 0) + (if Bit(v, 2) then 2 else 0)
                             + (if Bit(v, 4) then 4 else 0) + (if Bit(v, 8) then 8 else 0)
  {
  }

  lemma {:induction false} BitsFromPresence(a: bool, b: bool, c: bool, d: bool)
    ensures var v := (if a then 1 else 0) + (if b then 2 else 0) + (if c then 4 else 0) + (if d then 8 else 0);
            Bit(v, 1) == a && Bit(v, 2) == b && Bit(v, 4) == c && Bit(v, 8) == d
  {
  }

  lemma {:induction false} SoundRecord(r: ArchiveNode, strings: Bytes, marker: bool, children: seq<Node>)
    requires CheckRecord(r, strings, marker).Pass?
    requires r.firstChild == INVALID ==> children == []
    ensures InRange(r.data, strings) && InRange(r.startSequence, strings) && InRange(r.stopSequence, strings)
    ensures InRange(r.originalSectionText, strings)
    ensures var n := NodeOf(r, strings, children);
            Records(r, strings, n) && ShapeAllowed(n.kind, n.flags, n.data.Some?, |children|)
            && (Bit(n.flags, FLAG_PARTIAL_INDENT) ==> marker)
            && (n.start.Some? <==> n.stop.Some?) && (n.start.Some? ==> n.kind.TypeSection?)
            && RecordParts(r, strings) == NodeParts(n)
  {
    hide TypeOf, FlagsAllowed, HasChildren, Count;
    PresenceFromBits(r.presence);
    var n := NodeOf(r, strings, children);
    if n.source.Some? {
      var t := n.source.value.text;
      assert t[0..|t|] == t;
    }
    RootHasNoParts();
  }

  lemma {:induction false} RootHasNoParts()
    ensures !HasDot(TypeRoot)
  {
  }

  lemma {:induction false} CompleteRecord(r: ArchiveNode, strings: Bytes, marker: bool, n: Node)
    requires n.Node? && Records(r, strings, n) && ShapeAllowed(n.kind, n.flags, n.data.Some?, |n.children|)
    requires Bit(n.flags, FLAG_PARTIAL_INDENT) ==> marker
    requires (n.start.Some? <==> n.stop.Some?) && (n.start.Some? ==> n.kind.TypeSection?)
    requires r.firstChild != INVALID ==> n.children != []
    ensures CheckRecord(r, strings, marker).Pass? && RecordParts(r, strings) == NodeParts(n)
    ensures TypeOf(r.kind) == n.kind
  {
    hide FlagsAllowed, HasChildren, Count;
    SerializableCode(n.kind);
    hide TypeOf, Code;
    BitsFromPresence(n.data.Some?, n.start.Some?, n.stop.Some?, OriginalText(n).Some?);
    RootHasNoParts();
  }

  lemma {:induction false} SerializableCode(t: Type)
    requires IsSerializableType(t)
    ensures TypeOf(Code(t)) == t
  {
  }

  // ---- Index lists --------------------------------------------------------------------------------

  ghost function Elems(s: seq<nat>): set<nat> {
    set x | x in s
  }

  lemma {:induction false} ElemsOfDistinct(s: seq<nat>)
    requires Distinct(s)
    ensures |Elems(s)| == |s|
  {
    if s != [] {
      var front, last := s[..|s| - 1], s[|s| - 1];
      ElemsOfDistinct(front);
      assert Elems(s) == Elems(front) + {last};
      assert last !in Elems(front);
    }
  }

  lemma {:induction false} DistinctSplit(s: seq<nat>, t: seq<nat>)
    ensures Distinct(s + t) <==> Distinct(s) && Distinct(t) && Elems(s) !! Elems(t)
    ensures Elems(s + t) == Elems(s) + Elems(t)
  {
    if Distinct(s) && Distinct(t) && Elems(s) !! Elems(t) {
      forall i, j | 0 <= i < j < |s + t|
        ensures (s + t)[i] != (s + t)[j]
      {
        if i < |s| <= j {
          assert s[i] in Elems(s) && t[j - |s|] in Elems(t);
        }
      }
    }
    if Distinct(s + t) {
      forall i, j | 0 <= i < j < |s|
        ensures s[i] != s[j]
      {
        assert (s + t)[i] == s[i] && (s + t)[j] == s[j];
      }
      forall i, j | 0 <= i < j < |t|
        ensures t[i] != t[j]
      {
        assert (s + t)[|s| + i] == t[i] && (s + t)[|s| + j] == t[j];
      }
      forall i, j | 0 <= i < |s| && 0 <= j < |t|
        ensures s[i] != t[j]
      {
        assert (s + t)[i] == s[i] && (s + t)[|s| + j] == t[j];
      }
    }
  }

  lemma {:induction false} SubsetSize(s: set<nat>, n: nat)
    requires s <= Indices(n)
    ensures |s| <= n
    ensures forall i: nat :: i < n && i !in s ==> |s| < n
  {
    var all := Indices(n);
    assert all == s + (all - s);
    forall i: nat | i < n && i !in s
      ensures |s| < n
    {
      assert i in all - s;
    }
  }

  // ---- Markers among siblings ---------------------------------------------------------------------

  lemma {:induction false} MarkersCons(n: Node, rest: seq<Node>)
    ensures MarkersPlaced([n] + rest) <==>
            MarkersPlaced(rest)
            && (n.Node? && Bit(n.flags, FLAG_PARTIAL_INDENT) ==>
                  IsMarker(n) && rest != [] && rest[0].Node? && rest[0].kind.TypePartial?)
  {
    var ns := [n] + rest;
    assert ns[0] == n && (rest != [] ==> ns[1] == rest[0]);
    if MarkersPlaced(ns) {
      forall i | 0 <= i < |rest| && rest[i].Node? && Bit(rest[i].flags, FLAG_PARTIAL_INDENT)
        ensures IsMarker(rest[i]) && i + 1 < |rest| && rest[i + 1].Node? && rest[i + 1].kind.TypePartial?
      {
        assert ns[i + 1] == rest[i] && (i + 1 < |rest| ==> ns[i + 2] == rest[i + 1]);
      }
    }
    if MarkersPlaced(rest) {
      forall i | 1 <= i < |ns| && ns[i].Node? && Bit(ns[i].flags, FLAG_PARTIAL_INDENT)
        ensures IsMarker(ns[i]) && i + 1 < |ns| && ns[i + 1].Node? && ns[i + 1].kind.TypePartial?
      {
        assert ns[i] == rest[i - 1] && (i + 1 < |ns| ==> ns[i + 1] == rest[i]);
      }
    }
  }

  // ---- Soundness: a walk that succeeds finds a tree -------------------------------------------------

  /** Between p and q exactly the records in v have been marked, each for the first time. */
  ghost predicate Marked(v: seq<nat>, parts: nat, p: Progress, q: Progress) {
    Distinct(v) && Elems(v) !! p.seen && q == Progress(p.seen + Elems(v), p.parts + parts)
  }

  lemma {:induction false} MarkedTwice(v: seq<nat>, parts: nat, w: seq<nat>, parts': nat, p: Progress, q: Progress, r: Progress)
    requires Marked(v, parts, p, q) && Marked(w, parts', q, r)
    ensures Marked(v + w, parts + parts', p, r)
  {
    DistinctSplit(v, w);
  }

  /** What one successful walk over the tree n at record i has established. */
  ghost predicate Walked(nodes: seq<ArchiveNode>, strings: Bytes, i: u32, n: Node, p: Progress, q: Progress,
                         limits: ArchiveLimits) {
    && Denotes(nodes, strings, i, n)
    && PartsWithin(n, limits.maxDataPartsPerNode)
    && Marked(Visited(nodes, strings, i, n), PartCount(n), p, q)
  }

  ghost predicate WalkedChain(nodes: seq<ArchiveNode>, strings: Bytes, i: u32, ns: seq<Node>, p: Progress, q: Progress,
                              limits: ArchiveLimits) {
    && DenotesChain(nodes, strings, i, ns)
    && PartsWithinAll(ns, limits.maxDataPartsPerNode)
    && Marked(VisitedChain(nodes, strings, i, ns), PartCountAll(ns), p, q)
  }

  lemma {:induction false} VisitSound(nodes: seq<ArchiveNode>, strings: Bytes, i: u32, depth: nat, marker: bool,
                                      p: Progress, limits: ArchiveLimits) returns (n: Node)
    requires Within(p, nodes) && Visit(nodes, strings, i, depth, marker, p, limits).Ok?
    ensures Walked(nodes, strings, i, n, p, Visit(nodes, strings, i, depth, marker, p, limits).value, limits)
    ensures WellShaped(n, marker) && depth + Height(n) <= DepthLimit(limits)
    ensures Visit(nodes, strings, i, depth, marker, p, limits).value.parts <= limits.maxTotalDataParts
    decreases Indices(|nodes|) - p.seen, 0
  {
    hide CheckRecord, RecordParts, Records, ShapeAllowed;
    var r := nodes[i];
    var parts := RecordParts(r, strings);
    var p' := Progress(p.seen + {i as nat}, p.parts + parts);
    var ns := ChainSound(nodes, strings, r.firstChild, depth, p', limits);
    SoundRecord(r, strings, marker, ns);
    n := NodeOf(r, strings, ns);
    WalkedNode(nodes, strings, i, n, p, p', Visit(nodes, strings, i, depth, marker, p, limits).value, limits);
  }

  lemma {:induction false} WalkedNode(nodes: seq<ArchiveNode>, strings: Bytes, i: u32, n: Node, p: Progress, p': Progress,
                                      q: Progress,
                   limits: ArchiveLimits)
    requires i < |nodes| && n.Node? && n.child.Null? && Records(nodes[i], strings, n)
    requires i !in p.seen && p' == Progress(p.seen + {i as nat}, p.parts + NodeParts(n))
    requires NodeParts(n) <= limits.maxDataPartsPerNode
    requires WalkedChain(nodes, strings, nodes[i].firstChild, n.children, p', q, limits)
    ensures Walked(nodes, strings, i, n, p, q, limits)
  {
    hide Records, NodeParts;
    assert Elems([i as nat]) == {i as nat};
    MarkedTwice([i as nat], NodeParts(n), VisitedChain(nodes, strings, nodes[i].firstChild, n.children),
                PartCountAll(n.children), p, p', q);
  }

  lemma {:induction false} WalkedSiblings(nodes: seq<ArchiveNode>, strings: Bytes, i: u32, n: Node, rest: seq<Node>,
                       p: Progress, q: Progress, r: Progress, limits: ArchiveLimits)
    requires i != INVALID && i < |nodes| && Walked(nodes, strings, i, n, p, q, limits)
    requires WalkedChain(nodes, strings, nodes[i].nextSibling, rest, q, r, limits)
    ensures WalkedChain(nodes, strings, i, [n] + rest, p, r, limits)
  {
    hide Marked, Denotes;
    var ns := [n] + rest;
    assert ns[0] == n && ns[1..] == rest;
    MarkedTwice(Visited(nodes, strings, i, n), PartCount(n),
                VisitedChain(nodes, strings, nodes[i].nextSibling, rest), PartCountAll(rest), p, q, r);
  }

  lemma {:induction false} ChainSound(nodes: seq<ArchiveNode>, strings: Bytes, i: u32, depth: nat, p: Progress,
                                      limits: ArchiveLimits) returns (ns: seq<Node>)
    requires Within(p, nodes) && VisitChain(nodes, strings, i, depth, p, limits).Ok?
    requires depth < DepthLimit(limits) && p.parts <= limits.maxTotalDataParts
    ensures WalkedChain(nodes, strings, i, ns, p, VisitChain(nodes, strings, i, depth, p, limits).value, limits)
    ensures WellShapedAll(ns) && MarkersPlaced(ns) && depth + 1 + HeightAll(ns) <= DepthLimit(limits)
    ensures VisitChain(nodes, strings, i, depth, p, limits).value.parts <= limits.maxTotalDataParts
    decreases Indices(|nodes|) - p.seen, 1
  {
    hide Visit, Records, WellShaped, IsMarker, Walked, CheckMarker, MarkersPlaced;
    hide WalkedChain;
    if i == INVALID {
      ns := [];
      NoSiblings(nodes, strings, p, limits);
      NoMarkers();
    } else {
      var next := nodes[i].nextSibling;
      var marker := Bit(nodes[i].flags, FLAG_PARTIAL_INDENT);
      var n := VisitSound(nodes, strings, i, depth + 1, marker, p, limits);
      var q := Visit(nodes, strings, i, depth + 1, marker, p, limits).value;
      var rest := ChainSound(nodes, strings, next, depth, q, limits);
      ns := [n] + rest;
      assert ns[0] == n && ns[1..] == rest;
      WalkedSiblings(nodes, strings, i, n, rest, p, q, VisitChain(nodes, strings, next, depth, q, limits).value, limits);
      PlacedMarker(nodes, strings, i, n, rest, marker, p, q, VisitChain(nodes, strings, next, depth, q, limits).value, limits);
      MarkersCons(n, rest);
    }
  }

  lemma {:induction false} NoSiblings(nodes: seq<ArchiveNode>, strings: Bytes, p: Progress, limits: ArchiveLimits)
    ensures WalkedChain(nodes, strings, INVALID, [], p, p, limits)
  {
    assert Elems([]) == {};
  }

  lemma {:induction false} NoMarkers()
    ensures MarkersPlaced([])
  {
  }

  /** The check on the record of a sibling is the placement rule for markers. */
  lemma {:induction false} PlacedMarker(nodes: seq<ArchiveNode>, strings: Bytes, i: u32, n: Node, rest: seq<Node>, marker: bool,
                     p: Progress, q: Progress, r: Progress, limits: ArchiveLimits)
    requires Walked(nodes, strings, i, n, p, q, limits)
    requires WalkedChain(nodes, strings, nodes[i].nextSibling, rest, q, r, limits)
    requires WellShapedAll(rest) && WellShaped(n, marker)
    requires marker == Bit(nodes[i].flags, FLAG_PARTIAL_INDENT)
    requires nodes[i].nextSibling == INVALID || nodes[i].nextSibling < |nodes|
    requires marker ==> CheckMarker(nodes, strings, nodes[i]).Pass?
    ensures n.Node? && marker == Bit(n.flags, FLAG_PARTIAL_INDENT)
    ensures marker ==> IsMarker(n) && rest != [] && rest[0].Node? && rest[0].kind.TypePartial?
    ensures WellShaped(n, IsMarker(n))
  {
    MarkerRecord(nodes, strings, i, n, rest, marker);
  }

  lemma {:induction false} MarkerRecord(nodes: seq<ArchiveNode>, strings: Bytes, i: u32, n: Node, rest: seq<Node>, marker: bool)
    requires Denotes(nodes, strings, i, n) && DenotesChain(nodes, strings, nodes[i].nextSibling, rest)
    requires WellShapedAll(rest) && WellShaped(n, marker)
    requires marker == Bit(nodes[i].flags, FLAG_PARTIAL_INDENT)
    requires nodes[i].nextSibling == INVALID || nodes[i].nextSibling < |nodes|
    ensures marker ==> (CheckMarker(nodes, strings, nodes[i]).Pass? <==>
                        IsMarker(n) && rest != [] && rest[0].Node? && rest[0].kind.TypePartial?)
  {
    if rest != [] {
      SerializableCode(rest[0].kind);
    }
    SerializableCode(n.kind);
    hide TypeOf, HasChildren, HasDot;
    BitsFromPresence(n.data.Some?, n.start.Some?, n.stop.Some?, OriginalText(n).Some?);
  }

  // ---- Completeness: over a legal tree the walk succeeds --------------------------------------------

  lemma {:induction false} VisitComplete(nodes: seq<ArchiveNode>, strings: Bytes, i: u32, n: Node, depth: nat,
                                         marker: bool, p: Progress, q: Progress, limits: ArchiveLimits)
    requires Within(p, nodes) && Walked(nodes, strings, i, n, p, q, limits) && |nodes| <= limits.maxNodes
    requires WellShaped(n, marker) && depth + Height(n) <= DepthLimit(limits) && q.parts <= limits.maxTotalDataParts
    ensures Visit(nodes, strings, i, depth, marker, p, limits) == Ok(q)
    decreases n, 0
  {
    hide CheckRecord, RecordParts, Records, ShapeAllowed, MarkersPlaced, Walked, WalkedChain, VisitChain;
    var m := NodeUnwalked(nodes, strings, i, n, p, q, limits);
    var r := nodes[i];
    SubsetSize(p.seen, |nodes|);
    CompleteRecord(r, strings, marker, n);
    ChainComplete(nodes, strings, r.firstChild, n.children, depth, m, q, limits);
  }

  lemma {:induction false} MarkedSplit(v: seq<nat>, parts: nat, w: seq<nat>, parts': nat, p: Progress,
                                       r: Progress) returns (q: Progress)
    requires Marked(v + w, parts + parts', p, r)
    ensures Marked(v, parts, p, q) && Marked(w, parts', q, r)
    ensures q == Progress(p.seen + Elems(v), p.parts + parts)
  {
    DistinctSplit(v, w);
    q := Progress(p.seen + Elems(v), p.parts + parts);
  }

  lemma {:induction false} NodeUnwalked(nodes: seq<ArchiveNode>, strings: Bytes, i: u32, n: Node, p: Progress, q: Progress,
                     limits: ArchiveLimits) returns (m: Progress)
    requires Within(p, nodes) && Walked(nodes, strings, i, n, p, q, limits)
    ensures n.Node? && i < |nodes| && Records(nodes[i], strings, n)
    ensures nodes[i].firstChild != INVALID ==> n.children != []
    ensures i !in p.seen && m == Progress(p.seen + {i as nat}, p.parts + NodeParts(n)) && Within(m, nodes)
    ensures m.parts <= q.parts && NodeParts(n) <= limits.maxDataPartsPerNode
    ensures WalkedChain(nodes, strings, nodes[i].firstChild, n.children, m, q, limits)
  {
    hide Records, NodeParts;
    assert Elems([i as nat]) == {i as nat};
    assert i in Elems([i as nat]);
    m := MarkedSplit([i as nat], NodeParts(n), VisitedChain(nodes, strings, nodes[i].firstChild, n.children),
                     PartCountAll(n.children), p, q);
  }

  lemma {:induction false} ChainComplete(nodes: seq<ArchiveNode>, strings: Bytes, i: u32, ns: seq<Node>, depth: nat,
                                         p: Progress, q: Progress, limits: ArchiveLimits)
    requires Within(p, nodes) && WalkedChain(nodes, strings, i, ns, p, q, limits) && |nodes| <= limits.maxNodes
    requires WellShapedAll(ns) && MarkersPlaced(ns)
    requires depth + 1 + HeightAll(ns) <= DepthLimit(limits) && q.parts <= limits.maxTotalDataParts
    ensures VisitChain(nodes, strings, i, depth, p, limits) == Ok(q)
    decreases ns, 1
  {
    hide Records, WellShaped, IsMarker, CheckMarker, MarkersPlaced, PartsWithin, Visit;
    if i == INVALID {
      assert Elems([]) == {};
      assert q == p;
    } else {
      var n, rest, next := ns[0], ns[1..], nodes[i].nextSibling;
      var m := MarkedSplit(Visited(nodes, strings, i, n), PartCount(n), VisitedChain(nodes, strings, next, rest),
                           PartCountAll(rest), p, q);
      assert ns == [n] + rest;
      MarkersCons(n, rest);
      var marker := Bit(nodes[i].flags, FLAG_PARTIAL_INDENT);
      SiblingReady(nodes, strings, i, n, rest, marker);
      VisitComplete(nodes, strings, i, n, depth + 1, marker, p, m, limits);
      ChainComplete(nodes, strings, next, rest, depth, m, q, limits);
    }
  }

  lemma {:induction false} SiblingReady(nodes: seq<ArchiveNode>, strings: Bytes, i: u32, n: Node, rest: seq<Node>, marker: bool)
    requires Denotes(nodes, strings, i, n) && DenotesChain(nodes, strings, nodes[i].nextSibling, rest)
    requires WellShapedAll(rest) && WellShaped(n, IsMarker(n))
    requires marker == Bit(nodes[i].flags, FLAG_PARTIAL_INDENT)
    requires Bit(n.flags, FLAG_PARTIAL_INDENT) ==> IsMarker(n) && rest != [] && rest[0].Node? && rest[0].kind.TypePartial?
    ensures nodes[i].nextSibling == INVALID || nodes[i].nextSibling < |nodes|
    ensures WellShaped(n, marker) && marker == Bit(n.flags, FLAG_PARTIAL_INDENT)
    ensures marker ==> CheckMarker(nodes, strings, nodes[i]).Pass?
  {
    MarkerRecord(nodes, strings, i, n, rest, marker);
  }

  // ---- The table as a whole -------------------------------------------------------------------------

  ghost predicate WalkedFrom(g: Graph, ps: seq<Node>, k: nat, p: Progress, q: Progress, limits: ArchiveLimits) {
    PartialTrees(g, ps, k, limits) && Marked(VisitedFrom(g, ps, k, limits), PartCountAll(ps), p, q)
  }

  predicate CheckedPartial(g: Graph, k: nat)
    requires k < |g.partials|
  {
    (k > 0 ==> InRange(g.partials[k - 1].name, g.strings)) && CheckPartial(g, k).Pass?
  }

  lemma {:induction false} PartialsSound(g: Graph, k: nat, p: Progress, limits: ArchiveLimits) returns (ps: seq<Node>)
    requires k <= |g.partials| && Within(p, g.nodes)
    requires k > 0 ==> InRange(g.partials[k - 1].name, g.strings)
    requires VisitPartials(g, k, p, limits).Ok? && p.parts <= limits.maxTotalDataParts
    ensures WalkedFrom(g, ps, k, p, VisitPartials(g, k, p, limits).value, limits)
    ensures forall j :: k <= j < |g.partials| ==> CheckedPartial(g, j)
    ensures VisitPartials(g, k, p, limits).value.parts <= limits.maxTotalDataParts
    decreases |g.partials| - k
  {
    hide Visit, WellShaped, Walked, WalkedFrom, CheckPartial, Height;
    if k == |g.partials| {
      ps := [];
      NoPartials(g, k, p, limits);
    } else {
      var n := VisitSound(g.nodes, g.strings, g.partials[k].root, 0, false, p, limits);
      var q := Visit(g.nodes, g.strings, g.partials[k].root, 0, false, p, limits).value;
      var rest := PartialsSound(g, k + 1, q, limits);
      ps := [n] + rest;
      PartialWalked(g, n, rest, k, p, q, VisitPartials(g, k, p, limits).value, limits);
    }
  }

  lemma {:induction false} NoPartials(g: Graph, k: nat, p: Progress, limits: ArchiveLimits)
    requires k == |g.partials|
    ensures WalkedFrom(g, [], k, p, p, limits)
  {
    assert Elems([]) == {};
  }

  lemma {:induction false} PartialWalked(g: Graph, n: Node, rest: seq<Node>, k: nat, p: Progress, q: Progress, r: Progress,
                      limits: ArchiveLimits)
    requires k < |g.partials| && CheckedPartial(g, k)
    requires WellShaped(n, false) && 0 + Height(n) <= DepthLimit(limits)
    requires Walked(g.nodes, g.strings, g.partials[k].root, n, p, q, limits)
    requires WalkedFrom(g, rest, k + 1, q, r, limits)
    ensures WalkedFrom(g, [n] + rest, k, p, r, limits)
  {
    hide Marked, Denotes, WellShaped, Height, PartsWithin;
    var ps := [n] + rest;
    assert ps[0] == n && ps[1..] == rest;
    MarkedTwice(Visited(g.nodes, g.strings, g.partials[k].root, n), PartCount(n),
                VisitedFrom(g, rest, k + 1, limits), PartCountAll(rest), p, q, r);
  }

  lemma {:induction false} PartialsComplete(g: Graph, ps: seq<Node>, k: nat, p: Progress, q: Progress,
                                            limits: ArchiveLimits)
    requires Within(p, g.nodes) && WalkedFrom(g, ps, k, p, q, limits) && |g.nodes| <= limits.maxNodes
    requires NamesLegal(g) && q.parts <= limits.maxTotalDataParts
    requires k <= |g.partials| && (k > 0 ==> NameLegal(g, k - 1))
    ensures VisitPartials(g, k, p, limits) == Ok(q)
    decreases |g.partials| - k
  {
    hide Visit, WellShaped, Walked, WalkedFrom, CheckPartial, NamesLegal, Height, NameLegal;
    if k == |g.partials| {
      NothingWalked(g, ps, k, p, q, limits);
    } else {
      var m := PartialUnwalked(g, ps, k, p, q, limits);
      VisitComplete(g.nodes, g.strings, g.partials[k].root, ps[0], 0, false, p, m, limits);
      PartialReady(g, k);
      PartialsComplete(g, ps[1..], k + 1, m, q, limits);
    }
  }

  lemma {:induction false} NothingWalked(g: Graph, ps: seq<Node>, k: nat, p: Progress, q: Progress, limits: ArchiveLimits)
    requires k == |g.partials| && WalkedFrom(g, ps, k, p, q, limits)
    ensures p == q
  {
    assert Elems([]) == {};
  }

  lemma {:induction false} PartialReady(g: Graph, k: nat)
    requires k < |g.partials| && NamesLegal(g) && StandsAlone(g, g.partials[k].root)
    requires k > 0 ==> NameLegal(g, k - 1)
    ensures NameLegal(g, k) && (k > 0 ==> InRange(g.partials[k - 1].name, g.strings)) && CheckPartial(g, k).Pass?
  {
  }

  lemma {:induction false} PartialUnwalked(g: Graph, ps: seq<Node>, k: nat, p: Progress, q: Progress, limits: ArchiveLimits)
    returns (m: Progress)
    requires WalkedFrom(g, ps, k, p, q, limits) && k < |g.partials|
    ensures ps != [] && Walked(g.nodes, g.strings, g.partials[k].root, ps[0], p, m, limits) && m.parts <= q.parts
    ensures WalkedFrom(g, ps[1..], k + 1, m, q, limits)
    ensures StandsAlone(g, g.partials[k].root) && WellShaped(ps[0], false) && 0 + Height(ps[0]) <= DepthLimit(limits)
  {
    hide Denotes, WellShaped, Height;
    m := MarkedSplit(Visited(g.nodes, g.strings, g.partials[k].root, ps[0]), PartCount(ps[0]),
                     VisitedFrom(g, ps[1..], k + 1, limits), PartCountAll(ps[1..]), p, q);
  }

  // ---- Main result ----------------------------------------------------------------------------------

  lemma {:induction false} Chained(g: Graph, j: nat, k: nat)
    requires j < k < |g.partials|
    requires forall i :: 0 <= i < |g.partials| ==> CheckedPartial(g, i)
    ensures NameLegal(g, j) && NameLegal(g, k)
    ensures Less(View(g.partials[j].name, g.strings), View(g.partials[k].name, g.strings))
  {
    assert CheckedPartial(g, k) && CheckedPartial(g, j) && CheckedPartial(g, k - 1);
    if j < k - 1 {
      Chained(g, j, k - 1);
      LessTransitive(View(g.partials[j].name, g.strings), View(g.partials[k - 1].name, g.strings),
                     View(g.partials[k].name, g.strings));
    }
  }

  lemma {:induction false} CheckedNames(g: Graph)
    requires forall i :: 0 <= i < |g.partials| ==> CheckedPartial(g, i)
    ensures NamesLegal(g)
  {
    forall k | 0 <= k < |g.partials|
      ensures NameLegal(g, k)
    {
      assert CheckedPartial(g, k);
    }
    forall j, k | 0 <= j < k < |g.partials|
      ensures NameLegal(g, j) && NameLegal(g, k)
              && Less(View(g.partials[j].name, g.strings), View(g.partials[k].name, g.strings))
    {
      Chained(g, j, k);
    }
  }

  /** The validator accepts a table, cyclic or shared or stray as it may be, exactly when it is a legal forest. */
  lemma {:induction false} ValidatorDecidesLegality(g: Graph, inputBytes: nat, limits: ArchiveLimits)
    ensures Validation(g, inputBytes, limits).Pass? <==> Legal(g, inputBytes, limits)
  {
    if Validation(g, inputBytes, limits).Pass? {
      ValidationSound(g, inputBytes, limits);
    }
    if Legal(g, inputBytes, limits) {
      var root, ps :| Forest(g, limits, root, ps);
      ValidationComplete(g, inputBytes, limits, root, ps);
    }
  }

  lemma {:induction false} ValidationSound(g: Graph, inputBytes: nat, limits: ArchiveLimits)
    requires Validation(g, inputBytes, limits).Pass?
    ensures Legal(g, inputBytes, limits)
  {
    hide Visit, VisitPartials, Denotes, WellShaped;
    var start := Progress({}, 0);
    var root := VisitSound(g.nodes, g.strings, g.root, 0, false, start, limits);
    var p := Visit(g.nodes, g.strings, g.root, 0, false, start, limits).value;
    var q := VisitPartials(g, 0, p, limits).value;
    var ps := PartialsSound(g, 0, p, limits);
    CheckedNames(g);
    RootKind(g, root);
    var v, w := Visited(g.nodes, g.strings, g.root, root), VisitedFrom(g, ps, 0, limits);
    MarkedTwice(v, PartCount(root), w, PartCountAll(ps), start, p, q);
    ElemsOfDistinct(v + w);
    assert Elems(v + w) == q.seen;
    assert Forest(g, limits, root, ps);
  }

  lemma {:induction false} RootKind(g: Graph, root: Node)
    requires Denotes(g.nodes, g.strings, g.root, root) && WellShaped(root, false)
    ensures root.kind.TypeRoot? <==> g.nodes[g.root].kind == Code(TypeRoot)
  {
    SerializableCode(root.kind);
  }

  lemma {:induction false} ValidationComplete(g: Graph, inputBytes: nat, limits: ArchiveLimits, root: Node, ps: seq<Node>)
    requires Legal(g, inputBytes, limits) && Forest(g, limits, root, ps)
    ensures Validation(g, inputBytes, limits).Pass?
  {
    hide Visit, VisitPartials, Denotes, WellShaped, NamesLegal, Height, PartsWithin, Distinct;
    var start := Progress({}, 0);
    var v, w := Visited(g.nodes, g.strings, g.root, root), VisitedFrom(g, ps, 0, limits);
    var q := Progress(Elems(v + w), PartCount(root) + PartCountAll(ps));
    var p := MarkedSplit(v, PartCount(root), w, PartCountAll(ps), start, q);
    ElemsOfDistinct(v + w);
    RootKind(g, root);
    VisitComplete(g.nodes, g.strings, g.root, root, 0, false, start, p, limits);
    PartialsComplete(g, ps, 0, p, q, limits);
  }
}
