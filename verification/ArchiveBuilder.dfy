/** The archive builder: a counting pass that enforces every limit, then the pass that lays the table out. */
module ArchiveBuilder {
  import opened Base
  import opened Template
  import opened Partials
  import opened ArchiveGraph
  import opened ArchiveLayout

  const ARCHIVE_PREAMBLE_SIZE: nat := 24

  /** The platform's record sizes. */
  datatype Sizes = Sizes(header: nat, graph: nat, node: nat, partial: nat)

  type RecordSizes = s: Sizes | s.node > 0 && s.partial > 0 witness Sizes(0, 0, 1, 1)

  // ---- Totals ---------------------------------------------------------------------------------

  function StringLimit(limits: ArchiveLimits): nat {
    if limits.maxTotalStringBytes < MAX_UINT32 then limits.maxTotalStringBytes else MAX_UINT32
  }

  function NodeLimit(limits: ArchiveLimits): nat {
    if limits.maxNodes < MAX_UINT32 then limits.maxNodes else MAX_UINT32
  }

  function Size(value: Option<Bytes>): nat {
    if value.Some? then |value.value| else 0
  }

  /** The source buffers stored once n itself, without its children, has been stored. */
  function OwnSources(n: Node, seen: set<nat>): set<nat>
    requires n.Node?
  {
    if OriginalText(n).Some? then seen + {n.source.value.buffer} else seen
  }

  /** The string bytes n itself adds: a buffer already seen is shared, not stored again. */
  function OwnBytes(n: Node, seen: set<nat>): nat
    requires n.Node?
  {
    Size(n.data) + Size(n.start) + Size(n.stop) +
    if OriginalText(n).Some? && n.source.value.buffer !in seen then |n.source.value.text| else 0
  }

  function Sources(n: Node, seen: set<nat>): (r: set<nat>)
    ensures seen <= r
  {
    match n
    case Null => seen
    case Node(_, _, _, children, _, _, _, _) => SourcesAll(children, OwnSources(n, seen))
  }

  function SourcesAll(ns: seq<Node>, seen: set<nat>): (r: set<nat>)
    ensures seen <= r
  {
    if ns == [] then seen else SourcesAll(ns[1..], Sources(ns[0], seen))
  }

  function StringBytes(n: Node, seen: set<nat>): nat {
    match n
    case Null => 0
    case Node(_, _, _, children, _, _, _, _) => OwnBytes(n, seen) + StringBytesAll(children, OwnSources(n, seen))
  }

  function StringBytesAll(ns: seq<Node>, seen: set<nat>): nat {
    if ns == [] then 0 else StringBytes(ns[0], seen) + StringBytesAll(ns[1..], Sources(ns[0], seen))
  }

  /** Name components are charged only to nodes of a storable type. */
  function ChargedParts(n: Node): nat
    requires n.Node?
  {
    if IsSerializableType(n.kind) then NodeParts(n) else 0
  }

  function ChargedPartCount(n: Node): nat {
    match n
    case Null => 0
    case Node(_, _, _, children, _, _, _, _) => ChargedParts(n) + ChargedPartCountAll(children)
  }

  function ChargedPartCountAll(ns: seq<Node>): nat {
    if ns == [] then 0 else ChargedPartCount(ns[0]) + ChargedPartCountAll(ns[1..])
  }

  /** No empty pointer among the children, and no node over the per-node component limit. */
  predicate Countable(n: Node, maximum: nat) {
    match n
    case Null => false
    case Node(_, _, _, children, _, _, _, _) => ChargedParts(n) <= maximum && CountableAll(children, maximum)
  }

  predicate CountableAll(ns: seq<Node>, maximum: nat) {
    ns == [] || (Countable(ns[0], maximum) && CountableAll(ns[1..], maximum))
  }

  /** The lower bound on the size of the archive stays within the byte limit. */
  predicate MinimumFits(sizes: RecordSizes, limits: ArchiveLimits, nodes: nat, partials: nat, strings: nat) {
    nodes <= limits.maxArchiveBytes / sizes.node && partials <= limits.maxArchiveBytes / sizes.partial
    && ARCHIVE_PREAMBLE_SIZE + sizes.header + sizes.graph + nodes * sizes.node + partials * sizes.partial + strings
       <= limits.maxArchiveBytes
  }

  lemma {:induction false} ProductMonotone(a: nat, b: nat, k: nat)
    requires a <= b
    ensures a * k <= b * k
  {
    assert b * k == a * k + (b - a) * k;
  }

  lemma {:induction false} MinimumMonotone(sizes: RecordSizes, limits: ArchiveLimits, n: nat, p: nat, s: nat, n': nat,
                                           p': nat, s': nat)
    requires n <= n' && p <= p' && s <= s' && MinimumFits(sizes, limits, n', p', s')
    ensures MinimumFits(sizes, limits, n, p, s)
  {
    ProductMonotone(n, n', sizes.node);
    ProductMonotone(p, p', sizes.partial);
  }

  // ---- The builder --------------------------------------------------------------------------

  const BLANK := ArchiveNode(NO_SLICE, NO_SLICE, NO_SLICE, NO_SLICE, INVALID, INVALID, 0, 0, 0, 0, 0, 0)

  class Builder {
    const limits: ArchiveLimits
    const sizes: RecordSizes
    // the counting pass
    var nodeCount: nat
    var partialCount: nat
    var stringBytes: nat
    var dataParts: nat
    // offsets of the source buffers; INVALID until a buffer has been stored
    var sourceOffsets: map<nat, u32>
    // the table under construction
    var nodes: seq<ArchiveNode>
    var partials: seq<ArchivePartial>
    var strings: Bytes
    ghost var appended: set<nat>

    constructor (limits: ArchiveLimits, sizes: RecordSizes)
      ensures this.limits == limits && this.sizes == sizes && sourceOffsets == map[]
      ensures nodeCount == 0 && partialCount == 0 && stringBytes == 0 && dataParts == 0
      ensures nodes == [] && partials == [] && strings == [] && appended == {}
    {
      this.limits, this.sizes, sourceOffsets := limits, sizes, map[];
      nodes, partials, strings, appended := [], [], [], {};
      nodeCount, partialCount, stringBytes, dataParts := 0, 0, 0, 0;
    }

    predicate Valid()
      reads this
    {
      Fits(0, 0, 0, 0) && forall b :: b in sourceOffsets ==> sourceOffsets[b] == INVALID
    }

    /** Room for this much more under every limit. */
    predicate Fits(nodes: nat, partials: nat, bytes: nat, parts: nat)
      reads this
    {
      nodeCount + nodes <= NodeLimit(limits) && partialCount + partials <= MAX_UINT32
      && stringBytes + bytes <= StringLimit(limits) && dataParts + parts <= limits.maxTotalDataParts
      && MinimumFits(sizes, limits, nodeCount + nodes, partialCount + partials, stringBytes + bytes)
    }

    method ValidateMinimumSize() returns (r: Outcome)
      ensures r == if MinimumFits(sizes, limits, nodeCount, partialCount, stringBytes) then Pass
                   else Fail(ArchiveBytesLimit)
    {
      var minimum := ARCHIVE_PREAMBLE_SIZE;
      if minimum > limits.maxArchiveBytes || sizes.header > limits.maxArchiveBytes - minimum {
        return Fail(ArchiveBytesLimit);
      }
      minimum := minimum + sizes.header;
      if sizes.graph > limits.maxArchiveBytes - minimum {
        return Fail(ArchiveBytesLimit);
      }
      minimum := minimum + sizes.graph;
      if nodeCount > limits.maxArchiveBytes / sizes.node || partialCount > limits.maxArchiveBytes / sizes.partial {
        return Fail(ArchiveBytesLimit);
      }
      var nodeBytes, partialBytes := nodeCount * sizes.node, partialCount * sizes.partial;
      if nodeBytes > limits.maxArchiveBytes - minimum {
        return Fail(ArchiveBytesLimit);
      }
      minimum := minimum + nodeBytes;
      if partialBytes > limits.maxArchiveBytes - minimum {
        return Fail(ArchiveBytesLimit);
      }
      minimum := minimum + partialBytes;
      if stringBytes > limits.maxArchiveBytes - minimum {
        return Fail(ArchiveBytesLimit);
      }
      return Pass;
    }

    method AddStringBytes(bytes: nat) returns (r: Outcome)
      requires stringBytes <= StringLimit(limits)
      modifies this`stringBytes
      ensures r.Pass? <==> old(stringBytes) + bytes <= StringLimit(limits)
                           && MinimumFits(sizes, limits, nodeCount, partialCount, old(stringBytes) + bytes)
      ensures r.Pass? ==> stringBytes == old(stringBytes) + bytes
    {
      if stringBytes > MAX_UINT32 || bytes > MAX_UINT32 - stringBytes {
        return Fail(StringFormat);
      }
      if stringBytes > limits.maxTotalStringBytes || bytes > limits.maxTotalStringBytes - stringBytes {
        return Fail(ArchiveStringLimit);
      }
      stringBytes := stringBytes + bytes;
      r := ValidateMinimumSize();
    }

    /** The strings of one node; a source buffer is charged when it is met for the first time. */
    method CountStrings(n: Node) returns (r: Outcome)
      requires n.Node? && Valid()
      modifies this`stringBytes, this`sourceOffsets
      ensures r.Pass? <==> old(Fits(0, 0, OwnBytes(n, sourceOffsets.Keys), 0))
      ensures r.Pass? ==> Valid() && stringBytes == old(stringBytes) + OwnBytes(n, old(sourceOffsets.Keys))
                          && sourceOffsets.Keys == OwnSources(n, old(sourceOffsets.Keys))
    {
      hide MinimumFits, OriginalText;
      SmallerFits(stringBytes + OwnBytes(n, sourceOffsets.Keys));
      r := Pass;
      :- AddString(n.data);
      :- AddString(n.start);
      :- AddString(n.stop);
      if n.kind.TypeSection? && OriginalText(n).Some? {
        SectionSource(n);
        var buffer := n.source.value.buffer;
        if buffer !in sourceOffsets {
          :- AddStringBytes(|n.source.value.text|);
          sourceOffsets := sourceOffsets[buffer := INVALID];
        }
      }
      NoSectionSource(n);
    }

    method AddString(value: Option<Bytes>) returns (r: Outcome)
      requires Valid()
      modifies this`stringBytes
      ensures r.Pass? <==> old(Fits(0, 0, Size(value), 0))
      ensures r.Pass? ==> Valid() && stringBytes == old(stringBytes) + Size(value)
    {
      hide MinimumFits;
      r := Pass;
      if value.Some? {
        r := AddStringBytes(|value.value|);
      }
    }

    lemma {:induction false} SmallerFits(total: nat)
      ensures MinimumFits(sizes, limits, nodeCount, partialCount, total) ==>
                forall s: nat :: s <= total ==> MinimumFits(sizes, limits, nodeCount, partialCount, s)
    {
      if MinimumFits(sizes, limits, nodeCount, partialCount, total) {
        forall s: nat | s <= total
          ensures MinimumFits(sizes, limits, nodeCount, partialCount, s)
        {
          MinimumMonotone(sizes, limits, nodeCount, partialCount, s, nodeCount, partialCount, total);
        }
      }
    }

    /** Within the limits means every smaller demand is within them too. */
    lemma {:induction false} FitsMonotone(nodes: nat, bytes: nat, parts: nat)
      ensures Fits(nodes, 0, bytes, parts) ==>
                forall n: nat, b: nat, d: nat :: n <= nodes && b <= bytes && d <= parts ==> Fits(n, 0, b, d)
    {
      hide MinimumFits;
      forall n: nat, b: nat, d: nat | n <= nodes && b <= bytes && d <= parts && Fits(nodes, 0, bytes, parts)
        ensures Fits(n, 0, b, d)
      {
        MinimumMonotone(sizes, limits, nodeCount + n, partialCount, stringBytes + b,
                        nodeCount + nodes, partialCount, stringBytes + bytes);
      }
    }

    /** Depth, node count, strings and name components of the node itself. */
    method CountOwn(n: Node, depth: nat) returns (r: Outcome)
      requires n.Node? && Valid()
      modifies this`nodeCount, this`stringBytes, this`dataParts, this`sourceOffsets
      ensures r.Pass? <==> depth < DepthLimit(limits) && ChargedParts(n) <= limits.maxDataPartsPerNode
                           && old(Fits(1, 0, OwnBytes(n, sourceOffsets.Keys), ChargedParts(n)))
      ensures r.Pass? ==> Valid() && nodeCount == old(nodeCount) + 1 && dataParts == old(dataParts) + ChargedParts(n)
                          && stringBytes == old(stringBytes) + OwnBytes(n, old(sourceOffsets.Keys))
                          && sourceOffsets.Keys == OwnSources(n, old(sourceOffsets.Keys))
    {
      hide MinimumFits, OwnBytes, OwnSources, HasDot, IsSerializableType;
      FitsMonotone(1, OwnBytes(n, sourceOffsets.Keys), ChargedParts(n));
      r := Pass;
      if depth >= limits.maxNestingDepth || depth >= RENDER_NESTING_CEILING {
        return Fail(ArchiveNesting);
      }
      if nodeCount >= limits.maxNodes || nodeCount == MAX_UINT32 {
        return Fail(ArchiveNodeLimit);
      }
      assert old(Fits(1, 0, OwnBytes(n, sourceOffsets.Keys), ChargedParts(n))) ==> Fits(1, 0, 0, 0);
      nodeCount := nodeCount + 1;
      :- ValidateMinimumSize();
      :- CountStrings(n);
      if IsSerializableType(n.kind) && HasDot(n.kind) && n.data.Some? {
        var parts := Count(n.data.value, DOT) + 1;
        if parts > limits.maxDataPartsPerNode {
          return Fail(PartsPerNode);
        }
        if dataParts > limits.maxTotalDataParts || parts > limits.maxTotalDataParts - dataParts {
          return Fail(PartsTotal);
        }
        dataParts := dataParts + parts;
      }
    }

    method CountNode(n: Node, depth: nat) returns (r: Outcome)
      requires n.Node? && Valid()
      modifies this`nodeCount, this`stringBytes, this`dataParts, this`sourceOffsets
      ensures r.Pass? <==> Countable(n, limits.maxDataPartsPerNode) && depth + Height(n) <= DepthLimit(limits)
                           && old(Fits(NodeCount(n), 0, StringBytes(n, sourceOffsets.Keys), ChargedPartCount(n)))
      ensures r.Pass? ==> Valid() && nodeCount == old(nodeCount) + NodeCount(n)
                          && dataParts == old(dataParts) + ChargedPartCount(n)
                          && stringBytes == old(stringBytes) + StringBytes(n, old(sourceOffsets.Keys))
                          && sourceOffsets.Keys == Sources(n, old(sourceOffsets.Keys))
      decreases n, 1
    {
      hide MinimumFits, OwnBytes, OwnSources, ChargedParts;
      FitsMonotone(NodeCount(n), StringBytes(n, sourceOffsets.Keys), ChargedPartCount(n));
      r := CountOwn(n, depth);
      if r.Pass? {
        r := CountChildren(n, depth + 1);
      }
    }

    method CountChildren(n: Node, depth: nat) returns (r: Outcome)
      requires n.Node? && Valid() && depth <= DepthLimit(limits)
      modifies this`nodeCount, this`stringBytes, this`dataParts, this`sourceOffsets
      ensures r.Pass? <==> CountableAll(n.children, limits.maxDataPartsPerNode)
                           && depth + HeightAll(n.children) <= DepthLimit(limits)
                           && old(Fits(NodeCountAll(n.children), 0, StringBytesAll(n.children, sourceOffsets.Keys),
                                       ChargedPartCountAll(n.children)))
      ensures r.Pass? ==> Valid() && nodeCount == old(nodeCount) + NodeCountAll(n.children)
                          && dataParts == old(dataParts) + ChargedPartCountAll(n.children)
                          && stringBytes == old(stringBytes) + StringBytesAll(n.children, old(sourceOffsets.Keys))
                          && sourceOffsets.Keys == SourcesAll(n.children, old(sourceOffsets.Keys))
      decreases n, 0
    {
      hide MinimumFits, DepthLimit, Countable, Height, NodeCount, StringBytes, Sources, ChargedPartCount;
      hide CountableAll, HeightAll, NodeCountAll, StringBytesAll, SourcesAll, ChargedPartCountAll;
      var cs := n.children;
      var i := 0;
      assert cs[0..] == cs;
      while i < |cs|
        invariant 0 <= i <= |cs| && Valid() && partialCount == old(partialCount)
        invariant CountableAll(cs, limits.maxDataPartsPerNode) <==> CountableAll(cs[i..], limits.maxDataPartsPerNode)
        invariant depth + HeightAll(cs) <= DepthLimit(limits) <==> depth + HeightAll(cs[i..]) <= DepthLimit(limits)
        invariant old(nodeCount) + NodeCountAll(cs) == nodeCount + NodeCountAll(cs[i..])
        invariant old(dataParts) + ChargedPartCountAll(cs) == dataParts + ChargedPartCountAll(cs[i..])
        invariant old(stringBytes) + StringBytesAll(cs, old(sourceOffsets.Keys))
               == stringBytes + StringBytesAll(cs[i..], sourceOffsets.Keys)
        invariant SourcesAll(cs, old(sourceOffsets.Keys)) == SourcesAll(cs[i..], sourceOffsets.Keys)
      {
        NextCounted(cs, i, sourceOffsets.Keys, limits.maxDataPartsPerNode, depth, limits);
        FitsMonotone(NodeCountAll(cs[i..]), StringBytesAll(cs[i..], sourceOffsets.Keys), ChargedPartCountAll(cs[i..]));
        if cs[i].Null? {
          return Fail(NullArchiveChild);
        }
        :- CountNode(cs[i], depth);
        i := i + 1;
      }
      assert cs[i..] == [];
      NothingToCount(sourceOffsets.Keys, limits.maxDataPartsPerNode);
      r := Pass;
    }
  
    // Partial names

    /** A table of this many partials, with this many string bytes in all, is within the limits so far. */
    predicate NamesFit(count: nat, bytes: int)
      reads this
    {
      nodeCount + count <= limits.maxNodes && count <= MAX_UINT32 && 0 <= bytes <= StringLimit(limits)
      && MinimumFits(sizes, limits, nodeCount, count, bytes)
    }

    /** Every partial has a node of its own, so this early check on the node budget refuses nothing that the full
        count would let pass. */
    method AddPartialName(name: Bytes) returns (r: Outcome)
      requires Valid()
      modifies this`partialCount, this`stringBytes
      ensures r.Pass? <==> old(NamesFit(partialCount + 1, stringBytes + |name|))
      ensures r.Pass? ==> partialCount == old(partialCount) + 1 && stringBytes == old(stringBytes) + |name| && Valid()
    {
      hide MinimumFits;
      if nodeCount >= limits.maxNodes || partialCount >= limits.maxNodes - nodeCount {
        return Fail(ArchiveNodeLimit);
      }
      if partialCount == MAX_UINT32 {
        return Fail(PartialFormat);
      }
      partialCount := partialCount + 1;
      r := AddStringBytes(|name|);
      if r.Pass? {
        r := ValidateMinimumSize();
      }
    }

    lemma {:induction false} NamesFitMonotone(count: nat, bytes: int, c: nat, b: nat)
      requires NamesFit(count, bytes) && c <= count && b <= bytes
      ensures NamesFit(c, b)
    {
      MinimumMonotone(sizes, limits, nodeCount, c, b, nodeCount, count, bytes);
    }

    /** One of the two loops over a partial map: entries that own a tree are added or replace the one of that name. */
    method CollectFrom(base: seq<Entry>, m: seq<Entry>) returns (r: Result<seq<Entry>>)
      requires Valid() && Ascending(base) && partialCount == |base| && NamesFit(partialCount, stringBytes)
      modifies this`partialCount, this`stringBytes
      ensures r.Ok? <==> old(NamesFit(|Overlay(base, m)|, stringBytes + NamesSize(Overlay(base, m)) - NamesSize(base)))
      ensures r.Ok? ==> r.value == Overlay(base, m) && Valid() && partialCount == |r.value|
                        && stringBytes == old(stringBytes) + NamesSize(r.value) - NamesSize(base)
                        && NamesFit(partialCount, stringBytes)
    {
      hide MinimumFits, Builder.Valid, Overlay, NamesSize, Assign, Ascending, Contains;
      var effective, i := base, 0;
      ghost var all := Overlay(base, m);
      assert m[0..] == m;
      while i < |m|
        invariant 0 <= i <= |m| && Valid() && Ascending(effective) && nodeCount == old(nodeCount)
        invariant Overlay(effective, m[i..]) == all && partialCount == |effective|
        invariant stringBytes - NamesSize(effective) == old(stringBytes) - NamesSize(base)
        invariant NamesFit(partialCount, stringBytes)
      {
        OverlayStep(effective, m, i);
        if m[i].root.Node? {
          if !Contains(effective, m[i].name) {
            ghost var bytes := stringBytes + NamesSize(all) - NamesSize(effective);
            if NamesFit(|all|, bytes) {
              NamesFitMonotone(|all|, bytes, partialCount + 1, stringBytes + |m[i].name|);
            }
            var added := AddPartialName(m[i].name);
            if added.Fail? {
              return Err(added.error);
            }
          }
          effective := Assign(effective, m[i]);
        }
        i := i + 1;
      }
      OverlayDone(effective, m);
      return Ok(effective);
    }
  
    // Laying the table out

    ghost predicate PoolValid(texts: map<nat, Bytes>)
      reads this
    {
      |nodes| <= INVALID && Pooled(texts, sourceOffsets, appended, strings)
    }

    method AppendString(value: Bytes) returns (s: Slice)
      requires |strings| + |value| <= MAX_UINT32
      modifies this`strings
      ensures strings == old(strings) + value && s == Slice(|old(strings)|, |value|)
    {
      s := Slice(|strings|, |value|);
      strings := strings + value;
    }

    method AppendOptional(value: Option<Bytes>) returns (s: Slice)
      requires |strings| + Size(value) <= MAX_UINT32
      modifies this`strings
      ensures old(strings) <= strings && |strings| == |old(strings)| + Size(value)
      ensures Holds(s, strings, value)
    {
      s := NO_SLICE;
      if value.Some? {
        s := AppendString(value.value);
      }
    }

    /** The slice of a section's original text: its whole buffer is stored when it is first needed. */
    method AppendSource(n: Node, ghost texts: map<nat, Bytes>) returns (s: Slice)
      requires n.Node? && OriginalText(n).Some? && PoolValid(texts)
      requires n.source.value.buffer in sourceOffsets && n.source.value.buffer in texts
      requires texts[n.source.value.buffer] == n.source.value.text
      requires n.source.value.buffer !in appended ==> |strings| + |n.source.value.text| <= MAX_UINT32
      modifies this`strings, this`sourceOffsets, this`appended
      ensures PoolValid(texts) && old(strings) <= strings && sourceOffsets.Keys == old(sourceOffsets.Keys)
      ensures |strings| == |old(strings)| +
                           if n.source.value.buffer in old(appended) then 0 else |n.source.value.text|
      ensures appended == old(appended) + {n.source.value.buffer}
      ensures Holds(s, strings, OriginalText(n))
    {
      hide Pooled;
      var source := n.source.value;
      PooledAt(texts, sourceOffsets, appended, strings, source.buffer);
      if sourceOffsets[source.buffer] == INVALID {
        PooledMore(texts, sourceOffsets, appended, strings, source.buffer);
        var stored := AppendString(source.text);
        sourceOffsets := sourceOffsets[source.buffer := stored.offset];
        assert sourceOffsets.Keys == old(sourceOffsets.Keys);
      } else {
        assert appended + {source.buffer} == appended;
      }
      appended := appended + {source.buffer};
      s := SourceSliceOf(source, texts);
    }

    /** The record of n, not yet linked to anything. */
    method AppendFields(n: Node, ghost texts: map<nat, Bytes>) returns (archived: ArchiveNode)
      requires n.Node? && NodeStorable(n) && PoolValid(texts)
      requires OwnShared(n, texts) && OwnSources(n, appended) <= sourceOffsets.Keys + appended
      requires |strings| + OwnBytes(n, appended) <= MAX_UINT32
      modifies this`strings, this`sourceOffsets, this`appended
      ensures PoolValid(texts) && old(strings) <= strings && sourceOffsets.Keys == old(sourceOffsets.Keys)
      ensures |strings| == |old(strings)| + OwnBytes(n, old(appended)) && appended == OwnSources(n, old(appended))
      ensures Records(archived, strings, n) && archived.firstChild == INVALID && archived.nextSibling == INVALID
    {
      hide Pooled, Holds, IsSerializableType;
      StorableCode(n.kind);
      ghost var s0 := strings;
      PooledAll(texts, sourceOffsets, appended, strings);
      var data := AppendOptional(n.data);
      ghost var s1 := strings;
      var start := AppendOptional(n.start);
      ghost var s2 := strings;
      var stop := AppendOptional(n.stop);
      ghost var s3 := strings;
      PooledLonger(texts, sourceOffsets, appended, s0, strings);
      var original := NO_SLICE;
      if OriginalText(n).Some? {
        original := AppendSource(n, texts);
      } else {
        NothingHeld(strings);
      }
      HoldsLonger(data, s1, strings, n.data);
      HoldsLonger(start, s2, strings, n.start);
      HoldsLonger(stop, s3, strings, n.stop);
      archived := ArchiveNode(data, start, stop, original, INVALID, INVALID, Code(n.kind), n.flags, PresenceOf(n), 0, 0, 0);
    }

    /** The counting pass has reserved the room that the tree needs. */
    ghost predicate Room(n: Node, texts: map<nat, Bytes>)
      reads this
    {
      PoolValid(texts) && Shared(n, texts) && Sources(n, appended) <= sourceOffsets.Keys
      && |nodes| + NodeCount(n) <= INVALID && |strings| + StringBytes(n, appended) <= MAX_UINT32
    }

    ghost predicate RoomAll(ns: seq<Node>, texts: map<nat, Bytes>)
      reads this
    {
      PoolValid(texts) && SharedAll(ns, texts) && SourcesAll(ns, appended) <= sourceOffsets.Keys
      && |nodes| + NodeCountAll(ns) <= INVALID && |strings| + StringBytesAll(ns, appended) <= MAX_UINT32
    }

    method AppendNode(n: Node, ghost texts: map<nat, Bytes>) returns (r: Result<u32>)
      requires n.Node? && Countable(n, limits.maxDataPartsPerNode) && Room(n, texts)
      modifies this`nodes, this`strings, this`sourceOffsets, this`appended
      ensures r.Ok? <==> Storable(n)
      ensures r.Ok? ==> r.value == |old(nodes)| && Grown(old(nodes), old(strings), old(sourceOffsets.Keys), texts)
                        && |nodes| == |old(nodes)| + NodeCount(n) && appended == Sources(n, old(appended))
                        && |strings| == |old(strings)| + StringBytes(n, old(appended))
                        && Laid(nodes, strings, r.value, n) && nodes[r.value].nextSibling == INVALID
      decreases n, 1
    {
      hide Pooled, Records, OwnBytes, OwnSources;
      if n.child.Node? {
        return Err(ContainerNode);
      }
      if n.flags < 0 || n.flags > 0xffff {
        return Err(FlagsFormat);
      }
      if !IsSerializableType(n.kind) {
        return Err(ArchiveType);
      }
      var index := |nodes|;
      nodes := nodes + [BLANK];
      var archived := AppendFields(n, texts);
      ghost var s1 := strings;
      var firstChild :- AppendChildren(n, texts);
      RecordLinked(archived, firstChild, s1, strings, n);
      ghost var nodes1 := nodes;
      nodes := nodes[index := archived.(firstChild := firstChild)];
      LaidAllKept(nodes1, nodes, strings, strings, index + 1, n.children);
      return Ok(index);
    }

    method AppendChildren(n: Node, ghost texts: map<nat, Bytes>) returns (r: Result<u32>)
      requires n.Node? && CountableAll(n.children, limits.maxDataPartsPerNode) && RoomAll(n.children, texts)
      modifies this`nodes, this`strings, this`sourceOffsets, this`appended
      ensures r.Ok? <==> StorableAll(n.children)
      ensures r.Ok? ==> Grown(old(nodes), old(strings), old(sourceOffsets.Keys), texts)
                        && |nodes| == |old(nodes)| + NodeCountAll(n.children)
                        && appended == SourcesAll(n.children, old(appended))
                        && |strings| == |old(strings)| + StringBytesAll(n.children, old(appended))
                        && LaidAll(nodes, strings, |old(nodes)|, n.children)
                        && r.value == if n.children == [] then INVALID else |old(nodes)|
      decreases n, 0
    {
      hide Pooled, Laid, LaidAll, Countable, Storable, StringBytes, Sources, Shared, NodeCount;
      hide CountableAll, StorableAll, StringBytesAll, SourcesAll, SharedAll, NodeCountAll;
      var cs := n.children;
      var firstChild: u32, previousChild: u32 := INVALID, INVALID;
      var i := 0;
      ghost var base := |nodes|;
      NothingLaid(nodes, strings, base);
      NoMoreSiblings(appended);
      assert cs[..0] == [] && cs[0..] == cs;
      while i < |cs|
        invariant 0 <= i <= |cs| && RoomAll(cs[i..], texts) && CountableAll(cs[i..], limits.maxDataPartsPerNode)
        invariant StorableAll(cs) <==> StorableAll(cs[i..])
        invariant Grown(old(nodes), old(strings), old(sourceOffsets.Keys), texts)
        invariant |nodes| == base + NodeCountAll(cs[..i]) && base + NodeCountAll(cs) == |nodes| + NodeCountAll(cs[i..])
        invariant SourcesAll(cs, old(appended)) == SourcesAll(cs[i..], appended)
        invariant |old(strings)| + StringBytesAll(cs, old(appended)) == |strings| + StringBytesAll(cs[i..], appended)
        invariant LaidAll(nodes, strings, base, cs[..i])
        invariant firstChild == if i == 0 then INVALID else base
        invariant if i == 0 then previousChild == INVALID
                  else previousChild == base + NodeCountAll(cs[..i - 1]) < |nodes|
      {
        NextSibling(cs, i, appended, limits.maxDataPartsPerNode, texts);
        var childIndex :- AppendSibling(cs[..i], cs[i], previousChild, base, texts);
        if firstChild == INVALID {
          firstChild := childIndex;
        }
        previousChild := childIndex;
        i := i + 1;
      }
      assert cs[..i] == cs && cs[i..] == [];
      NoMoreSiblings(appended);
      return Ok(firstChild);
    }

    /** Lays out n after its elder siblings and links it from the last of them. */
    method AppendSibling(ghost elder: seq<Node>, n: Node, previousChild: u32, ghost base: nat,
                         ghost texts: map<nat, Bytes>) returns (r: Result<u32>)
      requires n.Node? && Countable(n, limits.maxDataPartsPerNode) && Room(n, texts)
      requires LaidAll(nodes, strings, base, elder) && |nodes| == base + NodeCountAll(elder)
      requires if elder == [] then previousChild == INVALID
               else previousChild == base + NodeCountAll(elder[..|elder| - 1]) < |nodes|
      modifies this`nodes, this`strings, this`sourceOffsets, this`appended
      ensures r.Ok? <==> Storable(n)
      ensures r.Ok? ==> r.value == |old(nodes)| && PoolValid(texts) && |nodes| == |old(nodes)| + NodeCount(n)
                        && old(nodes)[..base] == nodes[..base] && old(strings) <= strings
                        && sourceOffsets.Keys == old(sourceOffsets.Keys) && appended == Sources(n, old(appended))
                        && |strings| == |old(strings)| + StringBytes(n, old(appended))
                        && LaidAll(nodes, strings, base, elder + [n])
      decreases n, 2
    {
      hide Pooled, Laid, LaidAll, Countable, Storable, StringBytes, Sources, Shared, NodeCount;
      ghost var nodes0, strings0 := nodes, strings;
      var childIndex :- AppendNode(n, texts);
      LaidAllKept(nodes0, nodes, strings0, strings, base, elder);
      NodeHasRecord(nodes, strings, childIndex, n);
      if previousChild == INVALID {
        LaidSingle(nodes, strings, base, n);
        assert elder + [n] == [n];
      } else {
        ghost var nodes1 := nodes;
        nodes := nodes[previousChild := nodes[previousChild].(nextSibling := childIndex)];
        LaidSnoc(nodes1, strings, base, elder, n, nodes);
      }
      return Ok(childIndex);
    }

    /** The table and the pool only ever grow. */
    ghost predicate Grown(nodes0: seq<ArchiveNode>, strings0: Bytes, keys: set<nat>, texts: map<nat, Bytes>)
      reads this
    {
      PoolValid(texts) && nodes0 <= nodes && strings0 <= strings && sourceOffsets.Keys == keys
    }

    /** Lays out one partial: its name, then its tree. */
    method AppendPartial(e: Entry, ghost texts: map<nat, Bytes>) returns (r: Result<ArchivePartial>)
      requires e.root.Node? && Countable(e.root, limits.maxDataPartsPerNode) && PoolValid(texts) && Shared(e.root, texts)
      requires Sources(e.root, appended) <= sourceOffsets.Keys && |nodes| + NodeCount(e.root) <= INVALID
      requires |strings| + |e.name| + StringBytes(e.root, appended) <= MAX_UINT32
      modifies this`nodes, this`strings, this`sourceOffsets, this`appended
      ensures r.Ok? <==> Storable(e.root)
      ensures r.Ok? ==> Grown(old(nodes), old(strings), old(sourceOffsets.Keys), texts)
                        && |nodes| == |old(nodes)| + NodeCount(e.root) && appended == Sources(e.root, old(appended))
                        && |strings| == |old(strings)| + |e.name| + StringBytes(e.root, old(appended))
                        && LaidPartial(nodes, strings, r.value, e, |old(nodes)|)
    {
      hide Pooled, Laid, Countable, Storable, StringBytes, Sources, Shared, NodeCount;
      ghost var strings0 := strings;
      var name := AppendString(e.name);
      PooledLonger(texts, sourceOffsets, appended, strings0, strings);
      ghost var strings1 := strings;
      assert View(name, strings) == e.name;
      var tree :- AppendNode(e.root, texts);
      NodeHasRecord(nodes, strings, tree, e.root);
      ViewKept(name, strings1, strings);
      return Ok(ArchivePartial(name, tree));
    }

    /** The trees of the partials, counted one after the other. */
    method CountTrees(eff: seq<Entry>) returns (r: Outcome)
      requires Valid() && forall e :: e in eff ==> e.root.Node?
      modifies this`nodeCount, this`stringBytes, this`dataParts, this`sourceOffsets
      ensures r.Pass? <==> CountableAll(Roots(eff), limits.maxDataPartsPerNode)
                           && HeightAll(Roots(eff)) <= DepthLimit(limits)
                           && old(Fits(NodeCountAll(Roots(eff)), 0, StringBytesAll(Roots(eff), sourceOffsets.Keys),
                                       ChargedPartCountAll(Roots(eff))))
      ensures r.Pass? ==> Valid() && sourceOffsets.Keys == SourcesAll(Roots(eff), old(sourceOffsets.Keys))
    {
      hide MinimumFits, DepthLimit, Countable, Height, NodeCount, StringBytes, Sources, ChargedPartCount;
      hide CountableAll, HeightAll, NodeCountAll, StringBytesAll, SourcesAll, ChargedPartCountAll, Roots;
      var i := 0;
      assert eff[0..] == eff;
      while i < |eff|
        invariant 0 <= i <= |eff| && Valid() && partialCount == old(partialCount)
        invariant CountableAll(Roots(eff), limits.maxDataPartsPerNode) <==>
                  CountableAll(Roots(eff[i..]), limits.maxDataPartsPerNode)
        invariant HeightAll(Roots(eff)) <= DepthLimit(limits) <==> HeightAll(Roots(eff[i..])) <= DepthLimit(limits)
        invariant old(nodeCount) + NodeCountAll(Roots(eff)) == nodeCount + NodeCountAll(Roots(eff[i..]))
        invariant old(dataParts) + ChargedPartCountAll(Roots(eff)) == dataParts + ChargedPartCountAll(Roots(eff[i..]))
        invariant old(stringBytes) + StringBytesAll(Roots(eff), old(sourceOffsets.Keys))
               == stringBytes + StringBytesAll(Roots(eff[i..]), sourceOffsets.Keys)
        invariant SourcesAll(Roots(eff), old(sourceOffsets.Keys)) == SourcesAll(Roots(eff[i..]), sourceOffsets.Keys)
      {
        ghost var rest := Roots(eff[i..]);
        NextTree(eff, i, sourceOffsets.Keys, limits.maxDataPartsPerNode, 0, limits);
        FitsMonotone(NodeCountAll(rest), StringBytesAll(rest, sourceOffsets.Keys), ChargedPartCountAll(rest));
        assert eff[i] in eff;
        :- CountNode(eff[i].root, 0);
        i := i + 1;
      }
      NothingToCount(sourceOffsets.Keys, limits.maxDataPartsPerNode);
      r := Pass;
    }

    /** The whole counting pass; it yields the effective partials in name order. */
    method CountAll(root: Node, fallback: seq<Entry>, overriding: seq<Entry>) returns (r: Result<seq<Entry>>)
      requires root.Node? && nodeCount == 0 && partialCount == 0 && stringBytes == 0 && dataParts == 0
      requires sourceOffsets == map[]
      modifies this`nodeCount, this`partialCount, this`stringBytes, this`dataParts, this`sourceOffsets
      ensures r.Ok? <==> Fitting(root, Effective(fallback, overriding), limits, sizes)
      ensures r.Ok? ==> r.value == Effective(fallback, overriding)
                        && (forall b :: b in sourceOffsets ==> sourceOffsets[b] == INVALID)
                        && sourceOffsets.Keys == SourcesAll(Roots(r.value), Sources(root, {}))
    {
      hide MinimumFits, Effective, DepthLimit, StringLimit, NodeLimit, Overlay;
      hide Countable, CountableAll, Height, HeightAll, NodeCount, NodeCountAll, StringBytes, StringBytesAll;
      hide Sources, SourcesAll, ChargedPartCount, ChargedPartCountAll, NamesSize, Roots;
      ghost var eff := Effective(fallback, overriding);
      Stages(root, fallback, overriding, limits, sizes);
      assert sourceOffsets.Keys == {};
      var sized := ValidateMinimumSize();
      if sized.Fail? {
        return Err(sized.error);
      }
      NoneFits(limits);
      var counted := CountNode(root, 0);
      if counted.Fail? {
        return Err(counted.error);
      }
      assert stringBytes == StringBytes(root, {});
      var effective :- CollectEffectivePartials(fallback, overriding);
      assert stringBytes == StringBytes(root, {}) + NamesSize(eff);
      counted := CountTrees(effective);
      if counted.Fail? {
        return Err(counted.error);
      }
      return Ok(effective);
    }

    method CollectEffectivePartials(fallback: seq<Entry>, overriding: seq<Entry>) returns (r: Result<seq<Entry>>)
      requires Valid() && partialCount == 0 && nodeCount <= limits.maxNodes
      modifies this`partialCount, this`stringBytes
      ensures var own, eff := Overlay([], fallback), Effective(fallback, overriding);
              r.Ok? <==> old(NamesFit(|own|, stringBytes + NamesSize(own)))
                         && old(NamesFit(|eff|, stringBytes + NamesSize(eff)))
      ensures r.Ok? ==> r.value == Effective(fallback, overriding) && Valid() && partialCount == |r.value|
                        && stringBytes == old(stringBytes) + NamesSize(r.value)
                        && forall e :: e in r.value ==> e.root.Node?
    {
      hide MinimumFits;
      OverlayAscending([], fallback);
      OverlayOwns([], fallback);
      OverlayOwns(Overlay([], fallback), overriding);
      var own :- CollectFrom([], fallback);
      r := CollectFrom(own, overriding);
    }

    /** Lays out the partials in name order, after the root. */
    method AppendPartials(root: Node, eff: seq<Entry>, ghost texts: map<nat, Bytes>) returns (r: Outcome)
      requires CountableAll(Roots(eff), limits.maxDataPartsPerNode) && partials == [] && |nodes| == NodeCount(root)
      requires PoolValid(texts) && SharedAll(Roots(eff), texts) && SourcesAll(Roots(eff), appended) <= sourceOffsets.Keys
      requires |nodes| + NodeCountAll(Roots(eff)) <= INVALID
      requires |strings| + NamesSize(eff) + StringBytesAll(Roots(eff), appended) <= MAX_UINT32
      modifies this`nodes, this`strings, this`sourceOffsets, this`appended, this`partials
      ensures r.Pass? <==> StorableAll(Roots(eff))
      ensures r.Pass? ==> Grown(old(nodes), old(strings), old(sourceOffsets.Keys), texts) && |partials| == |eff|
                          && |nodes| == |old(nodes)| + NodeCountAll(Roots(eff))
                          && |strings| == |old(strings)| + NamesSize(eff) + StringBytesAll(Roots(eff), old(appended))
                          && forall k :: 0 <= k < |eff| ==>
                               LaidPartial(nodes, strings, partials[k], eff[k], StartOf(root, eff, k))
    {
      hide Pooled, LaidPartial, Countable, Storable, StringBytes, Sources, Shared, NodeCount;
      hide CountableAll, StorableAll, StringBytesAll, SourcesAll, SharedAll, NodeCountAll, NamesSize, Roots;
      var i := 0;
      ghost var base, trees := |nodes|, Roots(eff);
      NothingStarted(root, eff);
      assert trees[0..] == trees && eff[0..] == eff;
      while i < |eff|
        invariant 0 <= i <= |eff| == |trees| && |partials| == i
        invariant Grown(old(nodes), old(strings), old(sourceOffsets.Keys), texts)
        invariant CountableAll(trees[i..], limits.maxDataPartsPerNode) && SharedAll(trees[i..], texts)
        invariant StorableAll(trees) <==> StorableAll(trees[i..])
        invariant SourcesAll(trees, old(appended)) == SourcesAll(trees[i..], appended)
        invariant |nodes| == StartOf(root, eff, i) && base + NodeCountAll(trees) == |nodes| + NodeCountAll(trees[i..])
        invariant |old(strings)| + NamesSize(eff) + StringBytesAll(trees, old(appended))
               == |strings| + NamesSize(eff[i..]) + StringBytesAll(trees[i..], appended)
        invariant forall k :: 0 <= k < i ==> LaidPartial(nodes, strings, partials[k], eff[k], StartOf(root, eff, k))
      {
        NextSibling(trees, i, appended, limits.maxDataPartsPerNode, texts);
        NextName(eff, i);
        ghost var nodes0, strings0 := nodes, strings;
        var partial := AppendPartial(eff[i], texts);
        if partial.Err? {
          return Fail(partial.error);
        }
        forall k | 0 <= k < i
          ensures LaidPartial(nodes, strings, partials[k], eff[k], StartOf(root, eff, k))
        {
          LaidPartialKept(nodes0, nodes, strings0, strings, partials[k], eff[k], StartOf(root, eff, k));
        }
        partials := partials + [partial.value];
        i := i + 1;
      }
      assert trees[i..] == [] && eff[i..] == [];
      NoMoreSiblings(appended);
      NoNames();
      r := Pass;
    }

    /** Counts everything, then lays everything out; `texts` are the bytes behind each source buffer. */
    method Build(root: Node, fallback: seq<Entry>, overriding: seq<Entry>, ghost texts: map<nat, Bytes>)
      returns (r: Result<Graph>)
      requires root.Node? && nodeCount == 0 && partialCount == 0 && stringBytes == 0 && dataParts == 0
      requires sourceOffsets == map[] && appended == {} && nodes == [] && partials == [] && strings == []
      requires Shared(root, texts) && SharedAll(Roots(Effective(fallback, overriding)), texts)
      modifies this
      ensures r.Ok? <==> Fitting(root, Effective(fallback, overriding), limits, sizes) && Storable(root)
                         && StorableAll(Roots(Effective(fallback, overriding)))
      ensures r.Ok? ==> Built(r.value, root, Effective(fallback, overriding)) && r.value.serializedSize == 0
                        && |r.value.strings| == TotalBytes(root, Effective(fallback, overriding))
    {
      hide MinimumFits, Effective, Laid, LaidPartial, Countable, CountableAll, Storable, StorableAll, Shared, SharedAll;
      hide Height, HeightAll, StringBytes, StringBytesAll, Sources, SourcesAll, NodeCount, NodeCountAll, NamesSize, Roots;
      var eff :- CountAll(root, fallback, overriding);
      NoneFits(limits);
      SourcesGrow(root, eff);
      var rootIndex :- AppendNode(root, texts);
      ghost var nodes0, strings0 := nodes, strings;
      var done := AppendPartials(root, eff, texts);
      if done.Fail? {
        return Err(done.error);
      }
      NodeHasRecord(nodes0, strings0, 0, root);
      LaidKept(nodes0, nodes, strings0, strings, 0, root);
      return Ok(Graph(MAGIC, SCHEMA_VERSION, rootIndex, 0, nodes, partials, strings));
    }

    method SourceSliceOf(source: Source, ghost texts: map<nat, Bytes>) returns (s: Slice)
      requires source.buffer in appended && Pooled(texts, sourceOffsets, appended, strings)
      requires source.buffer in texts && texts[source.buffer] == source.text
      ensures Holds(s, strings, Some(source.text[source.begin..source.begin + source.length]))
    {
      assert PooledBuffer(texts, sourceOffsets, strings, source.buffer);
      var offset := sourceOffsets[source.buffer];
      SubWindow(strings, offset, source.text, source.begin, source.begin + source.length);
      s := Slice(offset + source.begin, source.length);
    }
  }

  /** Everything the counting pass enforces, as totals over the root's tree and the effective partials. */
  predicate Fitting(root: Node, eff: seq<Entry>, limits: ArchiveLimits, sizes: RecordSizes) {
    && Countable(root, limits.maxDataPartsPerNode) && CountableAll(Roots(eff), limits.maxDataPartsPerNode)
    && Height(root) <= DepthLimit(limits) && HeightAll(Roots(eff)) <= DepthLimit(limits)
    && TotalNodes(root, eff) <= NodeLimit(limits) && |eff| <= MAX_UINT32
    && TotalBytes(root, eff) <= StringLimit(limits)
    && ChargedPartCount(root) + ChargedPartCountAll(Roots(eff)) <= limits.maxTotalDataParts
    && MinimumFits(sizes, limits, TotalNodes(root, eff), |eff|, TotalBytes(root, eff))
  }

  function TotalNodes(root: Node, eff: seq<Entry>): nat {
    NodeCount(root) + NodeCountAll(Roots(eff))
  }

  /** Names, node strings, and every source buffer once. */
  function TotalBytes(root: Node, eff: seq<Entry>): nat {
    StringBytes(root, {}) + NamesSize(eff) + StringBytesAll(Roots(eff), Sources(root, {}))
  }

  /** The i-th tree's share of every total of the counting pass. */
  lemma {:induction false} NextCounted(cs: seq<Node>, i: nat, seen: set<nat>, maximum: nat, depth: nat, limits: ArchiveLimits)
    requires i < |cs|
    ensures CountableAll(cs[i..], maximum) <==> Countable(cs[i], maximum) && CountableAll(cs[i + 1..], maximum)
    ensures cs[i].Null? ==> !Countable(cs[i], maximum)
    ensures depth <= DepthLimit(limits) ==>
              (depth + HeightAll(cs[i..]) <= DepthLimit(limits) <==>
               depth + Height(cs[i]) <= DepthLimit(limits) && depth + HeightAll(cs[i + 1..]) <= DepthLimit(limits))
    ensures NodeCountAll(cs[i..]) == NodeCount(cs[i]) + NodeCountAll(cs[i + 1..])
    ensures ChargedPartCountAll(cs[i..]) == ChargedPartCount(cs[i]) + ChargedPartCountAll(cs[i + 1..])
    ensures StringBytesAll(cs[i..], seen) == StringBytes(cs[i], seen) + StringBytesAll(cs[i + 1..], Sources(cs[i], seen))
    ensures SourcesAll(cs[i..], seen) == SourcesAll(cs[i + 1..], Sources(cs[i], seen))
  {
    hide DepthLimit;
    assert cs[i..][0] == cs[i] && cs[i..][1..] == cs[i + 1..];
  }

  lemma {:induction false} NextTree(eff: seq<Entry>, i: nat, seen: set<nat>, maximum: nat, depth: nat, limits: ArchiveLimits)
    requires i < |eff| && depth <= DepthLimit(limits)
    ensures var cs, rest, n := Roots(eff[i..]), Roots(eff[i + 1..]), eff[i].root;
            && eff[i] in eff
            && (CountableAll(cs, maximum) <==> Countable(n, maximum) && CountableAll(rest, maximum))
            && (depth + HeightAll(cs) <= DepthLimit(limits) <==>
                depth + Height(n) <= DepthLimit(limits) && depth + HeightAll(rest) <= DepthLimit(limits))
            && NodeCountAll(cs) == NodeCount(n) + NodeCountAll(rest)
            && ChargedPartCountAll(cs) == ChargedPartCount(n) + ChargedPartCountAll(rest)
            && StringBytesAll(cs, seen) == StringBytes(n, seen) + StringBytesAll(rest, Sources(n, seen))
            && SourcesAll(cs, seen) == SourcesAll(rest, Sources(n, seen))
  {
    var cs := Roots(eff[i..]);
    assert eff[i..][0] == eff[i] && eff[i..][1..] == eff[i + 1..];
    assert cs[0..] == cs && cs[0] == eff[i].root && cs[1..] == Roots(eff[i + 1..]);
    NextCounted(cs, 0, seen, maximum, depth, limits);
  }

  lemma {:induction false} NothingToCount(seen: set<nat>, maximum: nat)
    ensures CountableAll([], maximum) && HeightAll([]) == 0 && NodeCountAll([]) == 0 && ChargedPartCountAll([]) == 0
    ensures StringBytesAll([], seen) == 0 && SourcesAll([], seen) == seen && Roots([]) == []
  {
  }

  lemma {:induction false} NoneFits(limits: ArchiveLimits)
    ensures NodeLimit(limits) <= limits.maxNodes && NodeLimit(limits) <= MAX_UINT32 && StringLimit(limits) <= MAX_UINT32
  {
  }

  /** Each partial brings at least its root. */
  lemma {:induction false} TreesOutnumberNames(eff: seq<Entry>)
    requires forall e :: e in eff ==> e.root.Node?
    ensures |eff| <= NodeCountAll(Roots(eff))
  {
    if eff != [] {
      assert eff[0] in eff;
      TreesOutnumberNames(eff[1..]);
    }
  }

  /** If the totals fit, every intermediate count of the pass fits. */
  lemma {:induction false} Stages(root: Node, fallback: seq<Entry>, overriding: seq<Entry>, limits: ArchiveLimits,
                                  sizes: RecordSizes)
    requires root.Node?
    ensures Fitting(root, Effective(fallback, overriding), limits, sizes) ==>
              var own, eff := Overlay([], fallback), Effective(fallback, overriding);
              && |own| <= |eff| && NamesSize(own) <= NamesSize(eff)
              && NodeCount(root) + |eff| <= limits.maxNodes
              && forall n: nat, p: nat, s: nat :: n <= TotalNodes(root, eff) && p <= |eff| && s <= TotalBytes(root, eff) ==>
                   MinimumFits(sizes, limits, n, p, s)
  {
    hide MinimumFits;
    var own, eff := Overlay([], fallback), Effective(fallback, overriding);
    OverlayAscending([], fallback);
    OverlayGrows(own, overriding);
    OverlayOwns([], fallback);
    OverlayOwns(own, overriding);
    TreesOutnumberNames(eff);
    if Fitting(root, eff, limits, sizes) {
      forall n: nat, p: nat, s: nat | n <= TotalNodes(root, eff) && p <= |eff| && s <= TotalBytes(root, eff)
        ensures MinimumFits(sizes, limits, n, p, s)
      {
        MinimumMonotone(sizes, limits, n, p, s, TotalNodes(root, eff), |eff|, TotalBytes(root, eff));
      }
    }
  }

  /** Every total over the siblings from the i-th on is the i-th one's share and the total over the rest. */
  lemma {:induction false} NextSibling(cs: seq<Node>, i: nat, seen: set<nat>, maximum: nat, texts: map<nat, Bytes>)
    requires i < |cs|
    ensures CountableAll(cs[i..], maximum) ==>
              cs[i].Node? && Countable(cs[i], maximum) && NodeCount(cs[i]) > 0 && CountableAll(cs[i + 1..], maximum)
    ensures SharedAll(cs[i..], texts) ==> Shared(cs[i], texts) && SharedAll(cs[i + 1..], texts)
    ensures StorableAll(cs[i..]) <==> Storable(cs[i]) && StorableAll(cs[i + 1..])
    ensures NodeCountAll(cs[i..]) == NodeCount(cs[i]) + NodeCountAll(cs[i + 1..])
    ensures StringBytesAll(cs[i..], seen) == StringBytes(cs[i], seen) + StringBytesAll(cs[i + 1..], Sources(cs[i], seen))
    ensures SourcesAll(cs[i..], seen) == SourcesAll(cs[i + 1..], Sources(cs[i], seen))
    ensures Sources(cs[i], seen) <= SourcesAll(cs[i..], seen)
    ensures cs[..i + 1] == cs[..i] + [cs[i]] && (i > 0 ==> cs[..i][..i - 1] == cs[..i - 1])
    ensures NodeCountAll(cs[..i + 1]) == NodeCountAll(cs[..i]) + NodeCount(cs[i])
  {
    assert cs[i..][0] == cs[i] && cs[i..][1..] == cs[i + 1..];
    assert cs[..i + 1] == cs[..i] + [cs[i]];
    CountSplit(cs[..i], [cs[i]]);
    if CountableAll(cs[i..], maximum) {
      assert Countable(cs[i], maximum);
    }
    assert [cs[i]][1..] == [] && NodeCountAll([cs[i]]) == NodeCount(cs[i]);
  }

  lemma {:induction false} NoMoreSiblings(seen: set<nat>)
    ensures NodeCountAll([]) == 0 && StringBytesAll([], seen) == 0 && SourcesAll([], seen) == seen && StorableAll([])
  {
  }

  lemma {:induction false} ViewKept(s: Slice, strings: Bytes, longer: Bytes)
    requires InRange(s, strings) && strings <= longer
    ensures InRange(s, longer) && View(s, longer) == View(s, strings)
  {
  }

  lemma {:induction false} SourcesGrow(root: Node, eff: seq<Entry>)
    ensures Sources(root, {}) <= SourcesAll(Roots(eff), Sources(root, {}))
  {
  }

  lemma {:induction false} NothingStarted(root: Node, eff: seq<Entry>)
    ensures StartOf(root, eff, 0) == NodeCount(root)
  {
  }

  lemma {:induction false} NoNames()
    ensures NamesSize([]) == 0
  {
  }

  lemma {:induction false} NextName(eff: seq<Entry>, i: nat)
    requires i < |eff|
    ensures NamesSize(eff[i..]) == |eff[i].name| + NamesSize(eff[i + 1..])
    ensures Roots(eff)[i] == eff[i].root
  {
    assert eff[i..][0] == eff[i] && eff[i..][1..] == eff[i + 1..];
    RootsAt(eff, i);
  }

  lemma {:induction false} NothingLaid(nodes: seq<ArchiveNode>, strings: Bytes, i: nat)
    ensures LaidAll(nodes, strings, i, [])
  {
  }

  lemma {:induction false} HoldsLonger(s: Slice, strings: Bytes, longer: Bytes, value: Option<Bytes>)
    requires Holds(s, strings, value) && strings <= longer
    ensures Holds(s, longer, value)
  {
  }

  lemma {:induction false} NothingHeld(strings: Bytes)
    ensures Holds(NO_SLICE, strings, None)
  {
  }

  lemma {:induction false} StorableCode(t: Type)
    requires IsSerializableType(t)
    ensures 0 <= Code(t) < 0x1_0000
  {
  }

  /** What the second pass demands of a node beyond the counts: no container child, fields within their widths. */
  predicate NodeStorable(n: Node)
    requires n.Node?
  {
    n.child.Null? && 0 <= n.flags < 0x1_0000 && IsSerializableType(n.kind)
  }

  predicate Storable(n: Node) {
    match n
    case Null => false
    case Node(_, _, _, children, _, _, _, _) => NodeStorable(n) && StorableAll(children)
  }

  predicate StorableAll(ns: seq<Node>) {
    ns == [] || (Storable(ns[0]) && StorableAll(ns[1..]))
  }

  /** Nodes that name the same source buffer have the same bytes behind it. */
  predicate OwnShared(n: Node, texts: map<nat, Bytes>)
    requires n.Node?
  {
    OriginalText(n).Some? ==>
      n.source.value.buffer in texts && texts[n.source.value.buffer] == n.source.value.text
  }

  predicate Shared(n: Node, texts: map<nat, Bytes>) {
    match n
    case Null => true
    case Node(_, _, _, children, _, _, _, _) => OwnShared(n, texts) && SharedAll(children, texts)
  }

  predicate SharedAll(ns: seq<Node>, texts: map<nat, Bytes>) {
    ns == [] || (Shared(ns[0], texts) && SharedAll(ns[1..], texts))
  }

  /** The buffers in `appended` are in the string pool where the offsets say; the others are still to come. */
  ghost predicate Pooled(texts: map<nat, Bytes>, offsets: map<nat, u32>, appended: set<nat>, strings: Bytes) {
    && |strings| <= MAX_UINT32
    && (forall b :: b in offsets && b !in appended ==> offsets[b] == INVALID)
    && (forall b :: b in appended ==> PooledBuffer(texts, offsets, strings, b))
  }

  ghost predicate PooledBuffer(texts: map<nat, Bytes>, offsets: map<nat, u32>, strings: Bytes, b: nat) {
    b in texts && b in offsets && offsets[b] + |texts[b]| <= |strings|
    && strings[offsets[b]..offsets[b] + |texts[b]|] == texts[b]
  }

  lemma {:induction false} PooledAt(texts: map<nat, Bytes>, offsets: map<nat, u32>, appended: set<nat>, strings: Bytes, b: nat)
    requires Pooled(texts, offsets, appended, strings) && b in offsets
    ensures b in appended ==> PooledBuffer(texts, offsets, strings, b)
    ensures b !in appended ==> offsets[b] == INVALID
    ensures b in appended && offsets[b] == INVALID ==> texts[b] == []
    ensures |strings| <= MAX_UINT32
  {
  }

  lemma {:induction false} PooledAll(texts: map<nat, Bytes>, offsets: map<nat, u32>, appended: set<nat>, strings: Bytes)
    requires Pooled(texts, offsets, appended, strings)
    ensures appended <= offsets.Keys && |strings| <= MAX_UINT32
  {
    forall b | b in appended
      ensures b in offsets
    {
      assert PooledBuffer(texts, offsets, strings, b);
    }
  }

  lemma {:induction false} PooledLonger(texts: map<nat, Bytes>, offsets: map<nat, u32>, appended: set<nat>, strings: Bytes,
                                        longer: Bytes)
    requires Pooled(texts, offsets, appended, strings) && strings <= longer && |longer| <= MAX_UINT32
    ensures Pooled(texts, offsets, appended, longer)
  {
    forall b | b in appended
      ensures PooledBuffer(texts, offsets, longer, b)
    {
      assert PooledBuffer(texts, offsets, strings, b);
      assert longer[offsets[b]..offsets[b] + |texts[b]|] == strings[offsets[b]..offsets[b] + |texts[b]|];
    }
  }

  /** Storing a buffer that has no offset yet. */
  lemma {:induction false} PooledMore(texts: map<nat, Bytes>, offsets: map<nat, u32>, appended: set<nat>, strings: Bytes,
                                      b: nat)
    requires Pooled(texts, offsets, appended, strings) && b in texts && b in offsets
    requires |strings| + |texts[b]| <= MAX_UINT32
    ensures Pooled(texts, offsets[b := |strings|], appended + {b}, strings + texts[b])
  {
    var offsets', longer := offsets[b := |strings|], strings + texts[b];
    PooledLonger(texts, offsets, appended, strings, longer);
    forall c | c in appended + {b}
      ensures PooledBuffer(texts, offsets', longer, c)
    {
      if c == b {
        assert longer[|strings|..|strings| + |texts[b]|] == texts[b];
      } else {
        assert PooledBuffer(texts, offsets, longer, c);
      }
    }
  }

  /** Taking in one more entry of a partial map. */
  lemma {:induction false} OverlayStep(effective: seq<Entry>, m: seq<Entry>, i: nat)
    requires i < |m| && Ascending(effective)
    ensures m[i].root.Null? ==> Overlay(effective, m[i..]) == Overlay(effective, m[i + 1..])
    ensures m[i].root.Node? ==>
              var next := Assign(effective, m[i]);
              && Ascending(next) && Overlay(effective, m[i..]) == Overlay(next, m[i + 1..])
              && (if Contains(effective, m[i].name) then |next| == |effective| && NamesSize(next) == NamesSize(effective)
                  else |next| == |effective| + 1 && NamesSize(next) == NamesSize(effective) + |m[i].name|)
              && |next| <= |Overlay(effective, m[i..])| && NamesSize(next) <= NamesSize(Overlay(effective, m[i..]))
  {
    assert m[i..][0] == m[i] && m[i..][1..] == m[i + 1..];
    AssignSize(effective, m[i]);
    AssignAscending(effective, m[i]);
    OverlayGrows(Assign(effective, m[i]), m[i + 1..]);
  }

  lemma {:induction false} OverlayDone(effective: seq<Entry>, m: seq<Entry>)
    requires Ascending(effective)
    ensures Overlay(effective, m[|m|..]) == effective
  {
  }

  lemma {:induction false} SectionSource(n: Node)
    requires n.Node? && OriginalText(n).Some?
    ensures n.source.Some?
  {
  }

  lemma {:induction false} NoSectionSource(n: Node)
    requires n.Node?
    ensures OriginalText(n).Some? <==> n.kind.TypeSection? && n.source.Some?
  {
  }
}
