/** The two representations the renderer reads: owned trees, and records of an archive read in place. */
module NodeViews {
  import opened Base
  import opened Template
  import opened Partials
  import opened ArchiveGraph
  import opened ArchiveValidator
  import opened ArchiveLegality
  import opened ArchiveBuilder
  import opened RenderTrace

  // ---- One node -----------------------------------------------------------------------------------

  /** A borrowed node. `Owned(Null)` and an archived view of the invalid index are the empty views. */
  datatype NodeView = Owned(node: Node) | Archived(graph: Graph, index: u32) {
    predicate Present() {
      match this
      case Owned(node) => node.Node?
      case Archived(_, index) => index != INVALID
    }

    /** What the accessors rely on; the validator has established it for every record that can be reached. */
    predicate Readable() {
      match this
      case Owned(node) => node.Node?
      case Archived(g, index) => index < |g.nodes| && InRange(g.nodes[index].data, g.strings)
    }

    function Kind(): Type
      requires Readable()
    {
      match this
      case Owned(node) => node.kind
      case Archived(g, index) => TypeOf(g.nodes[index].kind)
    }

    function Flags(): int
      requires Readable()
    {
      match this
      case Owned(node) => node.flags
      case Archived(g, index) => g.nodes[index].flags
    }

    function Data(): Option<Bytes>
      requires Readable()
    {
      match this
      case Owned(node) => node.data
      case Archived(g, index) =>
        if Has(g.nodes[index], HAS_DATA) then Some(View(g.nodes[index].data, g.strings)) else None
    }

    /** A string field of a record, if its presence bit is set. */
    static function Stored(g: Graph, index: u32, s: Slice, bit: u8): Option<Bytes>
      requires index < |g.nodes| && bit > 0
    {
      if Has(g.nodes[index], bit) && InRange(s, g.strings) then Some(View(s, g.strings)) else None
    }

    function StartSequence(): Option<Bytes>
      requires Readable()
    {
      match this
      case Owned(node) => node.start
      case Archived(g, index) => Stored(g, index, g.nodes[index].startSequence, HAS_START)
    }

    function StopSequence(): Option<Bytes>
      requires Readable()
    {
      match this
      case Owned(node) => node.stop
      case Archived(g, index) => Stored(g, index, g.nodes[index].stopSequence, HAS_STOP)
    }

    function OriginalSectionText(): Option<Bytes>
      requires Readable()
    {
      match this
      case Owned(node) => OriginalText(node)
      case Archived(g, index) => Stored(g, index, g.nodes[index].originalSectionText, HAS_ORIGINAL)
    }

    function ContainerChild(): NodeView
      requires Readable()
    {
      match this
      case Owned(node) => Owned(node.child)
      case Archived(g, _) => Archived(g, INVALID)
    }
  }

  /** The view stands for the tree n. */
  predicate Shows(v: NodeView, n: Node) {
    match v
    case Owned(node) => n == node
    case Archived(g, index) =>
      if index == INVALID then n.Null? else Denotes(g.nodes, g.strings, index, n) && Storable(n)
  }

  /** Both kinds of view give back the fields of the tree they stand for. */
  lemma {:induction false} ShownFields(v: NodeView, n: Node)
    requires Shows(v, n)
    ensures v.Present() <==> n.Node?
    ensures n.Node? ==> v.Readable() && v.Kind() == n.kind && v.Flags() == n.flags && v.Data() == n.data
    ensures n.Node? ==> v.StartSequence() == n.start && v.StopSequence() == n.stop
    ensures n.Node? ==> v.OriginalSectionText() == OriginalText(n)
    ensures n.Node? ==> Shows(v.ContainerChild(), n.child)
  {
    hide OriginalText, DenotesChain, StorableAll;
    if v.Archived? && v.index != INVALID {
      SerializableCode(n.kind);
      BitsFromPresence(n.data.Some?, n.start.Some?, n.stop.Some?, OriginalText(n).Some?);
    }
  }

  // ---- Children -----------------------------------------------------------------------------------

  /** A cursor over the children: an index into the owned list, or the record the sibling links have reached. */
  class ChildCursor {
    const parent: NodeView
    var position: nat
    /** The children still to come. */
    ghost var rest: seq<Node>

    ghost predicate Valid()
      reads this
    {
      match parent
      case Owned(node) => node.Node? && position <= |node.children| && rest == node.children[position..]
      case Archived(g, _) =>
        position <= INVALID && DenotesChain(g.nodes, g.strings, position, rest) && StorableAll(rest)
    }

    constructor (v: NodeView, ghost n: Node)
      requires Shows(v, n) && n.Node?
      ensures Valid() && rest == n.children
    {
      parent := v;
      position := if v.Owned? then 0 else v.graph.nodes[v.index].firstChild;
      rest := n.children;
    }

    predicate HasValue()
      requires Valid()
      reads this
      ensures HasValue() <==> rest != []
    {
      match parent
      case Owned(node) => position < |node.children|
      case Archived(_, _) => position != INVALID
    }

    function Value(): (v: NodeView)
      requires Valid() && rest != []
      reads this
      ensures Shows(v, rest[0])
    {
      match parent
      case Owned(node) => Owned(node.children[position])
      case Archived(g, _) => Archived(g, position)
    }

    method Advance()
      requires Valid() && rest != []
      modifies this
      ensures Valid() && rest == old(rest)[1..]
    {
      position := if parent.Owned? then position + 1 else parent.graph.nodes[position].nextSibling;
      rest := rest[1..];
    }
  }

  // ---- Dotted components ------------------------------------------------------------------------------

  /** The components put back together, with a dot between each two. */
  function Join(parts: seq<Bytes>): Bytes
    requires parts != []
  {
    if |parts| == 1 then parts[0] else parts[0] + [DOT] + Join(parts[1..])
  }

  predicate Dotless(parts: seq<Bytes>) {
    parts == [] || (DOT !in parts[0] && Dotless(parts[1..]))
  }

  /** The rest of the name starts with the text up to the next dot. */
  lemma {:induction false} SplitStep(s: Bytes, from: nat)
    requires from <= |s|
    ensures var dot := IndexOf(s, DOT, from);
            Split(s, from) == if dot.None? then [s[from..]] else [s[from..dot.value]] + Split(s, dot.value + 1)
  {
  }

  /** The components joined again are the name, and none of them has a dot. */
  lemma {:induction false} SplitJoins(s: Bytes, from: nat)
    requires from <= |s|
    ensures Join(Split(s, from)) == s[from..] && Dotless(Split(s, from))
    decreases |s| - from
  {
    hide Split;
    SplitStep(s, from);
    var dot := IndexOf(s, DOT, from);
    if dot.Some? {
      SplitJoins(s, dot.value + 1);
      assert Split(s, from)[1..] == Split(s, dot.value + 1);
      assert s[from..] == s[from..dot.value] + [DOT] + s[dot.value + 1..];
    } else {
      assert Split(s, from)[1..] == [];
    }
  }

  /** A name has as many components as the formats charge for it. */
  lemma {:induction false} ComponentsCharged(s: Bytes, from: nat)
    requires from <= |s|
    ensures |Split(s, from)| == Count(s[from..], DOT) + 1
    decreases |s| - from
  {
    hide Split;
    SplitStep(s, from);
    var dot := IndexOf(s, DOT, from);
    if dot.Some? {
      ComponentsCharged(s, dot.value + 1);
      CountStretch(s, from, dot.value);
      assert s[dot.value..][1..] == s[dot.value + 1..];
    } else {
      CountStretch(s, from, |s|);
    }
  }

  /** There are no dots up to the next one. */
  lemma {:induction false} CountStretch(s: Bytes, from: nat, to: nat)
    requires from <= to <= |s| && forall i :: from <= i < to ==> s[i] != DOT
    ensures Count(s[from..], DOT) == Count(s[to..], DOT)
    decreases |s| - from
  {
    if from < to {
      assert s[from..][1..] == s[from + 1..];
      CountStretch(s, from + 1, to);
    }
  }

  lemma {:induction false} FirstDot(s: Bytes, from: nat, head: Bytes, tail: Bytes)
    requires from <= |s| && DOT !in head && s[from..] == head + [DOT] + tail
    ensures IndexOf(s, DOT, from) == Some(from + |head|)
    ensures s[from..from + |head|] == head && s[from + |head| + 1..] == tail
  {
    assert s[from + |head|] == s[from..][|head|] == DOT;
    forall k | from <= k < from + |head|
      ensures s[k] == head[k - from] && s[k] != DOT
    {
      assert s[k] == s[from..][k - from];
    }
    forall k | 0 <= k < |tail|
      ensures s[from + |head| + 1 + k] == tail[k]
    {
      assert s[from + |head| + 1 + k] == s[from..][|head| + 1 + k];
    }
  }

  /** Splitting is the only way to cut a name into components without dots. */
  lemma {:induction false} SplitUnique(parts: seq<Bytes>, s: Bytes, from: nat)
    requires from <= |s| && parts != [] && Join(parts) == s[from..] && Dotless(parts)
    ensures parts == Split(s, from)
    decreases |parts|
  {
    hide Split;
    SplitStep(s, from);
    if |parts| == 1 {
      assert parts == [s[from..]];
      forall k | from <= k < |s|
        ensures s[k] != DOT
      {
        assert s[k] == parts[0][k - from];
      }
    } else {
      FirstDot(s, from, parts[0], Join(parts[1..]));
      SplitUnique(parts[1..], s, from + |parts[0]| + 1);
      assert parts == [parts[0]] + parts[1..];
    }
  }

  /** `explode` at a dot. */
  method Explode(s: Bytes) returns (parts: seq<Bytes>)
    ensures parts == Split(s, 0) && parts != [] && Join(parts) == s && Dotless(parts)
  {
    hide Split;
    SplitJoins(s, 0);
    parts := [];
    var start := 0;
    var separator := IndexOf(s, DOT, start);
    while separator.Some?
      invariant start <= |s| && separator == IndexOf(s, DOT, start)
      invariant parts + Split(s, start) == Split(s, 0)
      decreases |s| - start
    {
      SplitStep(s, start);
      parts := parts + [s[start..separator.value]];
      start := separator.value + 1;
      separator := IndexOf(s, DOT, start);
    }
    SplitStep(s, start);
    parts := parts + [s[start..]];
  }

  /** The components `setData` stores with an owned node. */
  method StoredParts(kind: Type, data: Option<Bytes>) returns (parts: seq<Bytes>)
    ensures parts == if HasDot(kind) && data.Some? && DOT in data.value then Split(data.value, 0) else []
  {
    parts := [];
    if HasDot(kind) && data.Some? && IndexOf(data.value, DOT, 0).Some? {
      parts := Explode(data.value);
    }
  }

  /** A cursor over dotted components: an index into the stored list, or a window sliding over the archived name. */
  class DataPartCursor {
    const archived: bool
    const parts: seq<Bytes>
    var index: nat
    const text: Bytes
    var start: nat
    var stop: Option<nat>
    var valid: bool
    /** The components still to come. */
    ghost var rest: seq<Bytes>

    ghost predicate Valid()
      reads this
    {
      if archived then
        if valid then start <= |text| && stop == IndexOf(text, DOT, start) && rest == Split(text, start) else rest == []
      else index <= |parts| && rest == parts[index..]
    }

    constructor (v: NodeView, ghost n: Node)
      requires Shows(v, n) && n.Node?
      ensures Valid() && rest == DataParts(n)
    {
      hide Denotes, Storable, HasDot;
      ShownFields(v, n);
      var stored: seq<Bytes> := [];
      var name: Bytes := [];
      if v.Owned? {
        stored := StoredParts(v.Kind(), v.Data());
      } else if HasDot(v.Kind()) {
        name := View(v.graph.nodes[v.index].data, v.graph.strings);
        NoDataNoName(v, n);
      }
      archived := v.Archived?;
      parts := stored;
      index := 0;
      text := name;
      start := 0;
      stop := IndexOf(name, DOT, 0);
      valid := IndexOf(name, DOT, 0).Some?;
      rest := DataParts(n);
    }

    predicate HasValue()
      requires Valid()
      reads this
      ensures HasValue() <==> rest != []
    {
      if archived then valid else index < |parts|
    }

    function Value(): (part: Bytes)
      requires Valid() && rest != []
      reads this
      ensures part == rest[0]
    {
      if archived then text[start..if stop.None? then |text| else stop.value] else parts[index]
    }

    method Advance()
      requires Valid() && rest != []
      modifies this
      ensures Valid() && rest == old(rest)[1..]
    {
      rest := rest[1..];
      if archived {
        if stop.None? {
          valid := false;
        } else {
          start := stop.value + 1;
          stop := IndexOf(text, DOT, start);
        }
      } else {
        index := index + 1;
      }
    }
  }

  lemma {:induction false} NoDataNoName(v: NodeView, n: Node)
    requires Shows(v, n) && n.Node? && v.Archived?
    ensures v.index < |v.graph.nodes| && InRange(v.graph.nodes[v.index].data, v.graph.strings)
    ensures View(v.graph.nodes[v.index].data, v.graph.strings) == if n.data.Some? then n.data.value else []
  {
  }

  // ---- Partials -----------------------------------------------------------------------------------------

  /** Where partials come from: a resolver, the caller's map, then the root's own map; or an archive's partial table. */
  datatype PartialSource =
    | OwnedPartials(resolver: Option<Bytes -> Node>, external: seq<Entry>, own: seq<Entry>)
    | ArchivedPartials(graph: Graph)

  /** The first of the three owned sources that has a tree for the name; empty entries fall through. */
  function FirstOwned(resolver: Option<Bytes -> Node>, external: seq<Entry>, own: seq<Entry>, name: Bytes): Node {
    if resolver.Some? && resolver.value(name).Node? then resolver.value(name)
    else if Find(external, name).Node? then Find(external, name)
    else Find(own, name)
  }

  predicate Indexes(p: ArchivePartial, g: Graph, e: Entry) {
    InRange(p.name, g.strings) && View(p.name, g.strings) == e.name && p.root != INVALID
    && Denotes(g.nodes, g.strings, p.root, e.root) && Storable(e.root)
  }

  /** The partial table of the archive holds exactly these entries. */
  predicate Indexed(g: Graph, eff: seq<Entry>) {
    |eff| == |g.partials| && Ascending(eff) && forall k :: 0 <= k < |eff| ==> Indexes(g.partials[k], g, eff[k])
  }

  /** The source answers every name as env does. */
  ghost predicate Serves(source: PartialSource, env: Env) {
    match source
    case OwnedPartials(resolver, external, own) => forall name :: env(name) == FirstOwned(resolver, external, own, name)
    case ArchivedPartials(g) => exists eff :: Indexed(g, eff) && forall name :: env(name) == Find(eff, name)
  }

  lemma {:induction false} FindAbsent(m: seq<Entry>, name: Bytes)
    requires forall k :: 0 <= k < |m| ==> m[k].name != name
    ensures Find(m, name) == Null
  {
    if m != [] {
      assert m[0].name != name;
      FindAbsent(m[1..], name);
    }
  }

  /** The map has this tree under this name. */
  predicate Holds(m: seq<Entry>, name: Bytes, tree: Node) {
    tree.Node? && exists k :: 0 <= k < |m| && m[k].name == name && m[k].root == tree
  }

  lemma {:induction false} FoundIsHeld(m: seq<Entry>, name: Bytes)
    requires Ascending(m)
    ensures forall tree :: Holds(m, name, tree) ==> tree.Node? && Find(m, name) == tree
    ensures Find(m, name).Node? ==> Holds(m, name, Find(m, name))
  {
    forall k | 0 <= k < |m| && m[k].name == name
      ensures Find(m, name) == m[k].root
    {
      FindAt(m, k);
    }
    if forall k :: 0 <= k < |m| ==> m[k].name != name {
      FindAbsent(m, name);
    }
  }

  /** The resolver is asked first; where it has no tree, the caller's map; where that has none, the root's own map; and where
      none of them has one, there is no partial. */
  lemma {:induction false} SourcePrecedence(resolver: Option<Bytes -> Node>, external: seq<Entry>, own: seq<Entry>, name: Bytes)
    requires Ascending(external) && Ascending(own)
    ensures var answer := FirstOwned(resolver, external, own, name);
            var resolved := if resolver.Some? then resolver.value(name) else Null;
            && (resolved.Node? ==> answer == resolved)
            && (resolved.Null? ==> forall tree :: Holds(external, name, tree) ==> answer == tree)
            && (resolved.Null? && (forall tree :: !Holds(external, name, tree)) ==>
                  (forall tree :: Holds(own, name, tree) ==> answer == tree)
                  && ((forall tree :: !Holds(own, name, tree)) ==> answer == Null))
  {
    hide Holds, Find;
    FoundIsHeld(external, name);
    FoundIsHeld(own, name);
  }

  /** `std::lower_bound` over the partial table. */
  method LowerBound(g: Graph, expected: Bytes, ghost eff: seq<Entry>) returns (k: nat)
    requires Indexed(g, eff)
    ensures k <= |eff|
    ensures forall j :: 0 <= j < k ==> Less(eff[j].name, expected)
    ensures forall j :: k <= j < |eff| ==> !Less(eff[j].name, expected)
  {
    hide Denotes, Storable;
    k := 0;
    var count := |g.partials|;
    while count > 0
      invariant 0 <= count && k + count <= |eff|
      invariant forall j :: 0 <= j < k ==> Less(eff[j].name, expected)
      invariant forall j :: k + count <= j < |eff| ==> !Less(eff[j].name, expected)
      decreases count
    {
      var half := count / 2;
      var middle := k + half;
      assert Indexes(g.partials[middle], g, eff[middle]);
      if Less(View(g.partials[middle].name, g.strings), expected) {
        forall j | 0 <= j <= middle
          ensures Less(eff[j].name, expected)
        {
          if j < middle {
            LessTransitive(eff[j].name, eff[middle].name, expected);
          }
        }
        k, count := middle + 1, count - half - 1;
      } else {
        forall j | middle <= j < |eff|
          ensures !Less(eff[j].name, expected)
        {
          if j > middle && Less(eff[j].name, expected) {
            LessTransitive(eff[middle].name, eff[j].name, expected);
          }
        }
        count := half;
      }
    }
  }

  /** The partial of that name, as a view; the empty view if there is none. */
  method FindPartial(source: PartialSource, name: Bytes, ghost env: Env) returns (v: NodeView)
    requires Serves(source, env)
    ensures Shows(v, env(name))
  {
    hide Denotes, Storable;
    match source {
      case OwnedPartials(resolver, external, own) =>
        if resolver.Some? {
          var resolved := resolver.value(name);
          if resolved.Node? {
            return Owned(resolved);
          }
        }
        var found := Find(external, name);
        if found.Node? {
          return Owned(found);
        }
        return Owned(Find(own, name));
      case ArchivedPartials(g) =>
        ghost var eff :| Indexed(g, eff) && forall name :: env(name) == Find(eff, name);
        var position := LowerBound(g, name, eff);
        LookupAt(g, eff, name, position);
        if position == |g.partials| || View(g.partials[position].name, g.strings) != name {
          return Archived(g, INVALID);
        }
        return Archived(g, g.partials[position].root);
    }
  }

  /** The entry at the lower bound decides the lookup. */
  lemma {:induction false} LookupAt(g: Graph, eff: seq<Entry>, name: Bytes, k: nat)
    requires Indexed(g, eff) && k <= |eff|
    requires forall j :: 0 <= j < k ==> Less(eff[j].name, name)
    requires forall j :: k <= j < |eff| ==> !Less(eff[j].name, name)
    ensures k < |eff| ==> InRange(g.partials[k].name, g.strings) && View(g.partials[k].name, g.strings) == eff[k].name
    ensures if k < |eff| && eff[k].name == name then
              Find(eff, name) == eff[k].root && Shows(Archived(g, g.partials[k].root), eff[k].root)
            else Find(eff, name) == Null
  {
    hide DenotesChain, Records, StorableAll;
    if k < |eff| {
      assert Indexes(g.partials[k], g, eff[k]);
    }
    if k < |eff| && eff[k].name == name {
      FindAt(eff, k);
    } else {
      forall j | 0 <= j < |eff|
        ensures eff[j].name != name
      {
        LessIrreflexive(name);
        if j > k {
          LessTotal(eff[k].name, name);
          LessTransitive(name, eff[k].name, eff[j].name);
        }
      }
      FindAbsent(eff, name);
    }
  }
}
