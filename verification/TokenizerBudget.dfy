/** What the tokenizer's limits bound: the nodes, the depth and the dotted components of every accepted template. */
module TokenizerBudget {
  import opened Base
  import opened Template
  import opened RenderTrace
  import opened Strings
  import opened SourceTree
  import opened TokenizerSpec
  import opened Tiling
  import opened TokenizerTheorems

  // ---- Nodes and depth ----------------------------------------------------------------------------

  function ItemNodes(item: Item): nat {
    match item
    case Literal(_, _, _, _) => 1
    case Tag(head, _, _, _) => if head.change.Some? then 0 else 1
    case Block(_, _, _, _, _, _, items) => 1 + ItemsNodes(items)
  }

  function ItemsNodes(items: seq<Item>): nat {
    if items == [] then 0 else ItemNodes(items[0]) + ItemsNodes(items[1..])
  }

  /** With k sections open around it, no section inside the item is nested deeper than the maximum. */
  predicate Deep(item: Item, k: nat, maximum: nat) {
    match item
    case Literal(_, _, _, _) => k <= maximum
    case Tag(_, _, _, _) => k <= maximum
    case Block(_, _, _, _, _, _, items) => k < maximum && forall i :: 0 <= i < |items| ==> Deep(items[i], k + 1, maximum)
  }

  predicate AllDeep(items: seq<Item>, k: nat, maximum: nat) {
    forall i :: 0 <= i < |items| ==> Deep(items[i], k, maximum)
  }

  function LevelsNodes(levels: seq<Level>): nat {
    if levels == [] then 0
    else
      var last := |levels| - 1;
      LevelsNodes(levels[..last]) + ItemsNodes(levels[last].items) + if last > 0 then 1 else 0
  }

  predicate Budgeted(st: Parse, o: Options) {
    && st.count == LevelsNodes(st.levels) && st.count <= o.limits.maxNodes
    && 0 < |st.levels| <= o.limits.maxNestingDepth + 1
    && forall k :: 0 <= k < |st.levels| ==> AllDeep(st.levels[k].items, k, o.limits.maxNestingDepth)
  }

  lemma {:induction false} ItemsNodesConcat(a: seq<Item>, b: seq<Item>)
    ensures ItemsNodes(a + b) == ItemsNodes(a) + ItemsNodes(b)
  {
    if a == [] {
      assert a + b == b;
    } else {
      assert (a + b)[0] == a[0] && (a + b)[1..] == a[1..] + b;
      ItemsNodesConcat(a[1..], b);
    }
  }

  lemma {:induction false} OneItemNodes(item: Item)
    ensures ItemsNodes([item]) == ItemNodes(item)
  {
    assert [item][1..] == [];
  }

  lemma {:induction false} BudgetAdd(st: Parse, items: seq<Item>, o: Options)
    requires Budgeted(st, o) && AllDeep(items, |st.levels| - 1, o.limits.maxNestingDepth)
    requires st.count + ItemsNodes(items) <= o.limits.maxNodes
    ensures Budgeted(AddAll(st.(count := st.count + ItemsNodes(items)), items), o)
  {
    hide Deep, ItemsNodes;
    var r, last := AddAll(st.(count := st.count + ItemsNodes(items)), items), |st.levels| - 1;
    ItemsNodesConcat(st.levels[last].items, items);
    assert r.levels[..last] == st.levels[..last];
  }

  lemma {:induction false} BudgetOpen(st: Parse, level: Level, o: Options)
    requires Budgeted(st, o) && level.items == [] && st.count < o.limits.maxNodes
    requires |st.levels| - 1 < o.limits.maxNestingDepth
    ensures Budgeted(st.(count := st.count + 1, levels := st.levels + [level]), o)
  {
    hide Deep;
    assert (st.levels + [level])[..|st.levels|] == st.levels;
  }

  lemma {:induction false} BudgetClose(st: Parse, f: Found, o: Options)
    requires Budgeted(st, o) && |st.levels| > 1
    ensures Budgeted(CloseBlock(st, f), o)
  {
    hide ItemsNodes;
    var n := |st.levels|;
    var top := TopLevel(st);
    var block := Block(top.head, top.spelling, top.from, top.body, f.open, f.End(), top.items);
    var below := st.(levels := st.levels[..n - 1], count := st.count - ItemNodes(block));
    OneItemNodes(block);
    assert AllDeep(top.items, n - 1, o.limits.maxNestingDepth);
    BudgetAdd(below, [block], o);
  }

  lemma {:induction false} LiteralsBudget(items: seq<Item>, k: nat, maximum: nat)
    requires k <= maximum && forall i :: 0 <= i < |items| ==> items[i].Literal?
    ensures ItemsNodes(items) == |items| && AllDeep(items, k, maximum)
  {
    if items != [] {
      LiteralsBudget(items[1..], k, maximum);
    }
  }

  lemma {:induction false} BudgetTag(st: Parse, f: Found, o: Options)
    requires Budgeted(st, o) && AddTag(st, f, o).Ok?
    ensures Budgeted(AddTag(st, f, o).value, o)
  {
    hide Budgeted, LevelsNodes;
    var tag := Tag(f.head, f.spelling, f.open, f.End());
    BudgetFacts(st, o);
    OneItemNodes(tag);
    if f.head.change.Some? {
      BudgetAdd(st, [tag], o);
      BudgetDelims(Add(st, tag), f.head.change.value, o);
    } else if Opens(f.head.kind) {
      BudgetOpen(st, Level(f.head, f.spelling, f.open, f.End(), []), o);
    } else {
      BudgetAdd(st, [tag], o);
      if f.head.kind.TypeStop? {
        BudgetClose(AddNode(st, tag, o).value, f, o);
      }
    }
  }

  lemma {:induction false} BudgetFacts(st: Parse, o: Options)
    requires Budgeted(st, o)
    ensures 0 < |st.levels| <= o.limits.maxNestingDepth + 1 && st.count <= o.limits.maxNodes
  {
  }

  lemma {:induction false} BudgetDelims(st: Parse, delims: Delims, o: Options)
    requires Budgeted(st, o)
    ensures Budgeted(st.(delims := delims), o)
  {
  }

  lemma {:induction false} BudgetStep(tmpl: Bytes, st: Parse, f: Found, o: Options)
    requires st.levels != [] && f.Within(tmpl) && Budgeted(st, o) && TagStep(tmpl, st, f, o).Ok?
    ensures Budgeted(TagStep(tmpl, st, f, o).value.parse, o)
  {
    hide Budgeted, AddTag, AddBefore, AddAfter, LineStart;
    var lineEnd := Standalone(tmpl, f);
    BudgetFacts(st, o);
    AddBeforeAdds(tmpl, st, f, lineEnd, o);
    var items := Tiling.Before(tmpl, f, lineEnd);
    LiteralsBudget(items, |st.levels| - 1, o.limits.maxNestingDepth);
    BudgetAdd(st, items, o);
    var before := AddBefore(tmpl, st, f, lineEnd, o).value;
    BudgetTag(before, f, o);
    var tagged := AddTag(before, f, o).value;
    BudgetFacts(tagged, o);
    AddAfterAdds(tagged, f, lineEnd, o);
    LiteralsBudget(Behind(f, lineEnd), |tagged.levels| - 1, o.limits.maxNestingDepth);
    BudgetAdd(tagged, Behind(f, lineEnd), o);
  }

  lemma {:induction false} ParseBudget(tmpl: Bytes, text: nat, st: Parse, o: Options)
    requires st.levels != [] && text <= |tmpl| && Usable(st.delims) && Budgeted(st, o)
    ensures var r := ParseFrom(tmpl, text, st, o); r.Ok? ==> Budgeted(r.value, o)
    decreases |tmpl| - text
  {
    hide ParseTag, TagStep, FindAt, Recognized, Budgeted;
    if ParseFrom(tmpl, text, st, o).Ok? {
      var open := FindAt(tmpl, text, st.delims.start);
      if open.Some? {
        var f, stepped := ParsedTag(tmpl, text, open.value, st, o);
        BudgetStep(tmpl, st, f, o);
        ParseBudget(tmpl, stepped.next, stepped.parse, o);
      } else if text < |tmpl| {
        var item := Literal(FLAG_NONE, o.escapeOutput, text, |tmpl|);
        BudgetFacts(st, o);
        LiteralsBudget([item], |st.levels| - 1, o.limits.maxNestingDepth);
        BudgetAdd(st, [item], o);
      }
    }
  }

  // ---- What that means for the tree -----------------------------------------------------------------

  lemma {:induction false} CountConcat(a: seq<Node>, b: seq<Node>)
    ensures NodeCountAll(a + b) == NodeCountAll(a) + NodeCountAll(b)
    ensures HeightAll(a + b) == Max(HeightAll(a), HeightAll(b))
    ensures PartCountAll(a + b) == PartCountAll(a) + PartCountAll(b)
  {
    if a == [] {
      assert a + b == b;
    } else {
      assert (a + b)[0] == a[0] && (a + b)[1..] == a[1..] + b;
      CountConcat(a[1..], b);
    }
  }

  lemma {:induction false} WithinConcat(a: seq<Node>, b: seq<Node>, maximum: nat)
    requires PartsWithinAll(a, maximum) && PartsWithinAll(b, maximum)
    ensures PartsWithinAll(a + b, maximum)
  {
    if a == [] {
      assert a + b == b;
    } else {
      assert (a + b)[0] == a[0] && (a + b)[1..] == a[1..] + b;
      WithinConcat(a[1..], b, maximum);
    }
  }

  /** The bounds on the nodes of a run of pieces, inside k open sections and over a stretch of the source. */
  predicate Bounded(ns: seq<Node>, count: nat, depth: nat, size: nat, maxTagBytes: nat) {
    NodeCountAll(ns) == count && HeightAll(ns) <= depth && PartCountAll(ns) <= size + count
    && PartsWithinAll(ns, maxTagBytes + 1)
  }

  lemma {:induction false} BoundedConcat(a: seq<Node>, b: seq<Node>, ca: nat, cb: nat, depth: nat, sa: nat, sb: nat,
                                         maxTagBytes: nat)
    requires Bounded(a, ca, depth, sa, maxTagBytes) && Bounded(b, cb, depth, sb, maxTagBytes)
    ensures Bounded(a + b, ca + cb, depth, sa + sb, maxTagBytes)
  {
    CountConcat(a, b);
    WithinConcat(a, b, maxTagBytes + 1);
  }

  lemma {:induction false} CountAtMost(s: Bytes, b: byte)
    ensures Count(s, b) <= |s|
  {
    if s != [] {
      CountAtMost(s[1..], b);
    }
  }

  /** A node over its children: one more node, one more level, and the components of its own name. */
  lemma {:induction false} BoundedNode(n: Node, count: nat, depth: nat, size: nat, own: nat, maxTagBytes: nat)
    requires n.Node? && Bounded(n.children, count, depth, size, maxTagBytes) && NodeParts(n) <= own + 1 && own <= maxTagBytes
    ensures Bounded([n], count + 1, depth + 1, size + own, maxTagBytes)
  {
    var one, none: seq<Node> := [n], [];
    assert one[1..] == none && one[0] == n;
    assert NodeCountAll(none) == 0 && HeightAll(none) == 0 && PartCountAll(none) == 0;
    assert NodeCountAll(one) == NodeCount(n) + NodeCountAll(none) == 1 + NodeCountAll(n.children);
    assert HeightAll(one) == Max(Height(n), HeightAll(none)) == 1 + HeightAll(n.children);
    assert PartCountAll(one) == PartCount(n) + PartCountAll(none) == NodeParts(n) + PartCountAll(n.children);
    assert PartsWithin(n, maxTagBytes + 1);
  }

  lemma {:induction false} NoNodes(depth: nat, size: nat, maxTagBytes: nat)
    ensures Bounded([], 0, depth, size, maxTagBytes)
  {
  }

  lemma {:induction false} NameParts(head: Head, spelling: Spelling, from: nat, to: nat, tmpl: Bytes, o: Options)
    requires SpelledTag(head, spelling, from, to, tmpl, o)
    ensures Parts(head.kind, head.name) <= |spelling.raw| + 1 && |spelling.raw| <= o.limits.maxTagBytes
    ensures |spelling.raw| <= to - from && from <= to <= |tmpl|
  {
    hide Words;
    CountAtMost(head.name, DOT);
    var a, b := TrimCuts(spelling.raw, WHITESPACE);
    var text := Trim(spelling.raw, WHITESPACE);
    if text != [] {
      var c, d := TrimCuts(text[1..], WHITESPACE);
    }
  }

  lemma {:induction false} ItemBounds(item: Item, k: nat, tmpl: Bytes, buffer: nat, o: Options)
    requires Spelled(item, tmpl, o) && Deep(item, k, o.limits.maxNestingDepth) && item.from <= item.to
    ensures Placed(item, tmpl) && k <= o.limits.maxNestingDepth
    ensures Bounded(Erase(item, tmpl, buffer), ItemNodes(item), o.limits.maxNestingDepth - k + 1, item.to - item.from,
                    o.limits.maxTagBytes)
    decreases item, 1
  {
    hide Bounded, SpelledTag, ClosedBy, Settled, Classify, HasDot;
    SpelledPlaced(item, tmpl, o);
    var depth := o.limits.maxNestingDepth - k;
    match item {
      case Literal(flags, escaped, from, to) =>
        NoNodes(depth, 0, o.limits.maxTagBytes);
        OutputHasNoParts();
        BoundedMore(Erase(item, tmpl, buffer)[0], depth, to - from, o.limits.maxTagBytes);
      case Tag(head, spelling, from, to) =>
        NameParts(head, spelling, from, to, tmpl, o);
        NoNodes(depth, to - from - |spelling.raw|, o.limits.maxTagBytes);
        NoNodes(depth + 1, to - from, o.limits.maxTagBytes);
        if head.change.None? {
          BoundedNode(Leaf(head.kind, head.flags, head.name), 0, depth, to - from - |spelling.raw|, |spelling.raw|,
                      o.limits.maxTagBytes);
        }
      case Block(head, spelling, from, body, close, to, items) =>
        NameParts(head, spelling, from, body, tmpl, o);
        ItemsBounds(items, k + 1, body, to, tmpl, buffer, o);
        TilesOrdered(items, body, to);
        var n := Erase(item, tmpl, buffer)[0];
        BoundedNode(n, ItemsNodes(items), depth, to - body, |spelling.raw|, o.limits.maxTagBytes);
        BoundedLarger([n], 1 + ItemsNodes(items), depth + 1, to - body + |spelling.raw|, to - from, o.limits.maxTagBytes);
    }
  }

  lemma {:induction false} OutputHasNoParts()
    ensures !HasDot(TypeOutput)
  {
  }

  lemma {:induction false} BoundedMore(n: Node, depth: nat, size: nat, maxTagBytes: nat)
    requires n.Node? && n.children == [] && NodeParts(n) == 0
    ensures Bounded([n], 1, depth + 1, size, maxTagBytes)
  {
    hide NodeParts;
    var one := [n];
    assert one[1..] == [] && one[0] == n;
    assert NodeCount(n) == 1 && Height(n) == 1 && PartCount(n) == 0 && PartsWithin(n, maxTagBytes + 1);
  }

  lemma {:induction false} BoundedLarger(ns: seq<Node>, count: nat, depth: nat, size: nat, larger: nat, maxTagBytes: nat)
    requires Bounded(ns, count, depth, size, maxTagBytes) && size <= larger
    ensures Bounded(ns, count, depth, larger, maxTagBytes)
  {
  }

  lemma {:induction false} ItemsBounds(items: seq<Item>, k: nat, from: nat, to: nat, tmpl: Bytes, buffer: nat, o: Options)
    requires AllSpelled(items, tmpl, o) && AllDeep(items, k, o.limits.maxNestingDepth) && Tiles(items, from, to)
    requires k <= o.limits.maxNestingDepth
    ensures AllPlaced(items, tmpl) && from <= to
    ensures Bounded(EraseAll(items, tmpl, buffer), ItemsNodes(items), o.limits.maxNestingDepth - k + 1, to - from,
                    o.limits.maxTagBytes)
    decreases items, 0
  {
    hide Bounded, Spelled, Deep, Placed, Erase, ItemNodes;
    AllSpelledPlaced(items, tmpl, o);
    TilesOrdered(items, from, to);
    if items == [] {
      NoNodes(o.limits.maxNestingDepth - k + 1, 0, o.limits.maxTagBytes);
    } else {
      var first, rest := Erase(items[0], tmpl, buffer), EraseAll(items[1..], tmpl, buffer);
      ItemBounds(items[0], k, tmpl, buffer, o);
      ItemsBounds(items[1..], k, items[0].to, to, tmpl, buffer, o);
      BoundedConcat(first, rest, ItemNodes(items[0]), ItemsNodes(items[1..]), o.limits.maxNestingDepth - k + 1,
                    items[0].to - from, to - items[0].to, o.limits.maxTagBytes);
    }
  }
}
