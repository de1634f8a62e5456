/** Lists of sibling nodes that render to the same text, outside of any line frame. */
module SameMeaning {
  import opened Base
  import opened Template
  import opened RenderTrace
  import opened RenderLimits
  import opened Indentation
  import opened SourceTree

  function Together(ns: seq<Node>, c: Context, stack: seq<Data>, depth: nat): Meaning
    requires stack != [] && depth <= NESTING_CEILING
  {
    Meant(TraceChildren(ns, c, stack, None, depth).events)
  }

  /** The same text and the same failure, for all partials and data and at every depth. */
  ghost predicate Equivalent(ns: seq<Node>, ms: seq<Node>) {
    forall c: Context, stack: seq<Data>, depth: nat :: stack != [] && depth <= NESTING_CEILING ==>
      Together(ns, c, stack, depth) == Together(ms, c, stack, depth)
  }

  lemma {:induction false} EquivalentSelf(ns: seq<Node>)
    ensures Equivalent(ns, ns)
  {
  }

  lemma {:induction false} EquivalentTurned(ns: seq<Node>, ms: seq<Node>)
    requires Equivalent(ns, ms)
    ensures Equivalent(ms, ns)
  {
  }

  lemma {:induction false} EquivalentThrough(a: seq<Node>, b: seq<Node>, c: seq<Node>)
    requires Equivalent(a, b) && Equivalent(b, c)
    ensures Equivalent(a, c)
  {
    hide Together;
    forall e: Context, stack: seq<Data>, depth: nat | stack != [] && depth <= NESTING_CEILING
      ensures Together(a, e, stack, depth) == Together(c, e, stack, depth)
    {
      assert Together(a, e, stack, depth) == Together(b, e, stack, depth);
    }
  }

  lemma {:induction false} JoinThrice(a: Meaning, b: Meaning, c: Meaning)
    ensures Join(Join(a, b), c) == Join(a, Join(b, c))
  {
    assert (a.text + b.text) + c.text == a.text + (b.text + c.text);
  }

  /** A list in which every marker has its partial can be followed by anything. */
  lemma {:induction false} TogetherConcat(a: seq<Node>, b: seq<Node>, c: Context, stack: seq<Data>, depth: nat)
    requires MarkersPlaced(a) && stack != [] && depth <= NESTING_CEILING
    ensures Together(a + b, c, stack, depth) == Join(Together(a, c, stack, depth), Together(b, c, stack, depth))
    decreases |a|
  {
    hide Meant, TraceNode, TraceChildren, PartialIndentation, IsMarker;
    if a == [] {
      NoChildren(c, stack, None, depth);
      NoText([], true);
      assert a + b == b;
      return;
    }
    var all := a + b;
    assert all[0] == a[0];
    PlacedHead(a, b);
    if PartialIndentation(a[0], if |a| > 1 then a[1] else Null) == Ok(None) {
      var x, y := ChildSteps(a, c, stack, None, depth);
      var u, v := ChildSteps(all, c, stack, None, depth);
      NodeFrameless(a[0], c, stack, depth, None, false);
      assert all[1..] == a[1..] + b;
      PlacedTail(a, 1);
      TogetherConcat(a[1..], b, c, stack, depth);
      ThenMeant(x, y);
      ThenMeant(u, v);
      JoinThrice(Meant(x.events), Meant(y.events), Together(b, c, stack, depth));
    } else {
      var x, y, z := MarkerSteps(a, c, stack, None, depth);
      var u, v, w := MarkerSteps(all, c, stack, None, depth);
      NodeFrameless(a[0], c, stack, depth, None, true);
      NodeFrameless(a[1], c, stack, depth, PartialIndentation(a[0], a[1]).value, false);
      assert a[1..][1..] == a[2..] && all[1..][1..] == a[2..] + b;
      PlacedTail(a, 2);
      TogetherConcat(a[2..], b, c, stack, depth);
      ThenMeant(y, z);
      ThenMeant(x, Then(y, z));
      ThenMeant(v, w);
      ThenMeant(u, Then(v, w));
      JoinThrice(Meant(y.events), Meant(z.events), Together(b, c, stack, depth));
      JoinThrice(Meant(x.events), Meant(Then(y, z).events), Together(b, c, stack, depth));
    }
  }

  /** The first child is no marker, or it has its partial; what follows the list does not matter. */
  lemma {:induction false} PlacedHead(a: seq<Node>, b: seq<Node>)
    requires a != [] && MarkersPlaced(a)
    ensures var own, all := PartialIndentation(a[0], if |a| > 1 then a[1] else Null),
                            PartialIndentation((a + b)[0], if |a + b| > 1 then (a + b)[1] else Null);
            all == own && own.Ok? && (own.value.Some? ==> |a| > 1 && a[0].Node? && Bit(a[0].flags, FLAG_PARTIAL_INDENT))
            && (own.value.None? ==> a[0].Null? || !Bit(a[0].flags, FLAG_PARTIAL_INDENT))
  {
    hide IsMarker, Bit;
    if |a| > 1 {
      assert (a + b)[1] == a[1];
    }
  }

  lemma {:induction false} PlacedTail(a: seq<Node>, k: nat)
    requires MarkersPlaced(a) && k <= |a|
    ensures MarkersPlaced(a[k..])
  {
    hide IsMarker, Bit;
    forall i | 0 <= i < |a[k..]| && a[k..][i].Node? && Bit(a[k..][i].flags, FLAG_PARTIAL_INDENT)
      ensures IsMarker(a[k..][i]) && i + 1 < |a[k..]| && a[k..][i + 1].Node? && a[k..][i + 1].kind.TypePartial?
    {
      assert a[k..][i] == a[k + i];
      assert a[k + i + 1] == a[k..][i + 1];
    }
  }

  lemma {:induction false} PlacedConcat(a: seq<Node>, b: seq<Node>)
    requires MarkersPlaced(a) && MarkersPlaced(b)
    ensures MarkersPlaced(a + b)
  {
    hide IsMarker, Bit;
    var all := a + b;
    forall i | 0 <= i < |all| && all[i].Node? && Bit(all[i].flags, FLAG_PARTIAL_INDENT)
      ensures IsMarker(all[i]) && i + 1 < |all| && all[i + 1].Node? && all[i + 1].kind.TypePartial?
    {
      if i < |a| {
        assert all[i] == a[i] && all[i + 1] == a[i + 1];
      } else {
        assert all[i] == b[i - |a|] && b[i - |a| + 1] == all[i + 1];
      }
    }
  }

  lemma {:induction false} PlacedOne(n: Node)
    requires n.Node? && !Bit(n.flags, FLAG_PARTIAL_INDENT)
    ensures MarkersPlaced([n])
  {
  }

  lemma {:induction false} EquivalentConcat(a: seq<Node>, b: seq<Node>, a': seq<Node>, b': seq<Node>)
    requires Equivalent(a, a') && Equivalent(b, b') && MarkersPlaced(a) && MarkersPlaced(a')
    ensures Equivalent(a + b, a' + b')
  {
    hide Together, MarkersPlaced;
    forall c: Context, stack: seq<Data>, depth: nat | stack != [] && depth <= NESTING_CEILING
      ensures Together(a + b, c, stack, depth) == Together(a' + b', c, stack, depth)
    {
      TogetherConcat(a, b, c, stack, depth);
      TogetherConcat(a', b', c, stack, depth);
      assert Together(a, c, stack, depth) == Together(a', c, stack, depth);
      assert Together(b, c, stack, depth) == Together(b', c, stack, depth);
    }
  }

  // ---- Single nodes -----------------------------------------------------------------------------------------

  lemma {:induction false} OneTogether(n: Node, c: Context, stack: seq<Data>, depth: nat)
    requires n.Node? && !Bit(n.flags, FLAG_PARTIAL_INDENT) && stack != [] && depth <= NESTING_CEILING
    ensures Together([n], c, stack, depth) == Meant(TraceNode(n, c, stack, None, depth, None, false).events)
  {
    hide TraceNode, TraceChildren, Meant;
    NoMarkerPair(n, Null);
    var a, b := ChildSteps([n], c, stack, None, depth);
    assert [n][1..] == [];
    NoChildren(c, stack, b.frame, depth);
    NoChildren(c, stack, a.frame, depth);
    ThenMeant(a, b);
    NoText([], true);
    JoinNothing(Meant(a.events));
  }

  lemma {:induction false} JoinNothing(m: Meaning)
    ensures Join(m, Meaning([], None)) == m && Join(Meaning([], None), m) == m
  {
    assert m.text + [] == m.text && [] + m.text == m.text;
  }

  /** Two nodes that fail alike before anything is rendered, and otherwise have bodies that mean the same. */
  lemma {:induction false} OneEquivalent(n: Node, m: Node)
    requires n.Node? && m.Node? && !Bit(n.flags, FLAG_PARTIAL_INDENT) && !Bit(m.flags, FLAG_PARTIAL_INDENT)
    requires Objection(n, false).None? && Objection(m, false).None?
    requires forall c: Context, stack: seq<Data>, depth: nat :: stack != [] && depth < NESTING_CEILING ==>
               Meant(TraceBody(n, c, stack, None, depth, None).events) == Meant(TraceBody(m, c, stack, None, depth, None).events)
    ensures Equivalent([n], [m])
  {
    hide TraceNode, TraceBody, Meant, Bit, Together, Objection;
    forall c: Context, stack: seq<Data>, depth: nat | stack != [] && depth <= NESTING_CEILING
      ensures Together([n], c, stack, depth) == Together([m], c, stack, depth)
    {
      OneTogether(n, c, stack, depth);
      OneTogether(m, c, stack, depth);
      if depth < NESTING_CEILING {
        NodeMeant(n, c, stack, None, depth, None, false);
        NodeMeant(m, c, stack, None, depth, None, false);
      } else {
        EntersTooDeep(n, c, stack, None, depth, None, false);
        EntersTooDeep(m, c, stack, None, depth, None, false);
      }
    }
  }

  /** Source that is not rendered. */
  lemma {:induction false} ConsumedEquivalent(a: Bytes, b: Bytes)
    ensures Equivalent([Leaf(TypeOutput, FLAG_LAMBDA_ONLY, a)], [Leaf(TypeOutput, FLAG_LAMBDA_ONLY, b)])
  {
    hide Meant;
    OneEquivalent(Leaf(TypeOutput, FLAG_LAMBDA_ONLY, a), Leaf(TypeOutput, FLAG_LAMBDA_ONLY, b));
  }

  lemma {:induction false} CommentsEquivalent(a: Bytes, b: Bytes)
    ensures Equivalent([Leaf(TypeComment, FLAG_NONE, a)], [Leaf(TypeComment, FLAG_NONE, b)])
  {
    hide Meant;
    OneEquivalent(Leaf(TypeComment, FLAG_NONE, a), Leaf(TypeComment, FLAG_NONE, b));
  }

  /** Literal text may be cut in two. */
  lemma {:induction false} TextsEquivalent(a: Bytes, b: Bytes)
    ensures Equivalent([Indentation.Literal(a + b)], [Indentation.Literal(a), Indentation.Literal(b)])
  {
    hide Meant, Together, TraceNode;
    forall c: Context, stack: seq<Data>, depth: nat | stack != [] && depth <= NESTING_CEILING
      ensures Together([Indentation.Literal(a + b)], c, stack, depth) == Together([Indentation.Literal(a), Indentation.Literal(b)], c, stack, depth)
    {
      PlacedOne(Indentation.Literal(a));
      TogetherConcat([Indentation.Literal(a)], [Indentation.Literal(b)], c, stack, depth);
      assert [Indentation.Literal(a)] + [Indentation.Literal(b)] == [Indentation.Literal(a), Indentation.Literal(b)];
      TextTogether(a, c, stack, depth);
      TextTogether(b, c, stack, depth);
      TextTogether(a + b, c, stack, depth);
    }
  }

  lemma {:induction false} TextTogether(a: Bytes, c: Context, stack: seq<Data>, depth: nat)
    requires stack != [] && depth <= NESTING_CEILING
    ensures Together([Indentation.Literal(a)], c, stack, depth)
         == if depth < NESTING_CEILING then Meaning(a, None) else Meaning([], Some(RenderNesting))
  {
    hide TraceNode, Meant, Together;
    OneTogether(Indentation.Literal(a), c, stack, depth);
    if depth < NESTING_CEILING {
      LiteralMeant(a, c, stack, depth);
    } else {
      EntersTooDeep(Indentation.Literal(a), c, stack, None, depth, None, false);
      TooDeepMeant(depth);
    }
  }

  lemma {:induction false} TooDeepMeant(depth: nat)
    requires depth >= NESTING_CEILING
    ensures Meant([Enter(depth)]) == Meaning([], Some(RenderNesting))
  {
  }

  // ---- Sections and whole trees -----------------------------------------------------------------------------------

  lemma {:induction false} ContextsTogether(ns: seq<Node>, ms: seq<Node>, contexts: seq<Data>, c: Context, stack: seq<Data>,
                                            depth: nat)
    requires Equivalent(ns, ms) && stack != [] && depth <= NESTING_CEILING
    ensures Meant(TraceContexts(ns, contexts, c, stack, None, depth).events)
         == Meant(TraceContexts(ms, contexts, c, stack, None, depth).events)
    decreases |contexts|
  {
    hide Meant, TraceContexts, TraceChildren;
    if contexts == [] {
      NoContexts(ns, c, stack, None, depth);
      NoContexts(ms, c, stack, None, depth);
    } else {
      assert contexts[0..] == contexts;
      var a, b := ContextSteps(ns, contexts, 0, c, stack, None, depth);
      var a', b' := ContextSteps(ms, contexts, 0, c, stack, None, depth);
      ChildrenFrameless(ns, c, stack + [contexts[0]], depth);
      ChildrenFrameless(ms, c, stack + [contexts[0]], depth);
      assert Together(ns, c, stack + [contexts[0]], depth) == Together(ms, c, stack + [contexts[0]], depth);
      ContextsTogether(ns, ms, contexts[1..], c, stack, depth);
      ThenMeant(a, b);
      ThenMeant(a', b');
    }
  }

  /** Sections with equivalent children; the source they keep does not matter. */
  lemma {:induction false} SectionsEquivalent(n: Node, m: Node)
    requires n.Node? && m.Node? && Opens(n.kind) && m.kind == n.kind && m.data == n.data && n.data.Some? && m.flags == n.flags
    requires n.flags == FLAG_NONE && Equivalent(n.children, m.children)
    ensures Equivalent([n], [m])
  {
    hide Meant, Lookup, TraceChildren, TraceContexts, Equivalent;
    forall c: Context, stack: seq<Data>, depth: nat | stack != [] && depth < NESTING_CEILING
      ensures Meant(TraceBody(n, c, stack, None, depth, None).events) == Meant(TraceBody(m, c, stack, None, depth, None).events)
    {
      SectionBodies(n, m, c, stack, depth);
    }
    OneEquivalent(n, m);
  }

  lemma {:induction false} SectionBodies(n: Node, m: Node, c: Context, stack: seq<Data>, depth: nat)
    requires n.Node? && m.Node? && Opens(n.kind) && m.kind == n.kind && m.data == n.data && n.data.Some? && m.flags == n.flags
    requires n.flags == FLAG_NONE && Equivalent(n.children, m.children) && stack != [] && depth < NESTING_CEILING
    ensures Objection(n, false).None? && Objection(m, false).None?
    ensures Meant(TraceBody(n, c, stack, None, depth, None).events) == Meant(TraceBody(m, c, stack, None, depth, None).events)
  {
    hide Meant, Lookup, TraceChildren, TraceContexts;
    LookupSame(n, m, stack, c.strict);
    NoTag();
    var value := Lookup(n, stack, c.strict);
    assert Together(n.children, c, stack, depth + 1) == Together(m.children, c, stack, depth + 1);
    if value.Some? {
      ContextsTogether(n.children, m.children, SectionContexts(value.value), c, stack, depth + 1);
    }
    ThenMeant(BeginTag(None), TraceChildren(n.children, c, stack, None, depth + 1));
    ThenMeant(BeginTag(None), TraceChildren(m.children, c, stack, None, depth + 1));
    if value.Some? {
      ThenMeant(BeginTag(None), TraceContexts(n.children, SectionContexts(value.value), c, stack, None, depth + 1));
      ThenMeant(BeginTag(None), TraceContexts(m.children, SectionContexts(value.value), c, stack, None, depth + 1));
    }
  }

  lemma {:induction false} RootTogether(ns: seq<Node>, c: Context, stack: seq<Data>, depth: nat)
    requires stack != [] && depth < NESTING_CEILING
    ensures Meant(TraceNode(RootNode(ns), c, stack, None, depth, None, false).events) == Together(ns, c, stack, depth + 1)
  {
    hide Meant, TraceNode, TraceChildren;
    NodeMeant(RootNode(ns), c, stack, None, depth, None, false);
  }

  lemma {:induction false} RootTooDeep(ns: seq<Node>, c: Context, stack: seq<Data>)
    requires stack != []
    ensures Meant(TraceNode(RootNode(ns), c, stack, None, NESTING_CEILING, None, false).events) == Meaning([], Some(RenderNesting))
  {
    hide Meant, TraceNode;
    EntersTooDeep(RootNode(ns), c, stack, None, NESTING_CEILING, None, false);
    TooDeepMeant(NESTING_CEILING);
  }

  /** Trees with equivalent children mean the same. */
  lemma {:induction false} RootsMean(ns: seq<Node>, ms: seq<Node>, c: Context, stack: seq<Data>, depth: nat)
    requires Equivalent(ns, ms) && stack != [] && depth <= NESTING_CEILING
    ensures Meant(TraceNode(RootNode(ns), c, stack, None, depth, None, false).events)
         == Meant(TraceNode(RootNode(ms), c, stack, None, depth, None, false).events)
  {
    hide Meant, TraceNode, Together;
    if depth < NESTING_CEILING {
      RootTogether(ns, c, stack, depth);
      RootTogether(ms, c, stack, depth);
      assert Together(ns, c, stack, depth + 1) == Together(ms, c, stack, depth + 1);
    } else {
      RootTooDeep(ns, c, stack);
      RootTooDeep(ms, c, stack);
    }
  }
}
