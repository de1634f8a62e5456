/** Rendering what tokenizing or a stored format yields can only be stopped by a limit. */
module RenderSafety {
  import opened Base
  import opened Template
  import opened RenderTrace
  import opened RenderLimits
  import opened ArchiveGraph
  import opened SourceTree
  import opened TokenizerSpec
  import opened TokenizerResults

  predicate NoAborts(events: seq<Event>) {
    forall i :: 0 <= i < |events| ==> !events[i].Abort?
  }

  /** Every partial is a well-shaped tree. */
  ghost predicate Sound(c: Context) {
    forall name :: c.env(name).Null? || WellShaped(c.env(name), false)
  }

  lemma {:induction false} SafeThen(a: Traced, b: Traced)
    requires NoAborts(a.events) && NoAborts(b.events)
    ensures NoAborts(Then(a, b).events)
  {
  }

  lemma {:induction false} SafeDue(frame: Option<Frame>)
    ensures NoAborts(Due(frame)) && NoAborts(BeginTag(frame).events)
  {
  }

  lemma {:induction false} SafeLines(value: Bytes, frame: Option<Frame>)
    requires frame.Some?
    ensures NoAborts(Lines(value, frame).events)
    decreases |value|
  {
    hide Due;
    SafeDue(frame);
    var newline := IndexOf(value, NEWLINE, 0);
    if value != [] && newline.Some? {
      SafeLines(value[newline.value + 1..], AtLine(frame, true));
    }
  }

  /** A well-shaped node is refused only where it is an indentation marker out of place. */
  lemma {:induction false} NoObjection(n: Node, meta: bool)
    requires WellShaped(n, IsMarker(n)) && (Bit(n.flags, FLAG_PARTIAL_INDENT) ==> meta)
    ensures n.Node? && (!n.kind.TypeRoot? ==> n.data.Some?)
    ensures Objection(n, meta).None? && !n.kind.TypeContainer? && !n.kind.TypeOther? && n.kind != TypeNone
    ensures WellShapedAll(n.children) && MarkersPlaced(n.children)
  {
    hide MarkersPlaced, WellShapedAll;
  }

  lemma {:induction false} NodeSafe(n: Node, c: Context, stack: seq<Data>, frame: Option<Frame>, depth: nat,
                                    indentation: Option<Bytes>, meta: bool)
    requires WellShaped(n, IsMarker(n)) && (Bit(n.flags, FLAG_PARTIAL_INDENT) ==> meta) && Sound(c)
    requires stack != [] && depth <= NESTING_CEILING
    ensures NoAborts(TraceNode(n, c, stack, frame, depth, indentation, meta).events)
    decreases NESTING_CEILING - depth, 0, 0
  {
    hide WellShaped, Objection, TraceBody, Bit, Sound;
    NoObjection(n, meta);
    if depth < NESTING_CEILING {
      BodySafe(n, c, stack, frame, depth, indentation, meta);
    }
  }

  lemma {:induction false} BodySafe(n: Node, c: Context, stack: seq<Data>, frame: Option<Frame>, depth: nat,
                                    indentation: Option<Bytes>, meta: bool)
    requires WellShaped(n, IsMarker(n)) && (Bit(n.flags, FLAG_PARTIAL_INDENT) ==> meta) && Sound(c)
    requires stack != [] && depth < NESTING_CEILING && (Objection(n, true).None? || Objection(n, false).None?)
    ensures NoAborts(TraceBody(n, c, stack, frame, depth, indentation).events)
    decreases NESTING_CEILING - depth - 1, 3, 0
  {
    hide WellShaped, WellShapedAll, Objection, Bit, TraceNode, TraceChildren, TraceContexts, Lines, BeginTag, NoAborts, Lookup, IsEmpty;
    hide SectionContexts, HasData, Due, MarkersPlaced, RenderTrace.Spelling;
    NoObjection(n, meta);
    SafeDue(frame);
    var tag := BeginTag(frame);
    SafeNothing(frame);
    match n.kind {
      case TypeRoot =>
        ChildrenSafe(n.children, c, stack, frame, depth + 1);
      case TypeOutput =>
        if frame.Some? {
          SafeLines(n.data.value, frame);
        }
        SafeOut(n.data.value);
      case TypeVariable =>
        TagSafe(n, c, stack, tag);
      case TypeTag =>
        TagSafe(n, c, stack, tag);
      case TypeNegate =>
        ChildrenSafe(n.children, c, stack, tag.frame, depth + 1);
        SafeThen(tag, TraceChildren(n.children, c, stack, tag.frame, depth + 1));
      case TypeSection =>
        var value := Lookup(n, stack, c.strict);
        if value.Some? {
          ContextsSafe(n.children, SectionContexts(value.value), c, stack, tag.frame, depth + 1);
          SafeThen(tag, TraceContexts(n.children, SectionContexts(value.value), c, stack, tag.frame, depth + 1));
        }
      case TypePartial =>
        var partial := c.env(n.data.value);
        if !partial.Null? {
          PartialShaped(c, n.data.value);
          var inner := Some(Frame(PartialComponents(frame, indentation), true));
          NodeSafe(partial, c, stack, inner, depth + 1, None, false);
          SafeThen(tag, TraceNode(partial, c, stack, inner, depth + 1, None, false));
        }
      case _ =>
    }
  }

  lemma {:induction false} PartialShaped(c: Context, name: Bytes)
    requires Sound(c) && c.env(name).Node?
    ensures var t := c.env(name); WellShaped(t, IsMarker(t)) && !Bit(t.flags, FLAG_PARTIAL_INDENT)
  {
    hide Bit, MarkersPlaced, WellShapedAll, ShapeAllowed;
  }

  lemma {:induction false} SafeNothing(frame: Option<Frame>)
    ensures NoAborts([])
  {
  }

  lemma {:induction false} SafeOut(bytes: Bytes)
    ensures NoAborts([Out(bytes)])
  {
  }

  lemma {:induction false} TagSafe(n: Node, c: Context, stack: seq<Data>, tag: Traced)
    requires n.Node? && n.data.Some? && stack != [] && NoAborts(tag.events)
    ensures forall value :: NoAborts(Then(tag, Traced(ValueEvents(n, value), tag.frame)).events)
  {
  }

  lemma {:induction false} ChildrenSafe(ns: seq<Node>, c: Context, stack: seq<Data>, frame: Option<Frame>, depth: nat)
    requires WellShapedAll(ns) && MarkersPlaced(ns) && Sound(c) && stack != [] && depth <= NESTING_CEILING
    ensures NoAborts(TraceChildren(ns, c, stack, frame, depth).events)
    decreases NESTING_CEILING - depth, 1, |ns|
  {
    hide WellShaped, IsMarker, Bit, TraceNode, TraceChildren, NoAborts, Sound, MarkersPlaced;
    if ns == [] {
      NoChildren(c, stack, frame, depth);
      SafeNothing(frame);
    } else {
      FirstPlaced(ns);
      if PartialIndentation(ns[0], if |ns| > 1 then ns[1] else Null) == Ok(None) {
        var a, b := ChildSteps(ns, c, stack, frame, depth);
        NodeSafe(ns[0], c, stack, frame, depth, None, false);
        ChildrenSafe(ns[1..], c, stack, a.frame, depth);
        SafeThen(a, b);
      } else {
        var a, b, d := MarkerSteps(ns, c, stack, frame, depth);
        NodeSafe(ns[0], c, stack, frame, depth, None, true);
        assert ns[1..][0] == ns[1] && WellShapedAll(ns[1..]);
        NodeSafe(ns[1], c, stack, a.frame, depth, PartialIndentation(ns[0], ns[1]).value, false);
        ChildrenSafe(ns[1..][1..], c, stack, b.frame, depth);
        SafeThen(b, d);
        SafeThen(a, Then(b, d));
      }
    }
  }

  /** The first child is no marker, or it is one with its partial behind it. */
  lemma {:induction false} FirstPlaced(ns: seq<Node>)
    requires ns != [] && MarkersPlaced(ns) && WellShapedAll(ns)
    ensures var r := PartialIndentation(ns[0], if |ns| > 1 then ns[1] else Null);
            && ns[0].Node? && r.Ok? && MarkersPlaced(ns[1..]) && (|ns| > 1 ==> MarkersPlaced(ns[1..][1..]))
            && (r.value.None? ==> !Bit(ns[0].flags, FLAG_PARTIAL_INDENT))
            && (r.value.Some? ==> |ns| > 1 && ns[1].Node? && !Bit(ns[1].flags, FLAG_PARTIAL_INDENT))
  {
    hide WellShaped, Bit;
    TailPlaced(ns);
    if |ns| > 1 {
      TailPlaced(ns[1..]);
      assert ns[1..][0] == ns[1];
    }
    assert WellShaped(ns[0], IsMarker(ns[0]));
    ShapedIsNode(ns[0]);
  }

  lemma {:induction false} ShapedIsNode(n: Node)
    requires WellShaped(n, IsMarker(n))
    ensures n.Node?
  {
  }

  lemma {:induction false} TailPlaced(ns: seq<Node>)
    requires ns != [] && MarkersPlaced(ns)
    ensures MarkersPlaced(ns[1..])
  {
    hide IsMarker, Bit;
    forall i | 0 <= i < |ns[1..]| && ns[1..][i].Node? && Bit(ns[1..][i].flags, FLAG_PARTIAL_INDENT)
      ensures IsMarker(ns[1..][i]) && i + 1 < |ns[1..]| && ns[1..][i + 1].Node? && ns[1..][i + 1].kind.TypePartial?
    {
      assert ns[1..][i] == ns[i + 1] && ns[i + 2] == ns[1..][i + 1];
    }
  }

  lemma {:induction false} ContextsSafe(ns: seq<Node>, contexts: seq<Data>, c: Context, stack: seq<Data>, frame: Option<Frame>,
                                        depth: nat)
    requires WellShapedAll(ns) && MarkersPlaced(ns) && Sound(c) && stack != [] && depth <= NESTING_CEILING
    ensures NoAborts(TraceContexts(ns, contexts, c, stack, frame, depth).events)
    decreases NESTING_CEILING - depth, 2, |contexts|
  {
    hide WellShapedAll, MarkersPlaced, TraceChildren, TraceContexts, NoAborts, Sound;
    if contexts == [] {
      NoContexts(ns, c, stack, frame, depth);
      SafeNothing(frame);
    } else {
      assert contexts[0..] == contexts;
      var a, b := ContextSteps(ns, contexts, 0, c, stack, frame, depth);
      ChildrenSafe(ns, c, stack + [contexts[0]], frame, depth);
      ContextsSafe(ns, contexts[1..], c, stack, a.frame, depth);
      SafeThen(a, b);
    }
  }

  /** Where no event fails by itself, a run ends well or at one of the three limits. */
  lemma {:induction false} OnlyLimitsStop(events: seq<Event>, limits: Limits, at: Progress)
    requires NoAborts(events)
    ensures var outcome := Run(events, limits, at).outcome;
            outcome.Fail? ==> outcome.error in {RenderNesting, RenderVisits, RenderOutput}
  {
    hide Run, Refusal;
    var cut := CutAtFirstRefusal(events, limits, at);
    if Run(events, limits, at).outcome.Fail? {
      LimitRefuses(events[cut], limits, Unlimited(events[..cut], at));
    }
  }

  lemma {:induction false} LimitRefuses(e: Event, limits: Limits, at: Progress)
    requires !e.Abort?
    ensures var r := Refusal(e, limits, at); r.Some? ==> r.value in {RenderNesting, RenderVisits, RenderOutput}
  {
  }

  /** A tree with the shape that tokenizing gives and stored formats demand, with partials of that shape, renders to its end or
      to a limit, whatever the data. */
  lemma {:induction false} ShapedTreesRender(n: Node, c: Context, stack: seq<Data>, limits: Limits, at: Progress)
    requires WellShaped(n, false) && Sound(c) && stack != []
    ensures var outcome := Run(TraceNode(n, c, stack, None, 0, None, false).events, limits, at).outcome;
            outcome.Fail? ==> outcome.error in {RenderNesting, RenderVisits, RenderOutput}
  {
    hide Run, TraceNode, NoAborts, Sound;
    RootShaped(n);
    NodeSafe(n, c, stack, None, 0, None, false);
    OnlyLimitsStop(TraceNode(n, c, stack, None, 0, None, false).events, limits, at);
  }

  lemma {:induction false} RootShaped(n: Node)
    requires WellShaped(n, false)
    ensures WellShaped(n, IsMarker(n)) && !Bit(n.flags, FLAG_PARTIAL_INDENT)
  {
    hide Bit, MarkersPlaced, WellShapedAll, ShapeAllowed;
  }

  /** In particular, rendering an accepted template is never stopped by the template itself. */
  lemma {:induction false} TemplatesRender(tmpl: Bytes, delims: Delims, buffer: nat, o: Options, c: Context, stack: seq<Data>,
                                           limits: Limits, at: Progress)
    requires Usable(delims) && Pieces(tmpl, delims, o).Ok? && AllPlaced(Pieces(tmpl, delims, o).value, tmpl)
    requires Sound(c) && stack != []
    ensures var root := TreeOf(Pieces(tmpl, delims, o).value, tmpl, buffer);
            var outcome := Run(TraceNode(root, c, stack, None, 0, None, false).events, limits, at).outcome;
            outcome.Fail? ==> outcome.error in {RenderNesting, RenderVisits, RenderOutput}
  {
    hide Pieces, WellShaped, Run, TraceNode, Sound;
    TokenizedTreeIsFit(tmpl, delims, buffer, o);
    ShapedTreesRender(TreeOf(Pieces(tmpl, delims, o).value, tmpl, buffer), c, stack, limits, at);
  }
}
