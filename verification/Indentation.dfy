/** Standalone partials: rendering under line frames is rendering the indented source without any. */
module Indentation {
  import opened Base
  import opened Template
  import opened RenderTrace
  import opened RenderLimits

  // ---- What a trace means apart from its costs --------------------------------------------------------

  /** The text appended before the first failure that no limit can prevent. */
  datatype Meaning = Meaning(text: Bytes, failure: Option<Error>)

  function Meant(events: seq<Event>): Meaning {
    if events == [] then Meaning([], None)
    else
      match events[0]
      case Enter(depth) => if depth >= NESTING_CEILING then Meaning([], Some(RenderNesting)) else Meant(events[1..])
      case Visit => Meant(events[1..])
      case Out(bytes) => Join(Meaning(bytes, None), Meant(events[1..]))
      case Abort(error) => Meaning([], Some(error))
  }

  function Join(a: Meaning, b: Meaning): Meaning {
    if a.failure.Some? then a else Meaning(a.text + b.text, b.failure)
  }

  lemma {:induction false} MeantConcat(a: seq<Event>, b: seq<Event>)
    ensures Meant(a + b) == Join(Meant(a), Meant(b))
  {
    if a == [] {
      assert a + b == b;
    } else {
      assert (a + b)[0] == a[0] && (a + b)[1..] == a[1..] + b;
      MeantConcat(a[1..], b);
      if a[0].Out? {
        var x, y := Meant(a[1..]), Meant(b);
        assert a[0].bytes + (x.text + y.text) == (a[0].bytes + x.text) + y.text;
      }
    }
  }

  /** With room for everything, a render does what its trace means. */
  lemma {:induction false} MeaningOfSuccess(events: seq<Event>)
    ensures (forall i :: 0 <= i < |events| ==> !events[i].Abort? && (events[i].Enter? ==> events[i].depth < NESTING_CEILING)) ==>
              Meant(events) == Meaning(Output(events), None)
  {
    if events != [] {
      MeaningOfSuccess(events[1..]);
      forall i | 0 <= i < |events[1..]|
        ensures events[1..][i] == events[i + 1]
      {
      }
    }
  }

  /** What one step of the tree walk means: entering and visiting leave no text. */
  lemma {:induction false} NodeMeant(n: Node, c: Context, stack: seq<Data>, frame: Option<Frame>, depth: nat,
                                     indentation: Option<Bytes>, meta: bool)
    requires n.Node? && stack != [] && depth < NESTING_CEILING
    ensures var t, admitted := TraceNode(n, c, stack, frame, depth, indentation, meta),
                               Admitted(n, c, stack, frame, depth, indentation, meta);
            Meant(t.events) == Meant(admitted.events) && t.frame == admitted.frame
  {
    hide Admitted, TraceNode;
    NodeSteps(n, c, stack, frame, depth, indentation, meta);
    var admitted := Admitted(n, c, stack, frame, depth, indentation, meta).events;
    MeantConcat([Enter(depth)], [Visit] + admitted);
    MeantConcat([Visit], admitted);
    var e, v: seq<Event> := [Enter(depth)], [Visit];
    assert e[1..] == [] && v[1..] == [];
  }

  lemma {:induction false} ThenMeant(a: Traced, b: Traced)
    ensures Meant(Then(a, b).events) == Join(Meant(a.events), Meant(b.events))
  {
    MeantConcat(a.events, b.events);
  }

  // ---- Components act by their concatenation alone ----------------------------------------------------

  function Concat(components: seq<Bytes>): Bytes {
    if components == [] then [] else components[0] + Concat(components[1..])
  }

  lemma {:induction false} ConcatSnoc(components: seq<Bytes>, last: Bytes)
    ensures Concat(components + [last]) == Concat(components) + last
  {
    if components == [] {
      assert components + [last] == [last];
      assert [last][1..] == [];
    } else {
      assert (components + [last])[1..] == components[1..] + [last];
      ConcatSnoc(components[1..], last);
    }
  }

  lemma {:induction false} OutsMeant(components: seq<Bytes>)
    ensures Meant(Outs(components)) == Meaning(Concat(components), None)
  {
    if components != [] {
      assert Outs(components)[1..] == Outs(components[1..]);
      OutsMeant(components[1..]);
    }
  }

  function DueText(indentation: Bytes, start: bool): Bytes {
    if start then indentation else []
  }

  lemma {:induction false} DueMeant(f: Frame)
    ensures Meant(Due(Some(f))) == Meaning(DueText(Concat(f.components), f.atLineStart), None)
  {
    OutsMeant(f.components);
  }

  /** Every line of literal text is preceded by the indentation; byte by byte. */
  function IndentText(value: Bytes, indentation: Bytes, start: bool): Bytes {
    if value == [] then []
    else DueText(indentation, start) + [value[0]] + IndentText(value[1..], indentation, value[0] == NEWLINE)
  }

  /** Whether a new line starts after the text. */
  function TextEnd(value: Bytes, start: bool): bool {
    if value == [] then start else value[|value| - 1] == NEWLINE
  }

  /** Up to and including its first newline, text is indented once. */
  lemma {:induction false} IndentLine(value: Bytes, size: nat, indentation: Bytes, start: bool)
    requires 0 < size <= |value| && forall i :: 0 <= i < size - 1 ==> value[i] != NEWLINE
    ensures IndentText(value, indentation, start)
         == DueText(indentation, start) + value[..size] + IndentText(value[size..], indentation, value[size - 1] == NEWLINE)
  {
    if size > 1 {
      IndentLine(value[1..], size - 1, indentation, false);
      assert value[1..][size - 1..] == value[size..];
      assert value[..size] == [value[0]] + value[1..][..size - 1];
      assert value[1..][size - 2] == value[size - 1];
    } else {
      assert value[..1] == [value[0]];
    }
  }

  lemma {:induction false} OutMeant(bytes: Bytes)
    ensures Meant([Out(bytes)]) == Meaning(bytes, None)
  {
    assert [Out(bytes)][1..] == [];
  }

  /** The whole literal under a frame. */
  lemma {:induction false} LinesMeant(value: Bytes, f: Frame)
    ensures var t := Lines(value, Some(f));
            Meant(t.events) == Meaning(IndentText(value, Concat(f.components), f.atLineStart), None)
            && t.frame == Some(Frame(f.components, TextEnd(value, f.atLineStart)))
    decreases |value|
  {
    if value == [] {
      NoLines(Some(f));
    } else {
      FirstLineMeant(value, f);
    }
  }

  lemma {:induction false} FirstLineMeant(value: Bytes, f: Frame)
    requires value != []
    ensures var t := Lines(value, Some(f));
            Meant(t.events) == Meaning(IndentText(value, Concat(f.components), f.atLineStart), None)
            && t.frame == Some(Frame(f.components, TextEnd(value, f.atLineStart)))
    decreases |value|, 0
  {
    hide Meant, Lines, IndentText, Due, Concat, IndexOf;
    var indentation, after := Concat(f.components), AtLine(Some(f), false);
    var line := LinesStep(value, 0, Some(f));
    assert value[0..] == value;
    var newline := IndexOf(value, NEWLINE, 0);
    var size := if newline.None? then |value| else newline.value + 1;
    var rest := if newline.None? then Traced([], after) else Lines(value[size..], Some(Frame(f.components, true)));
    IndentLine(value, size, indentation, f.atLineStart);
    if newline.None? {
      assert value[..|value|] == value && value[|value|..] == [];
      NoText(indentation, value[|value| - 1] == NEWLINE);
      assert [Out(value)] + [] == [Out(value)];
    } else {
      LinesMeant(value[size..], Frame(f.components, true));
      assert value[0..size] == value[..size];
    }
    LineMeant(value, size, f, rest);
  }

  /** The due indentation, one piece of text, and then the rest. */
  lemma {:induction false} LineMeant(value: Bytes, size: nat, f: Frame, rest: Traced)
    requires size <= |value| && Meant(rest.events).failure.None?
    ensures var one := Traced([Out(value[..size])], AtLine(Some(f), false));
            Meant(Then(BeginTag(Some(f)), Then(one, rest)).events)
            == Meaning(DueText(Concat(f.components), f.atLineStart) + value[..size] + Meant(rest.events).text, None)
  {
    hide Meant, Due, Concat;
    var one := Traced([Out(value[..size])], AtLine(Some(f), false));
    DueMeant(f);
    OutMeant(value[..size]);
    ThenMeant(one, rest);
    ThenMeant(BeginTag(Some(f)), Then(one, rest));
    var due := DueText(Concat(f.components), f.atLineStart);
    assert due + (value[..size] + Meant(rest.events).text) == due + value[..size] + Meant(rest.events).text;
  }

  lemma {:induction false} NoText(indentation: Bytes, start: bool)
    ensures IndentText([], indentation, start) == [] && Meant([]) == Meaning([], None)
  {
  }

  /** Frames that indent alike. */
  predicate SameLine(f: Frame, g: Frame) {
    f.atLineStart == g.atLineStart && Concat(f.components) == Concat(g.components)
  }

  predicate Alike(t: Traced, u: Traced) {
    Meant(t.events) == Meant(u.events) && t.frame.Some? && u.frame.Some? && SameLine(t.frame.value, u.frame.value)
  }

  lemma {:induction false} ThenAlike(a: Traced, b: Traced, a': Traced, b': Traced)
    requires Alike(a, a') && Alike(b, b')
    ensures Alike(Then(a, b), Then(a', b'))
  {
    ThenMeant(a, b);
    ThenMeant(a', b');
  }

  lemma {:induction false} TagAlike(f: Frame, g: Frame)
    requires SameLine(f, g)
    ensures Alike(BeginTag(Some(f)), BeginTag(Some(g)))
  {
    DueMeant(f);
    DueMeant(g);
  }

  lemma {:induction false} EventsAlike(events: seq<Event>, f: Frame, g: Frame)
    requires SameLine(f, g)
    ensures Alike(Traced(events, Some(f)), Traced(events, Some(g)))
  {
  }

  lemma {:induction false} NodeAlike(n: Node, c: Context, stack: seq<Data>, f: Frame, g: Frame, depth: nat,
                                     indentation: Option<Bytes>, meta: bool)
    requires stack != [] && depth <= NESTING_CEILING && SameLine(f, g)
    ensures Alike(TraceNode(n, c, stack, Some(f), depth, indentation, meta),
                  TraceNode(n, c, stack, Some(g), depth, indentation, meta))
    decreases NESTING_CEILING - depth, 0, 0
  {
    hide Alike, SameLine, TraceBody, Meant, Objection;
    if n.Null? || depth >= NESTING_CEILING {
      EventsAlike(if n.Null? then [Abort(EmptyTreeNode)] else [Enter(depth)], f, g);
    } else {
      var events := [Enter(depth), Visit];
      EventsAlike(events, f, g);
      var objection := Objection(n, meta);
      if objection.Some? {
        EventsAlike([Enter(depth), Visit, Abort(objection.value)], f, g);
      } else {
        BodyAlike(n, c, stack, f, g, depth, indentation);
        ThenAlike(Traced(events, Some(f)), TraceBody(n, c, stack, Some(f), depth, indentation),
                  Traced(events, Some(g)), TraceBody(n, c, stack, Some(g), depth, indentation));
      }
    }
  }

  lemma {:induction false} BodyAlike(n: Node, c: Context, stack: seq<Data>, f: Frame, g: Frame, depth: nat,
                                     indentation: Option<Bytes>)
    requires n.Node? && stack != [] && depth < NESTING_CEILING && SameLine(f, g)
    requires Objection(n, true).None? || Objection(n, false).None?
    ensures Alike(TraceBody(n, c, stack, Some(f), depth, indentation), TraceBody(n, c, stack, Some(g), depth, indentation))
    decreases NESTING_CEILING - depth - 1, 3, 0
  {
    hide Alike, SameLine, TraceNode, TraceChildren, TraceContexts, Meant, BeginTag, Lookup, Lines, ValueEvents, SectionContexts;
    hide Concat, HasData, PartialComponents;
    TagAlike(f, g);
    var tf, tg := BeginTag(Some(f)), BeginTag(Some(g));
    var f', g' := FramesOf(tf, tg);
    var value := if HasData(n.kind) then Lookup(n, stack, c.strict) else None;
    match n.kind {
      case TypeNone => EventsAlike([], f, g);
      case TypeOther(_) => EventsAlike([Abort(UnknownNodeType)], f, g);
      case TypeRoot => ChildrenAlike(n.children, c, stack, f, g, depth + 1);
      case TypeOutput =>
        if Bit(n.flags, FLAG_LAMBDA_ONLY) {
          ConsumedAlike(n.data.value, f, g);
        } else {
          LinesAlike(n.data.value, f, g);
        }
      case TypeContainer =>
        EventsAlike([Abort(EmptyContainer)], f, g);
        NodeAlike(n.child, c, stack, f, g, depth + 1, None, false);
      case TypeNegate =>
        ChildrenAlike(n.children, c, stack, f', g', depth + 1);
        ThenAlike(tf, TraceChildren(n.children, c, stack, tf.frame, depth + 1),
                  tg, TraceChildren(n.children, c, stack, tg.frame, depth + 1));
      case TypeSection =>
        if value.Some? {
          var contexts := SectionContexts(value.value);
          ContextsAlike(n.children, contexts, c, stack, f', g', depth + 1);
          ThenAlike(tf, TraceContexts(n.children, contexts, c, stack, tf.frame, depth + 1),
                    tg, TraceContexts(n.children, contexts, c, stack, tg.frame, depth + 1));
        }
      case TypePartial =>
        var partial := c.env(n.data.value);
        if partial.Node? {
          ComponentsAlike(f, g, indentation);
          var inner, inner' := Frame(PartialComponents(Some(f), indentation), true), Frame(PartialComponents(Some(g), indentation), true);
          NodeAlike(partial, c, stack, inner, inner', depth + 1, None, false);
          NestedAlike(tf, tg, TraceNode(partial, c, stack, Some(inner), depth + 1, None, false),
                      TraceNode(partial, c, stack, Some(inner'), depth + 1, None, false));
        }
      case _ =>
        if value.Some? {
          EventsAlike(ValueEvents(n, value.value), f', g');
          ThenAlike(tf, Traced(ValueEvents(n, value.value), tf.frame), tg, Traced(ValueEvents(n, value.value), tg.frame));
        }
    }
  }

  lemma {:induction false} FramesOf(t: Traced, u: Traced) returns (f: Frame, g: Frame)
    requires Alike(t, u)
    ensures t.frame == Some(f) && u.frame == Some(g) && SameLine(f, g)
  {
    f, g := t.frame.value, u.frame.value;
  }

  lemma {:induction false} ConsumedAlike(value: Bytes, f: Frame, g: Frame)
    requires SameLine(f, g)
    ensures Alike(Traced([], ConsumeSource(value, Some(f))), Traced([], ConsumeSource(value, Some(g))))
  {
  }

  lemma {:induction false} LinesAlike(value: Bytes, f: Frame, g: Frame)
    requires SameLine(f, g)
    ensures Alike(Lines(value, Some(f)), Lines(value, Some(g)))
  {
    LinesMeant(value, f);
    LinesMeant(value, g);
  }

  /** Nested standalone partials concatenate their indentations. */
  lemma {:induction false} ComponentsAlike(f: Frame, g: Frame, indentation: Option<Bytes>)
    requires SameLine(f, g)
    ensures SameLine(Frame(PartialComponents(Some(f), indentation), true), Frame(PartialComponents(Some(g), indentation), true))
  {
    if indentation.Some? {
      ConcatSnoc(f.components, indentation.value);
      ConcatSnoc(g.components, indentation.value);
      assert f.components + [] == f.components && g.components + [] == g.components;
    }
  }

  lemma {:induction false} NestedAlike(tf: Traced, tg: Traced, t: Traced, u: Traced)
    requires Alike(tf, tg) && Alike(t, u)
    ensures Alike(Traced(tf.events + t.events, tf.frame), Traced(tg.events + u.events, tg.frame))
  {
    ThenMeant(tf, t);
    ThenMeant(tg, u);
  }

  lemma {:induction false} ChildrenAlike(ns: seq<Node>, c: Context, stack: seq<Data>, f: Frame, g: Frame, depth: nat)
    requires stack != [] && depth <= NESTING_CEILING && SameLine(f, g)
    ensures Alike(TraceChildren(ns, c, stack, Some(f), depth), TraceChildren(ns, c, stack, Some(g), depth))
    decreases NESTING_CEILING - depth, 1, |ns|
  {
    hide Alike, SameLine, TraceNode, TraceChildren, PartialIndentation;
    if ns == [] {
      NoChildren(c, stack, Some(f), depth);
      NoChildren(c, stack, Some(g), depth);
      EventsAlike([], f, g);
      return;
    }
    var marker := PartialIndentation(ns[0], if |ns| > 1 then ns[1] else Null);
    if marker.Err? {
      RefusedMarker(ns, c, stack, Some(f), depth);
      RefusedMarker(ns, c, stack, Some(g), depth);
      EventsAlike([Abort(marker.error)], f, g);
    } else if marker.value.Some? {
      MarkerHasPartial(ns);
      var a, b, r := MarkerSteps(ns, c, stack, Some(f), depth);
      var a', b', r' := MarkerSteps(ns, c, stack, Some(g), depth);
      NodeAlike(ns[0], c, stack, f, g, depth, None, true);
      var f', g' := FramesOf(a, a');
      NodeAlike(ns[1], c, stack, f', g', depth, marker.value, false);
      f', g' := FramesOf(b, b');
      ChildrenAlike(ns[1..][1..], c, stack, f', g', depth);
      ThenAlike(b, r, b', r');
      ThenAlike(a, Then(b, r), a', Then(b', r'));
    } else {
      var a, r := ChildSteps(ns, c, stack, Some(f), depth);
      var a', r' := ChildSteps(ns, c, stack, Some(g), depth);
      NodeAlike(ns[0], c, stack, f, g, depth, None, false);
      var f', g' := FramesOf(a, a');
      ChildrenAlike(ns[1..], c, stack, f', g', depth);
      ThenAlike(a, r, a', r');
    }
  }

  lemma {:induction false} RefusedMarker(ns: seq<Node>, c: Context, stack: seq<Data>, frame: Option<Frame>, depth: nat)
    requires stack != [] && depth <= NESTING_CEILING && ns != []
    requires PartialIndentation(ns[0], if |ns| > 1 then ns[1] else Null).Err?
    ensures TraceChildren(ns, c, stack, frame, depth)
         == AbortTrace(PartialIndentation(ns[0], if |ns| > 1 then ns[1] else Null).error, frame)
  {
    hide TraceNode, PartialIndentation;
  }

  lemma {:induction false} ContextsAlike(ns: seq<Node>, contexts: seq<Data>, c: Context, stack: seq<Data>, f: Frame, g: Frame,
                                         depth: nat)
    requires stack != [] && depth <= NESTING_CEILING && SameLine(f, g)
    ensures Alike(TraceContexts(ns, contexts, c, stack, Some(f), depth), TraceContexts(ns, contexts, c, stack, Some(g), depth))
    decreases NESTING_CEILING - depth, 2, |contexts|
  {
    hide Alike, SameLine, TraceChildren, TraceContexts;
    if contexts == [] {
      NoContexts(ns, c, stack, Some(f), depth);
      NoContexts(ns, c, stack, Some(g), depth);
      EventsAlike([], f, g);
    } else {
      assert contexts[0..] == contexts;
      var a, r := ContextSteps(ns, contexts, 0, c, stack, Some(f), depth);
      var a', r' := ContextSteps(ns, contexts, 0, c, stack, Some(g), depth);
      ChildrenAlike(ns, c, stack + [contexts[0]], f, g, depth);
      var f', g' := FramesOf(a, a');
      ContextsAlike(ns, contexts[1..], c, stack, f', g', depth);
      ThenAlike(a, r, a', r');
    }
  }

  // ---- The indented source ----------------------------------------------------------------------------

  /** The nodes that stand for a tag of the source. */
  predicate BeginsTag(t: Type) {
    t.TypeComment? || t.TypeStop? || t.TypeInlinePartial? || t.TypeTag? || t.TypeVariable? || t.TypeNegate?
    || t.TypeSection? || t.TypePartial?
  }

  function Literal(text: Bytes): Node {
    Node(TypeOutput, FLAG_NONE, Some(text), [], Null, None, None, None)
  }

  predicate Sound(n: Node, meta: bool) {
    n.Node? && Objection(n, meta).None?
  }

  /** Whether a source line starts after the node. It depends on the source alone: a section that repeats or is skipped
      ends where its closing tag ends. */
  function After(n: Node, meta: bool, start: bool): bool {
    if !Sound(n, meta) || BeginsTag(n.kind) then false
    else if n.kind.TypeRoot? then AfterAll(n.children, start)
    else if n.kind.TypeOutput? then
      if Bit(n.flags, FLAG_LAMBDA_ONLY) then TextEnd(n.data.value, false) else TextEnd(n.data.value, start)
    else start
  }

  function AfterAll(ns: seq<Node>, start: bool): bool {
    if ns == [] then start
    else
      var marker := PartialIndentation(ns[0], if |ns| > 1 then ns[1] else Null);
      if marker.Ok? && marker.value.Some? && |ns| > 1 then AfterAll(ns[2..], false)
      else AfterAll(ns[1..], After(ns[0], false, start))
  }

  /** The indentation goes in front of a tag that starts a line. */
  function Before(n: Node, indentation: Bytes, start: bool): seq<Node> {
    if start && Sound(n, false) && BeginsTag(n.kind) then [Literal(indentation)] else []
  }

  /** The source with the indentation inserted once before each of its lines. */
  function Indent(n: Node, indentation: Bytes, start: bool): Node {
    if !Sound(n, false) then n
    else if n.kind.TypeRoot? then n.(children := IndentAll(n.children, indentation, start))
    else if n.kind.TypeNegate? || n.kind.TypeSection? then n.(children := IndentAll(n.children, indentation, false))
    else if n.kind.TypeOutput? && !Bit(n.flags, FLAG_LAMBDA_ONLY) then
      n.(data := Some(IndentText(n.data.value, indentation, start)))
    else n
  }

  /** A standalone partial inside is indented by both indentations. */
  function IndentAll(ns: seq<Node>, indentation: Bytes, start: bool): seq<Node> {
    if ns == [] then []
    else
      var marker := PartialIndentation(ns[0], if |ns| > 1 then ns[1] else Null);
      if marker.Err? then ns
      else if marker.value.Some? && |ns| > 1 then
        [ns[0].(data := Some(indentation + marker.value.value)), ns[1]] + IndentAll(ns[2..], indentation, false)
      else
        Before(ns[0], indentation, start) + [Indent(ns[0], indentation, start)]
        + IndentAll(ns[1..], indentation, After(ns[0], false, start))
  }

  /** What tokenizing guarantees: no containers, and every section has exactly one closing tag, which is its last child and has
      its name. */
  predicate Closed(n: Node) {
    match n
    case Null => true
    case Node(kind, _, _, children, _, _, _, _) =>
      !kind.TypeContainer? && (kind.TypeSection? || kind.TypeNegate? ==> OwnStop(children, n.data)) && ClosedAll(children)
  }

  predicate ClosedAll(ns: seq<Node>) {
    ns == [] || (Closed(ns[0]) && ClosedAll(ns[1..]))
  }

  predicate IsStop(n: Node) {
    n.Node? && n.kind.TypeStop?
  }

  predicate OwnStop(ns: seq<Node>, name: Option<Bytes>) {
    EndsInStop(ns) && ns[|ns| - 1].data == name && forall i :: 0 <= i < |ns| - 1 ==> !IsStop(ns[i])
  }

  predicate EndsInStop(ns: seq<Node>) {
    ns != [] && IsStop(ns[|ns| - 1])
  }

  lemma {:induction false} AfterStop(ns: seq<Node>, start: bool)
    requires EndsInStop(ns)
    ensures !AfterAll(ns, start)
    decreases |ns|
  {
    var marker := PartialIndentation(ns[0], if |ns| > 1 then ns[1] else Null);
    if marker.Ok? && marker.value.Some? && |ns| > 1 {
      AfterStop(ns[2..], false);
    } else if |ns| > 1 {
      AfterStop(ns[1..], After(ns[0], false, start));
    } else {
      assert ns[1..] == [];
    }
  }

  /** t under the components in line state means what u means without a frame; unless both fail, t leaves the line state
      `end`. */
  predicate Renders(t: Traced, u: Traced, components: seq<Bytes>, end: bool) {
    Meant(t.events) == Meant(u.events) && u.frame.None?
    && (Meant(t.events).failure.None? ==> t.frame == Some(Frame(components, end)))
  }

  lemma {:induction false} ThenRenders(a: Traced, b: Traced, a': Traced, b': Traced, components: seq<Bytes>, middle: bool,
                                       end: bool)
    requires Renders(a, a', components, middle)
    requires b'.frame.None? && (a.frame == Some(Frame(components, middle)) ==> Renders(b, b', components, end))
    ensures Renders(Then(a, b), Then(a', b'), components, end)
  {
    ThenMeant(a, b);
    ThenMeant(a', b');
  }

  // ---- Without a frame there is never one ---------------------------------------------------------------

  lemma {:induction false} NodeFrameless(n: Node, c: Context, stack: seq<Data>, depth: nat, indentation: Option<Bytes>,
                                         meta: bool)
    requires stack != [] && depth <= NESTING_CEILING
    ensures TraceNode(n, c, stack, None, depth, indentation, meta).frame.None?
    decreases NESTING_CEILING - depth, 0, 0
  {
    hide BeginTag, Lookup, ValueEvents, SectionContexts, TraceChildren, TraceContexts, PartialComponents, Due;
    if n.Node? && depth < NESTING_CEILING && Objection(n, meta).None? {
      NoTag();
      ChildrenFrameless(n.children, c, stack, depth + 1);
      var value := if HasData(n.kind) then Lookup(n, stack, c.strict) else None;
      if value.Some? {
        ContextsFrameless(n.children, SectionContexts(value.value), c, stack, depth + 1);
      }
      if n.kind.TypeContainer? {
        NodeFrameless(n.child, c, stack, depth + 1, None, false);
      }
    }
  }

  lemma {:induction false} NoTag()
    ensures BeginTag(None) == Traced([], None)
  {
  }

  lemma {:induction false} ChildrenFrameless(ns: seq<Node>, c: Context, stack: seq<Data>, depth: nat)
    requires stack != [] && depth <= NESTING_CEILING
    ensures TraceChildren(ns, c, stack, None, depth).frame.None?
    decreases NESTING_CEILING - depth, 1, |ns|
  {
    hide TraceNode, TraceChildren, PartialIndentation;
    if ns == [] {
      NoChildren(c, stack, None, depth);
      return;
    }
    var marker := PartialIndentation(ns[0], if |ns| > 1 then ns[1] else Null);
    if marker.Err? {
      RefusedMarker(ns, c, stack, None, depth);
    } else if marker.value.Some? {
      MarkerHasPartial(ns);
      var a, b, r := MarkerSteps(ns, c, stack, None, depth);
      NodeFrameless(ns[0], c, stack, depth, None, true);
      NodeFrameless(ns[1], c, stack, depth, marker.value, false);
      ChildrenFrameless(ns[1..][1..], c, stack, depth);
    } else {
      var a, r := ChildSteps(ns, c, stack, None, depth);
      NodeFrameless(ns[0], c, stack, depth, None, false);
      ChildrenFrameless(ns[1..], c, stack, depth);
    }
  }

  lemma {:induction false} ContextsFrameless(ns: seq<Node>, contexts: seq<Data>, c: Context, stack: seq<Data>, depth: nat)
    requires stack != [] && depth <= NESTING_CEILING
    ensures TraceContexts(ns, contexts, c, stack, None, depth).frame.None?
    decreases NESTING_CEILING - depth, 2, |contexts|
  {
    hide TraceChildren, TraceContexts;
    if contexts == [] {
      NoContexts(ns, c, stack, None, depth);
    } else {
      assert contexts[0..] == contexts;
      var a, r := ContextSteps(ns, contexts, 0, c, stack, None, depth);
      ChildrenFrameless(ns, c, stack + [contexts[0]], depth);
      ContextsFrameless(ns, contexts[1..], c, stack, depth);
    }
  }

  // ---- Rendering the indented source --------------------------------------------------------------------

  lemma {:induction false} IndentSound(n: Node, indentation: Bytes, start: bool)
    requires Sound(n, false)
    ensures var m := Indent(n, indentation, start);
            Sound(m, false) && m.kind == n.kind && m.flags == n.flags && m.child == n.child
            && (!n.kind.TypeOutput? ==> m.data == n.data)
  {
    hide IndentAll, IndentText, HasNoString, HasData;
  }

  lemma {:induction false} SoundData(n: Node)
    requires Sound(n, false)
    ensures HasData(n.kind) || n.kind.TypeOutput? || n.kind.TypePartial? ==> n.data.Some?
    ensures HasData(n.kind) ==> !n.kind.TypeOutput?
  {
  }

  /** A lookup is a matter of type and name. */
  lemma {:induction false} LookupSame(n: Node, m: Node, stack: seq<Data>, strict: bool)
    requires n.Node? && m.Node? && n.kind == m.kind && n.data == m.data && n.data.Some? && stack != []
    ensures Lookup(n, stack, strict) == Lookup(m, stack, strict)
  {
    hide Split, IndexOf, HasDot, FindInStack, FindPath;
  }

  /** The inserted literal, then u. */
  function Preceded(indentation: Bytes, due: bool, u: Traced): Traced {
    Traced((if due then [Out(indentation)] else []) + u.events, u.frame)
  }

  lemma {:induction false} PrecededMeant(indentation: Bytes, due: bool, u: Traced)
    ensures Meant(Preceded(indentation, due, u).events) == Join(Meaning(DueText(indentation, due), None), Meant(u.events))
  {
    OutMeant(indentation);
    assert Meant([]) == Meaning([], None);
    MeantConcat(if due then [Out(indentation)] else [], u.events);
  }

  /** The tag of the source under a frame is the inserted literal without one. */
  lemma {:induction false} TagRenders(components: seq<Bytes>, start: bool)
    ensures Renders(BeginTag(Some(Frame(components, start))), Preceded(Concat(components), start, BeginTag(None)), components, false)
  {
    DueMeant(Frame(components, start));
    PrecededMeant(Concat(components), start, BeginTag(None));
    NoTag();
  }

  /** A tag and what follows it in the middle of its line. */
  lemma {:induction false} AfterTagRenders(components: seq<Bytes>, start: bool, b: Traced, b': Traced)
    requires Renders(b, b', components, false)
    ensures Renders(Then(BeginTag(Some(Frame(components, start))), b),
                    Preceded(Concat(components), start, Then(BeginTag(None), b')), components, false)
  {
    var tag, tag' := BeginTag(Some(Frame(components, start))), Preceded(Concat(components), start, BeginTag(None));
    TagRenders(components, start);
    ThenRenders(tag, b, tag', b', components, false, false);
    assert Then(tag', b') == Preceded(Concat(components), start, Then(BeginTag(None), b')) by {
      var due := if start then [Out(Concat(components))] else [];
      assert (due + BeginTag(None).events) + b'.events == due + (BeginTag(None).events + b'.events);
    }
  }

  lemma {:induction false} SameRenders(events: seq<Event>, components: seq<Bytes>, end: bool)
    ensures Renders(Traced(events, Some(Frame(components, end))), Traced(events, None), components, end)
  {
  }

  lemma {:induction false} NothingPrecedes(indentation: Bytes, u: Traced)
    ensures Preceded(indentation, false, u) == u
  {
  }

  lemma {:induction false} TextRenders(value: Bytes, components: seq<Bytes>, start: bool)
    ensures Renders(Lines(value, Some(Frame(components, start))),
                    Traced([Out(IndentText(value, Concat(components), start))], None), components, TextEnd(value, start))
  {
    LinesMeant(value, Frame(components, start));
    OutMeant(IndentText(value, Concat(components), start));
  }

  lemma {:induction false} BodyRenders(n: Node, c: Context, stack: seq<Data>, components: seq<Bytes>, start: bool, depth: nat)
    requires Closed(n) && Sound(n, false) && stack != [] && depth < NESTING_CEILING && IsIndentation(Concat(components))
    ensures var m := Indent(n, Concat(components), start);
            Sound(m, false) &&
            Renders(TraceBody(n, c, stack, Some(Frame(components, start)), depth, None),
                    Preceded(Concat(components), start && BeginsTag(n.kind), TraceBody(m, c, stack, None, depth, None)),
                    components, After(n, false, start))
    decreases NESTING_CEILING - depth - 1, 3, 0
  {
    hide Meant, Renders, Preceded, TraceNode, TraceChildren, TraceContexts, BeginTag, Lookup, Lines, ValueEvents, Concat;
    hide SectionContexts, IndentAll, IndentText, AfterAll, ClosedAll, HasData, HasNoString, IsIndentation, TextEnd, EndsInStop;
    var indentation, f := Concat(components), Frame(components, start);
    var m := Indent(n, indentation, start);
    IndentSound(n, indentation, start);
    SoundData(n);
    var b := TraceBody(m, c, stack, None, depth, None);
    NothingPrecedes(indentation, b);
    TagRenders(components, start);
    NoTag();
    var value := if HasData(n.kind) then Lookup(n, stack, c.strict) else None;
    if HasData(n.kind) {
      LookupSame(n, m, stack, c.strict);
    }
    match n.kind {
      case TypeNone => SameRenders([], components, start);
      case TypeOther(_) => SameRenders([Abort(UnknownNodeType)], components, start);
      case TypeRoot => ChildrenRender(n.children, c, stack, components, start, depth + 1);
      case TypeOutput =>
        if Bit(n.flags, FLAG_LAMBDA_ONLY) {
          ConsumedRenders(n.data.value, components, start);
        } else {
          TextRenders(n.data.value, components, start);
        }
      case TypeNegate =>
        AfterStop(n.children, false);
        ChildrenRender(n.children, c, stack, components, false, depth + 1);
        AfterTagRenders(components, start, TraceChildren(n.children, c, stack, Some(Frame(components, false)), depth + 1),
                        TraceChildren(m.children, c, stack, None, depth + 1));
        TagFrame(f);
      case TypeSection =>
        if value.Some? {
          var contexts := SectionContexts(value.value);
          ContextsRender(n.children, contexts, c, stack, components, depth + 1);
          AfterTagRenders(components, start, TraceContexts(n.children, contexts, c, stack, Some(Frame(components, false)), depth + 1),
                          TraceContexts(m.children, contexts, c, stack, None, depth + 1));
          TagFrame(f);
        }
      case TypePartial =>
        var partial := c.env(n.data.value);
        if partial.Node? {
          var inner := TraceNode(partial, c, stack, Some(Frame([], true)), depth + 1, None, false).events;
          SameRenders(inner, components, false);
          AfterTagRenders(components, start, Traced(inner, Some(Frame(components, false))), Traced(inner, None));
          TagFrame(f);
        }
      case TypeTag => ValueRenders(n, value, components, start);
      case TypeVariable => ValueRenders(n, value, components, start);
      case TypeComment =>
      case TypeStop =>
      case TypeInlinePartial =>
      case TypeContainer => assert false;
    }
  }

  /** Dynamic values never disturb the line state. */
  lemma {:induction false} ValueRenders(n: Node, value: Option<Data>, components: seq<Bytes>, start: bool)
    requires n.Node?
    ensures value.Some? ==>
              Renders(Then(BeginTag(Some(Frame(components, start))), Traced(ValueEvents(n, value.value), Some(Frame(components, false)))),
                      Preceded(Concat(components), start, Then(BeginTag(None), Traced(ValueEvents(n, value.value), None))),
                      components, false)
    ensures BeginTag(Some(Frame(components, start))).frame == Some(Frame(components, false))
  {
    hide Renders, Preceded, Concat, ValueEvents;
    TagFrame(Frame(components, start));
    if value.Some? {
      SameRenders(ValueEvents(n, value.value), components, false);
      AfterTagRenders(components, start, Traced(ValueEvents(n, value.value), Some(Frame(components, false))),
                      Traced(ValueEvents(n, value.value), None));
    }
  }

  lemma {:induction false} TagFrame(f: Frame)
    ensures BeginTag(Some(f)).frame == Some(Frame(f.components, false))
  {
  }

  lemma {:induction false} ConsumedRenders(value: Bytes, components: seq<Bytes>, start: bool)
    ensures Renders(Traced([], ConsumeSource(value, Some(Frame(components, start)))), Traced([], ConsumeSource(value, None)),
                    components, TextEnd(value, false))
  {
  }

  lemma {:induction false} NodeRenders(n: Node, c: Context, stack: seq<Data>, components: seq<Bytes>, start: bool, depth: nat)
    returns (literal: Traced)
    requires Closed(n) && stack != [] && depth <= NESTING_CEILING && IsIndentation(Concat(components))
    ensures literal == if Before(n, Concat(components), start) == [] then Traced([], None)
                       else TraceNode(Literal(Concat(components)), c, stack, None, depth, None, false)
    ensures Renders(TraceNode(n, c, stack, Some(Frame(components, start)), depth, None, false),
                    Then(literal, TraceNode(Indent(n, Concat(components), start), c, stack, None, depth, None, false)),
                    components, After(n, false, start))
    decreases NESTING_CEILING - depth, 0, 0
  {
    var indentation, frame := Concat(components), Some(Frame(components, start));
    literal := if Before(n, indentation, start) == [] then Traced([], None)
               else TraceNode(Literal(indentation), c, stack, None, depth, None, false);
    var m := Indent(n, indentation, start);
    var b := TraceNode(m, c, stack, None, depth, None, false);
    if n.Null? || depth >= NESTING_CEILING || !Sound(n, false) {
      NodeFails(n, c, stack, components, start, depth);
    } else {
      BodyRenders(n, c, stack, components, start, depth);
      NodeMeant(n, c, stack, frame, depth, None, false);
      NodeMeant(m, c, stack, None, depth, None, false);
      NodeFrameless(m, c, stack, depth, None, false);
      LiteralMeant(indentation, c, stack, depth);
      ThenMeant(literal, b);
      PrecededMeant(indentation, start && BeginsTag(n.kind), TraceBody(m, c, stack, None, depth, None));
    }
  }

  /** A node that is refused is refused before any text, indented or not. */
  lemma {:induction false} NodeFails(n: Node, c: Context, stack: seq<Data>, components: seq<Bytes>, start: bool, depth: nat)
    requires stack != [] && depth <= NESTING_CEILING && (depth >= NESTING_CEILING || !Sound(n, false))
    ensures var indentation := Concat(components);
            var literal := if Before(n, indentation, start) == [] then Traced([], None)
                           else TraceNode(Literal(indentation), c, stack, None, depth, None, false);
            Renders(TraceNode(n, c, stack, Some(Frame(components, start)), depth, None, false),
                    Then(literal, TraceNode(Indent(n, indentation, start), c, stack, None, depth, None, false)),
                    components, After(n, false, start))
  {
    hide TraceNode, IndentAll, IndentText, Objection;
    var indentation, frame := Concat(components), Some(Frame(components, start));
    if n.Null? {
      NullMeant(c, stack, frame, depth);
      NullMeant(c, stack, None, depth);
    } else if depth >= NESTING_CEILING {
      EntersTooDeep(n, c, stack, frame, depth, None, false);
      EntersTooDeep(Indent(n, indentation, start), c, stack, None, depth, None, false);
      EntersTooDeep(Literal(indentation), c, stack, None, depth, None, false);
    } else {
      NodeMeant(n, c, stack, frame, depth, None, false);
      NodeMeant(n, c, stack, None, depth, None, false);
      NodeFrameless(n, c, stack, depth, None, false);
      var events := TraceNode(n, c, stack, None, depth, None, false).events;
      assert [] + events == events;
    }
  }

  lemma {:induction false} NullMeant(c: Context, stack: seq<Data>, frame: Option<Frame>, depth: nat)
    requires stack != [] && depth <= NESTING_CEILING
    ensures TraceNode(Null, c, stack, frame, depth, None, false) == AbortTrace(EmptyTreeNode, frame)
  {
  }

  lemma {:induction false} LiteralMeant(text: Bytes, c: Context, stack: seq<Data>, depth: nat)
    requires stack != [] && depth < NESTING_CEILING
    ensures var t := TraceNode(Literal(text), c, stack, None, depth, None, false);
            Meant(t.events) == Meaning(text, None) && t.frame.None?
  {
    hide TraceNode;
    NodeMeant(Literal(text), c, stack, None, depth, None, false);
    OutMeant(text);
  }

  lemma {:induction false} ChildrenRender(ns: seq<Node>, c: Context, stack: seq<Data>, components: seq<Bytes>, start: bool,
                                          depth: nat)
    requires ClosedAll(ns) && stack != [] && depth <= NESTING_CEILING && IsIndentation(Concat(components))
    ensures Renders(TraceChildren(ns, c, stack, Some(Frame(components, start)), depth),
                    TraceChildren(IndentAll(ns, Concat(components), start), c, stack, None, depth),
                    components, AfterAll(ns, start))
    decreases NESTING_CEILING - depth, 1, |ns|
  {
    hide Renders, Meant, TraceNode, TraceChildren, PartialIndentation, Concat, Closed, Indent, After, Before, IsIndentation;
    var indentation, frame := Concat(components), Some(Frame(components, start));
    if ns == [] {
      NoChildren(c, stack, frame, depth);
      NoChildren(c, stack, None, depth);
      SameRenders([], components, start);
      return;
    }
    var marker := PartialIndentation(ns[0], if |ns| > 1 then ns[1] else Null);
    if marker.Err? {
      RefusedMarker(ns, c, stack, frame, depth);
      RefusedMarker(ns, c, stack, None, depth);
      AbortRenders(marker.error, frame, components, AfterAll(ns, start));
    } else if marker.value.Some? {
      MarkerHasPartial(ns);
      var ms := IndentAll(ns, indentation, start);
      var rest := IndentAll(ns[2..], indentation, false);
      assert ns[1..][1..] == ns[2..] && ms[1..][1..] == rest;
      MarkedPair(ns[0], ns[1], indentation);
      var a, b, r := MarkerSteps(ns, c, stack, frame, depth);
      var a', b', r' := MarkerSteps(ms, c, stack, None, depth);
      MarkerRenders(ns[0], ns[1], c, stack, components, start, depth);
      NodeFrameless(ms[0], c, stack, depth, None, true);
      NodeFrameless(ms[1], c, stack, depth, Some(indentation + marker.value.value), false);
      ChildrenFrameless(rest, c, stack, depth);
      if a.frame == Some(Frame(components, false)) {
        PartialRenders(ns[1], c, stack, components, marker.value.value, depth);
        if b.frame == Some(Frame(components, false)) {
          ClosedFrom(ns, 2);
          ChildrenRender(ns[2..], c, stack, components, false, depth);
        }
        ThenRenders(b, r, b', r', components, false, AfterAll(ns, start));
      }
      ThenRenders(a, Then(b, r), a', Then(b', r'), components, false, AfterAll(ns, start));
    } else {
      OrdinaryChild(ns, c, stack, components, start, depth);
    }
  }

  lemma {:induction false} ClosedFrom(ns: seq<Node>, k: nat)
    requires ClosedAll(ns) && k <= |ns|
    ensures ClosedAll(ns[k..])
  {
    if k > 0 {
      ClosedFrom(ns[1..], k - 1);
      assert ns[1..][k - 1..] == ns[k..];
    } else {
      assert ns[0..] == ns;
    }
  }

  lemma {:induction false} AbortRenders(e: Error, frame: Option<Frame>, components: seq<Bytes>, end: bool)
    ensures Renders(AbortTrace(e, frame), AbortTrace(e, None), components, end)
  {
  }

  /** The indented marker is a marker before the same partial. */
  lemma {:induction false} MarkedPair(n: Node, partial: Node, indentation: Bytes)
    requires PartialIndentation(n, partial).Ok? && PartialIndentation(n, partial).value.Some? && IsIndentation(indentation)
    ensures n.Node? && IsMarker(n) && PartialIndentation(n, partial).value == n.data && partial.Node? && partial.kind.TypePartial?
    ensures var m := n.(data := Some(indentation + n.data.value));
            IsMarker(m) && PartialIndentation(m, partial) == Ok(m.data)
  {
  }

  lemma {:induction false} MarkerRenders(n: Node, partial: Node, c: Context, stack: seq<Data>, components: seq<Bytes>,
                                         start: bool, depth: nat)
    requires PartialIndentation(n, partial).Ok? && PartialIndentation(n, partial).value.Some?
    requires stack != [] && depth <= NESTING_CEILING && IsIndentation(Concat(components))
    ensures n.Node? && n.data.Some?
    ensures Renders(TraceNode(n, c, stack, Some(Frame(components, start)), depth, None, true),
                    TraceNode(n.(data := Some(Concat(components) + n.data.value)), c, stack, None, depth, None, true),
                    components, false)
  {
    hide TraceNode;
    MarkedPair(n, partial, Concat(components));
    var m, frame := n.(data := Some(Concat(components) + n.data.value)), Some(Frame(components, start));
    if depth >= NESTING_CEILING {
      EntersTooDeep(n, c, stack, frame, depth, None, true);
      EntersTooDeep(m, c, stack, None, depth, None, true);
    } else {
      NodeMeant(n, c, stack, frame, depth, None, true);
      NodeMeant(m, c, stack, None, depth, None, true);
      MarkerSound(n);
      MarkerSound(m);
      var value := n.data.value;
      assert value != [] ==> IsIndentByte(value[|value| - 1]);
    }
  }

  lemma {:induction false} MarkerSound(n: Node)
    requires IsMarker(n)
    ensures Objection(n, true).None? && Bit(n.flags, FLAG_LAMBDA_ONLY)
  {
  }

  lemma {:induction false} EntersTooDeep(n: Node, c: Context, stack: seq<Data>, frame: Option<Frame>, depth: nat,
                                         indentation: Option<Bytes>, meta: bool)
    requires n.Node? && stack != [] && depth == NESTING_CEILING
    ensures TraceNode(n, c, stack, frame, depth, indentation, meta) == Traced([Enter(depth)], frame)
  {
  }

  /** In the middle of a line, a partial under the components means what it means under their concatenation alone. */
  lemma {:induction false} PartialRenders(n: Node, c: Context, stack: seq<Data>, components: seq<Bytes>, indentation: Bytes,
                                          depth: nat)
    requires n.Node? && n.kind.TypePartial? && stack != [] && depth <= NESTING_CEILING
    ensures Renders(TraceNode(n, c, stack, Some(Frame(components, false)), depth, Some(indentation), false),
                    TraceNode(n, c, stack, None, depth, Some(Concat(components) + indentation), false), components, false)
  {
    hide TraceNode, PartialComponents, Lookup;
    var frame, whole := Some(Frame(components, false)), Some(Concat(components) + indentation);
    if depth >= NESTING_CEILING {
      EntersTooDeep(n, c, stack, frame, depth, Some(indentation), false);
      EntersTooDeep(n, c, stack, None, depth, whole, false);
    } else {
      NodeMeant(n, c, stack, frame, depth, Some(indentation), false);
      NodeMeant(n, c, stack, None, depth, whole, false);
      if Sound(n, false) {
        var partial := c.env(n.data.value);
        var f, g := Frame(PartialComponents(frame, Some(indentation)), true), Frame(PartialComponents(None, whole), true);
        JoinedComponents(components, indentation);
        NodeAlike(partial, c, stack, f, g, depth + 1, None, false);
        var inner, inner' := TraceNode(partial, c, stack, Some(f), depth + 1, None, false).events,
                             TraceNode(partial, c, stack, Some(g), depth + 1, None, false).events;
        assert [] + inner == inner && [] + inner' == inner';
      }
    }
  }

  lemma {:induction false} JoinedComponents(components: seq<Bytes>, indentation: Bytes)
    ensures Concat(PartialComponents(Some(Frame(components, false)), Some(indentation)))
         == Concat(PartialComponents(None, Some(Concat(components) + indentation)))
  {
    var whole := Concat(components) + indentation;
    ConcatSnoc(components, indentation);
    ConcatSnoc([], whole);
    assert [] + [whole] == [whole] && components + [] == components;
  }

  /** One child that is no marker, then the others. */
  lemma {:induction false} OrdinaryChild(ns: seq<Node>, c: Context, stack: seq<Data>, components: seq<Bytes>, start: bool,
                                         depth: nat)
    requires ns != [] && PartialIndentation(ns[0], if |ns| > 1 then ns[1] else Null) == Ok(None)
    requires ClosedAll(ns) && stack != [] && depth <= NESTING_CEILING && IsIndentation(Concat(components))
    ensures Renders(TraceChildren(ns, c, stack, Some(Frame(components, start)), depth),
                    TraceChildren(IndentAll(ns, Concat(components), start), c, stack, None, depth),
                    components, AfterAll(ns, start))
    decreases NESTING_CEILING - depth, 1, |ns|, 0
  {
    hide Renders, Meant, TraceNode, TraceChildren, PartialIndentation, Concat, Closed, Indent, After, Before, IsIndentation;
    var indentation, frame := Concat(components), Some(Frame(components, start));
    var middle := After(ns[0], false, start);
    var before, m, rest := Before(ns[0], indentation, start), Indent(ns[0], indentation, start), IndentAll(ns[1..], indentation, middle);
    var a, r := ChildSteps(ns, c, stack, frame, depth);
    var literal := NodeRenders(ns[0], c, stack, components, start, depth);
    OrdinaryPair(ns[0], if |ns| > 1 then ns[1] else Null, indentation, start, rest);
    assert ([m] + rest)[1..] == rest;
    NodeFrameless(m, c, stack, depth, None, false);
    ChildrenFrameless(rest, c, stack, depth);
    var b', r' := ChildSteps([m] + rest, c, stack, None, depth);
    var both := Then(literal, b');
    if a.frame == Some(Frame(components, middle)) {
      ChildrenRender(ns[1..], c, stack, components, middle, depth);
    }
    ThenRenders(a, r, both, r', components, middle, AfterAll(ns, start));
    if before == [] {
      assert before + [m] + rest == [m] + rest;
      assert [] + b'.events == b'.events;
    } else {
      assert before + [m] + rest == [Literal(indentation)] + ([m] + rest);
      assert (before + [m] + rest)[1..] == [m] + rest;
      NodeFrameless(Literal(indentation), c, stack, depth, None, false);
      var l, br := ChildSteps(before + [m] + rest, c, stack, None, depth);
      assert (literal.events + b'.events) + r'.events == literal.events + (b'.events + r'.events);
    }
  }

  /** Neither the inserted literal nor the indented node is a marker. */
  lemma {:induction false} OrdinaryPair(n: Node, next: Node, indentation: Bytes, start: bool, rest: seq<Node>)
    requires PartialIndentation(n, next) == Ok(None)
    ensures Before(n, indentation, start) == [] || Before(n, indentation, start) == [Literal(indentation)]
    ensures forall x :: PartialIndentation(Literal(indentation), x) == Ok(None)
    ensures forall x :: PartialIndentation(Indent(n, indentation, start), x) == Ok(None)
  {
    hide Objection, IndentAll, IndentText;
  }

  lemma {:induction false} ContextsRender(ns: seq<Node>, contexts: seq<Data>, c: Context, stack: seq<Data>,
                                          components: seq<Bytes>, depth: nat)
    requires ClosedAll(ns) && EndsInStop(ns) && stack != [] && depth <= NESTING_CEILING && IsIndentation(Concat(components))
    ensures Renders(TraceContexts(ns, contexts, c, stack, Some(Frame(components, false)), depth),
                    TraceContexts(IndentAll(ns, Concat(components), false), contexts, c, stack, None, depth), components, false)
    decreases NESTING_CEILING - depth, 2, |contexts|
  {
    hide Renders, Meant, TraceChildren, TraceContexts, Concat, ClosedAll, IsIndentation, IndentAll, AfterAll, EndsInStop;
    var ms, frame := IndentAll(ns, Concat(components), false), Some(Frame(components, false));
    if contexts == [] {
      NoContexts(ns, c, stack, frame, depth);
      NoContexts(ms, c, stack, None, depth);
      SameRenders([], components, false);
    } else {
      assert contexts[0..] == contexts;
      var a, r := ContextSteps(ns, contexts, 0, c, stack, frame, depth);
      var a', r' := ContextSteps(ms, contexts, 0, c, stack, None, depth);
      AfterStop(ns, false);
      ChildrenRender(ns, c, stack + [contexts[0]], components, false, depth);
      ChildrenFrameless(ms, c, stack + [contexts[0]], depth);
      ContextsFrameless(ms, contexts[1..], c, stack, depth);
      if a.frame == frame {
        ContextsRender(ns, contexts[1..], c, stack, components, depth);
      }
      ThenRenders(a, r, a', r', components, false, false);
    }
  }

  // ---- Main results -----------------------------------------------------------------------------------

  /** Rendering a partial under any stack of line frames means what rendering its indented source means without frames:
      the same text, and the same failure if there is one. */
  lemma {:induction false} FramesPreserveMeaning(t: Node, c: Context, stack: seq<Data>, components: seq<Bytes>, depth: nat)
    requires Closed(t) && t.Node? && t.kind.TypeRoot? && stack != [] && depth <= NESTING_CEILING
    requires IsIndentation(Concat(components))
    ensures Meant(TraceNode(t, c, stack, Some(Frame(components, true)), depth, None, false).events)
         == Meant(TraceNode(Indent(t, Concat(components), true), c, stack, None, depth, None, false).events)
  {
    hide TraceNode, Meant, IndentAll;
    var literal := NodeRenders(t, c, stack, components, true, depth);
    var events := TraceNode(Indent(t, Concat(components), true), c, stack, None, depth, None, false).events;
    assert [] + events == events;
  }

  /** Two traces that mean the same give the same output under any limits that both stay within. */
  lemma {:induction false} SameMeaningSameOutput(a: seq<Event>, b: seq<Event>, limits: Limits, other: Limits, at: Progress)
    requires Meant(a) == Meant(b) && Within(limits, at) && Within(other, at)
    requires Run(a, limits, at).outcome.Pass? && Run(b, other, at).outcome.Pass?
    ensures Run(a, limits, at).progress.output == Run(b, other, at).progress.output
  {
    SucceedsWhenCostsFit(a, limits, at);
    SucceedsWhenCostsFit(b, other, at);
    MeaningOfSuccess(a);
    MeaningOfSuccess(b);
  }

  /** A tag alone on its line renders the partial with its indentation before every line: the standalone indentation of
      the Mustache specification. */
  lemma {:induction false} StandalonePartial(marker: Node, tag: Node, c: Context, stack: seq<Data>, depth: nat)
    requires IsMarker(marker) && tag.Node? && tag.kind.TypePartial? && Sound(tag, false)
    requires stack != [] && depth < NESTING_CEILING
    requires var t := c.env(tag.data.value); t.Node? && t.kind.TypeRoot? && Closed(t)
    ensures Meant(TraceChildren([marker, tag], c, stack, None, depth).events)
         == Meant(TraceNode(Indent(c.env(tag.data.value), marker.data.value, true), c, stack, None, depth + 1, None, false).events)
  {
    hide TraceNode, TraceChildren, Closed, Indent, Meant, Objection;
    SoundData(tag);
    var t, indentation := c.env(tag.data.value), marker.data.value;
    var pair := [marker, tag];
    var first, second, third := MarkerSteps(pair, c, stack, None, depth);
    assert pair[1..][1..] == [];
    NodeMeant(marker, c, stack, None, depth, None, true);
    MarkerSound(marker);
    NoChildren(c, stack, second.frame, depth);
    PartialMeant(tag, c, stack, indentation, depth);
    ThenMeant(second, third);
    ThenMeant(first, Then(second, third));
    NoText([], true);
    var components := PartialComponents(None, Some(indentation));
    OneComponent(indentation);
    FramesPreserveMeaning(t, c, stack, components, depth + 1);
  }

  lemma {:induction false} OneComponent(indentation: Bytes)
    ensures Concat(PartialComponents(None, Some(indentation))) == indentation
  {
    var one := [indentation];
    assert one[1..] == [];
  }

  lemma {:induction false} PartialMeant(tag: Node, c: Context, stack: seq<Data>, indentation: Bytes, depth: nat)
    requires tag.Node? && tag.kind.TypePartial? && Sound(tag, false) && stack != [] && depth < NESTING_CEILING
    requires c.env(tag.data.value).Node?
    ensures Meant(TraceNode(tag, c, stack, None, depth, Some(indentation), false).events)
         == Meant(TraceNode(c.env(tag.data.value), c, stack, Some(Frame(PartialComponents(None, Some(indentation)), true)),
                            depth + 1, None, false).events)
    ensures TraceNode(tag, c, stack, None, depth, Some(indentation), false).frame.None?
  {
    hide TraceNode, PartialComponents, Lookup;
    NodeMeant(tag, c, stack, None, depth, Some(indentation), false);
    NodeFrameless(tag, c, stack, depth, Some(indentation), false);
    NoTag();
    var inner := TraceNode(c.env(tag.data.value), c, stack, Some(Frame(PartialComponents(None, Some(indentation)), true)),
                           depth + 1, None, false).events;
    assert [] + inner == inner;
  }

  /** Indenting twice is indenting once by both, outermost first. */
  lemma {:induction false} IndentTwice(value: Bytes, outer: Bytes, inner: Bytes, start: bool)
    requires forall i :: 0 <= i < |inner| ==> inner[i] != NEWLINE
    ensures IndentText(IndentText(value, inner, start), outer, start) == IndentText(value, outer + inner, start)
  {
    if value != [] {
      var rest := IndentText(value[1..], inner, value[0] == NEWLINE);
      IndentTwice(value[1..], outer, inner, value[0] == NEWLINE);
      var due := DueText(inner, start);
      var text := due + [value[0]];
      assert IndentText(value, inner, start) == text + rest;
      IndentLine(text + rest, |text|, outer, start);
      assert (text + rest)[..|text|] == text && (text + rest)[|text|..] == rest;
      assert DueText(outer, start) + text == DueText(outer + inner, start) + [value[0]];
    }
  }
}
