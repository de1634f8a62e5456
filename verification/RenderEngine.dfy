/** The render engine: one algorithm over owned and archived nodes, with context stack, line frames and shared budgets. */
module RenderEngine {
  import opened Base
  import opened Template
  import opened RenderTrace
  import opened RenderLimits
  import opened NodeViews
  import opened ValueLookup

  function Top(frames: seq<Frame>): Option<Frame> {
    if frames == [] then None else Some(frames[|frames| - 1])
  }

  function Below(frames: seq<Frame>): seq<Frame> {
    if frames == [] then [] else frames[..|frames| - 1]
  }

  /** Going from (s, f) to (s', f') with outcome r is performing the events of t under the limits. */
  ghost predicate Performs(t: Traced, limits: Limits, s: Progress, f: seq<Frame>, s': Progress, f': seq<Frame>, r: Outcome) {
    && Run(t.events, limits, s) == Performed(s', r)
    && |f'| == |f| && Below(f') == Below(f) && (r.Pass? ==> Top(f') == t.frame)
  }

  /** Part of the goal is done; what remains, started here, ends as the goal would have ended. */
  ghost predicate Remains(rest: Traced, goal: Traced, limits: Limits, s0: Progress, f0: seq<Frame>, s: Progress, f: seq<Frame>) {
    Run(rest.events, limits, s) == Run(goal.events, limits, s0) && rest.frame == goal.frame
    && |f| == |f0| && Below(f) == Below(f0)
  }

  lemma {:induction false} Step(a: Traced, b: Traced, goal: Traced, limits: Limits, s0: Progress, f0: seq<Frame>,
                                s: Progress, f: seq<Frame>, s': Progress, f': seq<Frame>, r: Outcome)
    requires Remains(Then(a, b), goal, limits, s0, f0, s, f) && Performs(a, limits, s, f, s', f', r)
    ensures if r.Pass? then Remains(b, goal, limits, s0, f0, s', f') && Top(f') == a.frame
            else Performs(goal, limits, s0, f0, s', f', r)
  {
    hide Run, Top, Below;
    RunConcat(a.events, b.events, limits, s);
  }

  lemma {:induction false} Complete(goal: Traced, limits: Limits, s0: Progress, f0: seq<Frame>, s: Progress, f: seq<Frame>)
    requires Remains(Traced([], Top(f)), goal, limits, s0, f0, s, f)
    ensures Performs(goal, limits, s0, f0, s, f, Pass)
  {
  }

  lemma {:induction false} PerformsNothing(limits: Limits, s: Progress, f: seq<Frame>)
    ensures Performs(Traced([], Top(f)), limits, s, f, s, f, Pass)
  {
  }

  lemma {:induction false} PerformsOne(e: Event, limits: Limits, s: Progress, f: seq<Frame>)
    ensures var t := Traced([e], Top(f));
            if Refusal(e, limits, s).None? then Performs(t, limits, s, f, Advance(e, s), f, Pass)
            else Performs(t, limits, s, f, s, f, Fail(Refusal(e, limits, s).value))
  {
    assert [e][1..] == [];
  }

  lemma {:induction false} Entered(depth: nat, goal: Traced, rest: Traced, limits: Limits, s: Progress, f: seq<Frame>)
    requires goal == Then(Traced([Enter(depth)], Top(f)), rest)
    requires depth < limits.maxNestingDepth && depth < NESTING_CEILING
    ensures Remains(rest, goal, limits, s, f, s, f)
  {
    assert goal.events[1..] == rest.events;
  }

  /** A failure that no further event can follow; the line state no longer matters. */
  lemma {:induction false} PerformsAbort(e: Error, frame: Option<Frame>, limits: Limits, s: Progress, f: seq<Frame>)
    ensures Performs(AbortTrace(e, frame), limits, s, f, s, f, Fail(e))
  {
  }

  lemma {:induction false} PerformsLast(a: Traced, goal: Traced, limits: Limits, s0: Progress, f0: seq<Frame>,
                                        s: Progress, f: seq<Frame>, s': Progress, f': seq<Frame>, r: Outcome)
    requires Remains(a, goal, limits, s0, f0, s, f) && Performs(a, limits, s, f, s', f', r)
    ensures Performs(goal, limits, s0, f0, s', f', r)
  {
    hide Run, Top, Below;
  }

  lemma {:induction false} EscapedStep(value: Bytes, i: nat)
    requires i < |value|
    ensures Escaped(value[i..]) == EscapedByte(value[i]) + Escaped(value[i + 1..])
  {
    assert value[i..][1..] == value[i + 1..];
  }

  lemma {:induction false} NothingEscaped()
    ensures Escaped([]) == []
  {
  }

  lemma {:induction false} TooDeep(n: Node, c: Context, stack: seq<Data>, frame: Option<Frame>, depth: nat,
                                   indentation: Option<Bytes>, meta: bool, limits: Limits, s: Progress, f: seq<Frame>)
    requires n.Node? && stack != [] && depth <= NESTING_CEILING
    requires depth >= NESTING_CEILING || depth >= limits.maxNestingDepth
    ensures Performs(TraceNode(n, c, stack, frame, depth, indentation, meta), limits, s, f, s, f, Fail(RenderNesting))
  {
    hide TraceBody, Objection;
  }

  lemma {:induction false} NullNode(c: Context, stack: seq<Data>, frame: Option<Frame>, depth: nat,
                                    indentation: Option<Bytes>, meta: bool, limits: Limits, s: Progress, f: seq<Frame>)
    requires stack != [] && depth <= NESTING_CEILING
    ensures Performs(TraceNode(Null, c, stack, frame, depth, indentation, meta), limits, s, f, s, f, Fail(EmptyTreeNode))
  {
  }

  lemma {:induction false} Starts(goal: Traced, limits: Limits, s: Progress, f: seq<Frame>)
    ensures Remains(goal, goal, limits, s, f, s, f)
  {
  }

  /** After the tag alone: all is done, or its failure is the failure of whatever would have followed. */
  lemma {:induction false} TagFirst(tag: Traced, rest: Traced, limits: Limits, s: Progress, f: seq<Frame>, s': Progress,
                                    f': seq<Frame>, r: Outcome)
    requires Performs(tag, limits, s, f, s', f', r)
    ensures r.Fail? ==> Performs(Then(tag, rest), limits, s, f, s', f', r)
  {
    Starts(Then(tag, rest), limits, s, f);
    Step(tag, rest, Then(tag, rest), limits, s, f, s, f, s', f', r);
  }

  lemma {:induction false} TagThen(tag: Traced, rest: Traced, limits: Limits, s: Progress, f: seq<Frame>, s': Progress,
                                   f': seq<Frame>, s'': Progress, f'': seq<Frame>, r: Outcome)
    requires Performs(tag, limits, s, f, s', f', Pass) && Performs(rest, limits, s', f', s'', f'', r)
    ensures Performs(Then(tag, rest), limits, s, f, s'', f'', r)
  {
    Starts(Then(tag, rest), limits, s, f);
    Step(tag, rest, Then(tag, rest), limits, s, f, s, f, s', f', Pass);
    PerformsLast(rest, Then(tag, rest), limits, s, f, s', f', s'', f'', r);
  }

  lemma {:induction false} EmptyView()
    ensures Shows(Owned(Null), Null)
  {
  }

  lemma {:induction false} BadMarker(rest: seq<Node>, c: Context, stack: seq<Data>, frame: Option<Frame>, depth: nat,
                                     goal: Traced, limits: Limits, s0: Progress, f0: seq<Frame>, s: Progress, f: seq<Frame>)
    requires stack != [] && depth <= NESTING_CEILING && rest != []
    requires PartialIndentation(rest[0], if |rest| > 1 then rest[1] else Null).Err?
    requires Remains(TraceChildren(rest, c, stack, frame, depth), goal, limits, s0, f0, s, f)
    ensures var e := PartialIndentation(rest[0], if |rest| > 1 then rest[1] else Null).error;
            Performs(goal, limits, s0, f0, s, f, Fail(e))
  {
    hide TraceNode, PartialIndentation;
  }

  // ---- Partials -----------------------------------------------------------------------------------

  /** A tag leaves the components of its frame alone. */
  lemma {:induction false} SameComponents(f: seq<Frame>, f': seq<Frame>, s: Progress, s': Progress, limits: Limits,
                                          indentation: Option<Bytes>)
    requires Performs(BeginTag(Top(f)), limits, s, f, s', f', Pass)
    ensures PartialComponents(Top(f'), indentation) == PartialComponents(Top(f), indentation)
  {
    hide Run;
  }

  lemma {:induction false} Pushed(f: seq<Frame>, x: Frame)
    ensures Top(f + [x]) == Some(x) && Below(f + [x]) == f
  {
  }

  lemma {:induction false} AfterTag(tag: Traced, limits: Limits, s: Progress, f: seq<Frame>, s': Progress, f': seq<Frame>)
    requires Performs(tag, limits, s, f, s', f', Pass)
    ensures Top(f') == tag.frame
  {
  }

  lemma {:induction false} KeepsHeight(t: Traced, limits: Limits, s: Progress, f: seq<Frame>, s': Progress, f': seq<Frame>,
                                       r: Outcome)
    requires Performs(t, limits, s, f, s', f', r)
    ensures |f'| == |f|
  {
  }

  lemma {:induction false} Popped(t: Traced, frame: Option<Frame>, limits: Limits, s: Progress, f: seq<Frame>,
                                  pushed: seq<Frame>, s': Progress, after: seq<Frame>, f': seq<Frame>, r: Outcome)
    requires Performs(t, limits, s, pushed, s', after, r) && pushed != [] && Below(pushed) == f && Top(f) == frame
    requires after != [] ==> f' == after[..|after| - 1]
    ensures f' == f && Performs(Traced(t.events, frame), limits, s, f, s', f', r)
  {
  }

  // ---- Whole renders ------------------------------------------------------------------------------

  /** Why a render is refused before it starts. */
  function NotStarted(rendering: bool, n: Node, data: Option<Data>, connected: bool, output: Bytes,
                      limits: Limits): Option<Error> {
    if rendering then Some(AlreadyRendering)
    else if n.Null? then Some(EmptyTree)
    else if data.None? then Some(EmptyData)
    else if !connected then Some(MissingOutput)
    else if |output| > limits.maxOutputBytes then Some(RenderOutput)
    else None
  }

  /** The intended events of the template, performed under the limits on top of the given output. */
  function Rendered(n: Node, c: Context, data: Data, limits: Limits, output: Bytes): Performed {
    Run(TraceNode(n, c, [data], None, 0, None, false).events, limits, Progress(0, output))
  }

  class Renderer {
    const limits: Limits
    const strictPaths: bool
    const source: PartialSource

    var stack: seq<Data>
    var frames: seq<Frame>
    /** Whether there is an output buffer, and what it holds. */
    var connected: bool
    var output: Bytes
    var outputBytes: nat
    var nodeVisits: nat
    var activeDepth: nat
    var rendering: bool

    constructor (limits: Limits, strictPaths: bool, source: PartialSource, connected: bool, output: Bytes)
      ensures this.limits == limits && this.strictPaths == strictPaths && this.source == source
      ensures !rendering && this.connected == connected && this.output == output
    {
      this.limits, this.strictPaths, this.source := limits, strictPaths, source;
      this.connected, this.output := connected, output;
      stack, frames, outputBytes, nodeVisits, activeDepth, rendering := [], [], 0, 0, 0, false;
    }

    /** The byte counter is the size of the buffer, and no budget is overdrawn. */
    ghost predicate Valid()
      reads this
    {
      rendering && connected && outputBytes == |output| && Within(limits, Now())
    }

    ghost function Now(): Progress
      reads this
    {
      Progress(nodeVisits, output)
    }

    // ---- Budgets and output -----------------------------------------------------------------------

    method ConsumeNodeVisit() returns (r: Outcome)
      requires Valid()
      modifies this`nodeVisits
      ensures Valid()
      ensures Performs(Traced([Visit], Top(frames)), limits, old(Now()), frames, Now(), frames, r)
    {
      PerformsOne(Visit, limits, Now(), frames);
      if nodeVisits >= limits.maxNodeVisits {
        return Fail(RenderVisits);
      }
      nodeVisits := nodeVisits + 1;
      r := Pass;
    }

    method ConsumeOutputBytes(bytes: nat) returns (r: Outcome)
      modifies this`outputBytes
      ensures r == if old(outputBytes) + bytes <= limits.maxOutputBytes then Pass else Fail(RenderOutput)
      ensures outputBytes == if r.Pass? then old(outputBytes) + bytes else old(outputBytes)
    {
      if outputBytes > limits.maxOutputBytes || bytes > limits.maxOutputBytes - outputBytes {
        return Fail(RenderOutput);
      }
      outputBytes := outputBytes + bytes;
      r := Pass;
    }

    method Append(value: Bytes) returns (r: Outcome)
      requires Valid()
      modifies this`output, this`outputBytes
      ensures Valid()
      ensures Performs(Traced([Out(value)], Top(frames)), limits, old(Now()), frames, Now(), frames, r)
    {
      PerformsOne(Out(value), limits, Now(), frames);
      if !connected {
        return Fail(MissingOutput);
      }
      var maximum := limits.maxOutputBytes;
      if |output| > maximum || |value| > maximum - |output| {
        return Fail(RenderOutput);
      }
      r := ConsumeOutputBytes(|value|);
      if r.Fail? {
        return;
      }
      if value != [] {
        output := output + value;
      }
    }

    /** The size of the escaped text is established before any of it is appended. */
    method AppendEscaped(value: Bytes) returns (r: Outcome)
      requires Valid()
      modifies this`output, this`outputBytes
      ensures Valid()
      ensures Performs(Traced([Out(Escaped(value))], Top(frames)), limits, old(Now()), frames, Now(), frames, r)
    {
      hide Performs, Run, Escaped, EscapedByte;
      PerformsOne(Out(Escaped(value)), limits, Now(), frames);
      NothingEscaped();
      if !connected {
        return Fail(MissingOutput);
      }
      var maximum := limits.maxOutputBytes;
      if |output| > maximum {
        return Fail(RenderOutput);
      }
      var available := maximum - |output|;
      assert value[0..] == value;
      var addition := 0;
      var i := 0;
      while i < |value|
        invariant i <= |value| && addition <= available
        invariant addition + |Escaped(value[i..])| == |Escaped(value)|
        modifies {}
      {
        var bytes := |EscapedByte(value[i])|;
        EscapedStep(value, i);
        if bytes > available - addition {
          return Fail(RenderOutput);
        }
        addition := addition + bytes;
        i := i + 1;
      }
      assert value[i..] == [];
      r := ConsumeOutputBytes(addition);
      if r.Fail? {
        return;
      }
      ghost var before := output;
      i := 0;
      assert value[0..] == value;
      while i < |value|
        invariant i <= |value| && outputBytes == |before| + |Escaped(value)|
        invariant output + Escaped(value[i..]) == before + Escaped(value)
      {
        EscapedStep(value, i);
        assert output + Escaped(value[i..]) == output + EscapedByte(value[i]) + Escaped(value[i + 1..]);
        output := output + EscapedByte(value[i]);
        i := i + 1;
      }
      assert value[i..] == [] && output == before + Escaped(value);
    }

    // ---- Line state ---------------------------------------------------------------------------------

    method AppendIndentation(frame: Frame) returns (r: Outcome)
      requires Valid()
      modifies this`output, this`outputBytes
      ensures Valid()
      ensures Performs(Traced(Outs(frame.components), Top(frames)), limits, old(Now()), frames, Now(), frames, r)
    {
      hide Run, Performs;
      ghost var start, goal := Now(), Traced(Outs(frame.components), Top(frames));
      assert frame.components[0..] == frame.components;
      var i := 0;
      while i < |frame.components|
        invariant i <= |frame.components| && Valid()
        invariant Remains(Traced(Outs(frame.components[i..]), Top(frames)), goal, limits, start, frames, Now(), frames)
      {
        ghost var before := Now();
        ghost var one, rest := Traced([Out(frame.components[i])], Top(frames)), Traced(Outs(frame.components[i + 1..]), Top(frames));
        assert Traced(Outs(frame.components[i..]), Top(frames)) == Then(one, rest);
        r := Append(frame.components[i]);
        Step(one, rest, goal, limits, start, frames, before, frames, Now(), frames, r);
        if r.Fail? {
          return;
        }
        i := i + 1;
      }
      assert Outs(frame.components[i..]) == [];
      Complete(goal, limits, start, frames, Now(), frames);
      r := Pass;
    }

    /** The indentation due before literal text or a tag, and the line is no longer at its start. */
    method BeginLine() returns (r: Outcome)
      requires Valid() && frames != []
      modifies this`output, this`outputBytes, this`frames
      ensures Valid()
      ensures Performs(BeginTag(Top(old(frames))), limits, old(Now()), old(frames), Now(), frames, r)
    {
      hide Run;
      ghost var start := Now();
      var frame := frames[|frames| - 1];
      r := Pass;
      if frame.atLineStart {
        r := AppendIndentation(frame);
        if r.Fail? {
          return;
        }
      } else {
        PerformsNothing(limits, start, frames);
      }
      frames := frames[|frames| - 1 := frame.(atLineStart := false)];
    }

    method BeginTemplateTag() returns (r: Outcome)
      requires Valid()
      modifies this`output, this`outputBytes, this`frames
      ensures Valid()
      ensures Performs(BeginTag(Top(old(frames))), limits, old(Now()), old(frames), Now(), frames, r)
    {
      if frames == [] {
        PerformsNothing(limits, Now(), frames);
        return Pass;
      }
      r := BeginLine();
    }

    method AppendTemplateOutput(value: Bytes) returns (r: Outcome)
      requires Valid()
      modifies this`output, this`outputBytes, this`frames
      ensures Valid()
      ensures Performs(TemplateOutput(value, Top(old(frames))), limits, old(Now()), old(frames), Now(), frames, r)
    {
      hide Run, Performs, Lines;
      ghost var start, frames0, goal := Now(), frames, TemplateOutput(value, Top(frames));
      if frames == [] {
        r := Append(value);
        return;
      }
      var offset := 0;
      assert value[0..] == value;
      while offset < |value|
        invariant offset <= |value| && Valid() && frames != []
        invariant Remains(Lines(value[offset..], Top(frames)), goal, limits, start, frames0, Now(), frames)
        decreases |value| - offset
      {
        ghost var frame, before, frames1 := Top(frames), Now(), frames;
        r := BeginLine();
        ghost var line := LinesStep(value, offset, frame);
        Step(BeginTag(frame), line, goal, limits, start, frames0, before, frames1, Now(), frames, r);
        if r.Fail? {
          return;
        }
        before := Now();
        var newline := IndexOf(value, NEWLINE, offset);
        if newline.None? {
          r := Append(value[offset..]);
          PerformsLast(Traced([Out(value[offset..])], Top(frames)), goal, limits, start, frames0, before, frames, Now(), frames, r);
          return;
        }
        r := Append(value[offset..newline.value + 1]);
        Step(Traced([Out(value[offset..newline.value + 1])], Top(frames)),
             Lines(value[newline.value + 1..], AtLine(Top(frames), true)),
             goal, limits, start, frames0, before, frames, Now(), frames, r);
        if r.Fail? {
          return;
        }
        frames := frames[|frames| - 1 := frames[|frames| - 1].(atLineStart := true)];
        offset := newline.value + 1;
      }
      NoLines(Top(frames));
      assert value[offset..] == [];
      Complete(goal, limits, start, frames0, Now(), frames);
      r := Pass;
    }

    /** Source text that is not rendered moves the line state only. */
    method ConsumeTemplateSource(value: Bytes)
      requires Valid()
      modifies this`frames
      ensures Valid()
      ensures Performs(Traced([], ConsumeSource(value, Top(old(frames)))), limits, Now(), old(frames), Now(), frames, Pass)
    {
      if frames == [] {
        return;
      }
      var last := |frames| - 1;
      ghost var before := frames;
      if value == [] {
        frames := frames[last := frames[last].(atLineStart := false)];
        return;
      }
      var i := 0;
      while i < |value|
        invariant i <= |value| && |frames| == last + 1 && Below(frames) == Below(before)
        invariant Top(frames) == if i == 0 then Top(before) else AtLine(Top(before), value[i - 1] == NEWLINE)
      {
        frames := frames[last := frames[last].(atLineStart := value[i] == NEWLINE)];
        i := i + 1;
      }
    }

    // ---- Lookup and values --------------------------------------------------------------------------

    method LookupValue(v: NodeView, ghost n: Node) returns (reference: Option<Data>)
      requires stack != [] && Shows(v, n) && n.Node? && n.data.Some?
      ensures reference == Lookup(n, stack, strictPaths)
      ensures !n.kind.TypeOther? ==> forall value :: reference == Some(value) <==> Resolves(n, stack, strictPaths, value)
    {
      hide Shows, DataParts, Resolves;
      if !n.kind.TypeOther? {
        AllResolve(n, stack, strictPaths);
      }
      ShownFields(v, n);
      var name := v.Data().value;
      var current := stack[|stack| - 1];
      if name == [DOT] {
        return Some(current);
      }
      if strictPaths {
        return FindInMap(current, name);
      }
      var parts := new DataPartCursor(v, n);
      var initial := name;
      if parts.HasValue() {
        initial := parts.Value();
      }
      reference := None;
      var i := |stack|;
      assert stack[..i] == stack;
      while i > 0 && reference.None?
        invariant 0 <= i <= |stack|
        invariant FindInStack(stack, initial) == if reference.Some? then reference else FindInStack(stack[..i], initial)
      {
        assert stack[..i][..i - 1] == stack[..i - 1];
        i := i - 1;
        reference := FindInMap(stack[i], initial);
      }
      if parts.HasValue() {
        parts.Advance();
      }
      ghost var first, path := reference, parts.rest;
      while reference.Some? && parts.HasValue()
        invariant parts.Valid()
        invariant first.Some? ==>
          FindPath(first.value, path) == if reference.Some? then FindPath(reference.value, parts.rest) else None
        invariant first.None? ==> reference.None?
        decreases |parts.rest|, if reference.Some? then 1 else 0
      {
        if !reference.value.Object? {
          return None;
        }
        reference := FindInMap(reference.value, parts.Value());
        parts.Advance();
      }
    }

    /** An interpolated value; a value without a spelling appends nothing. */
    method RenderValue(v: NodeView, value: Data, ghost n: Node) returns (r: Outcome)
      requires Valid() && Shows(v, n) && n.Node?
      modifies this`output, this`outputBytes
      ensures Valid()
      ensures Performs(Traced(ValueEvents(n, value), Top(frames)), limits, old(Now()), frames, Now(), frames, r)
    {
      hide Shows, Performs, Run;
      ShownFields(v, n);
      match value {
        case Text(text) =>
          if Bit(v.Flags(), FLAG_ESCAPE) {
            r := AppendEscaped(text);
          } else {
            r := Append(text);
          }
        case Boolean(_) =>
          if Bit(v.Flags(), FLAG_ESCAPE) {
            r := AppendEscaped(Spelling(value));
          } else {
            r := Append(Spelling(value));
          }
        case Number(spelling) =>
          if Bit(v.Flags(), FLAG_ESCAPE) {
            r := AppendEscaped(spelling);
          } else {
            r := Append(spelling);
          }
        case _ =>
          PerformsNothing(limits, Now(), frames);
          r := Pass;
      }
    }

    // ---- The tree walk ------------------------------------------------------------------------------

    method RenderNode(v: NodeView, depth: nat, indentation: Option<Bytes>, meta: bool, ghost n: Node, ghost c: Context)
      returns (r: Outcome)
      requires Valid() && stack != [] && depth <= NESTING_CEILING && Shows(v, n)
      requires Serves(source, c.env) && c.strict == strictPaths
      modifies this`output, this`outputBytes, this`nodeVisits, this`frames, this`activeDepth, this`stack
      ensures Valid() && stack == old(stack) && activeDepth == old(activeDepth)
      ensures Performs(TraceNode(n, c, stack, Top(old(frames)), depth, indentation, meta), limits, old(Now()), old(frames),
                       Now(), frames, r)
      decreases NESTING_CEILING - depth, 0, 0
    {
      hide Shows, Serves, Performs, Run, TraceNode, TraceBody, Top, Below, Admitted;
      ghost var start, frames0, frame := Now(), frames, Top(frames);
      ShownFields(v, n);
      if !v.Present() {
        NullNode(c, stack, frame, depth, indentation, meta, limits, start, frames0);
        return Fail(EmptyTreeNode);
      }
      if depth >= limits.maxNestingDepth || depth >= NESTING_CEILING {
        TooDeep(n, c, stack, frame, depth, indentation, meta, limits, start, frames0);
        return Fail(RenderNesting);
      }
      ghost var goal := TraceNode(n, c, stack, frame, depth, indentation, meta);
      ghost var admitted := Admitted(n, c, stack, frame, depth, indentation, meta);
      NodeSteps(n, c, stack, frame, depth, indentation, meta);
      Entered(depth, goal, Then(Traced([Visit], frame), admitted), limits, start, frames0);
      r := ConsumeNodeVisit();
      Step(Traced([Visit], frame), admitted, goal, limits, start, frames0, start, frames0, Now(), frames, r);
      if r.Fail? {
        return;
      }
      ghost var middle := Now();
      r := RenderAdmitted(v, depth, indentation, meta, n, c);
      PerformsLast(admitted, goal, limits, start, frames0, middle, frames0, Now(), frames, r);
    }

    /** The checks on a node, then the node itself at the new active depth. */
    method RenderAdmitted(v: NodeView, depth: nat, indentation: Option<Bytes>, meta: bool, ghost n: Node, ghost c: Context)
      returns (r: Outcome)
      requires Valid() && stack != [] && depth < NESTING_CEILING && Shows(v, n) && n.Node?
      requires Serves(source, c.env) && c.strict == strictPaths
      modifies this`output, this`outputBytes, this`nodeVisits, this`frames, this`activeDepth, this`stack
      ensures Valid() && stack == old(stack) && activeDepth == old(activeDepth)
      ensures Performs(Admitted(n, c, stack, Top(old(frames)), depth, indentation, meta), limits, old(Now()), old(frames),
                       Now(), frames, r)
      decreases NESTING_CEILING - depth - 1, 5, 0
    {
      hide Shows, Serves, Performs, Run, TraceBody, Top, Below, HasNoString, HasData;
      ShownFields(v, n);
      ghost var start, frames0, frame := Now(), frames, Top(frames);
      if Bit(v.Flags(), FLAG_PARTIAL_INDENT) {
        var metadata := v.Data();
        if !meta || v.Kind() != TypeOutput || v.Flags() != FLAGS_MARKER || metadata.None?
           || !IsIndentation(metadata.value) {
          PerformsAbort(InvalidIndentation, frame, limits, start, frames0);
          return Fail(InvalidIndentation);
        }
      }
      var parentDepth := activeDepth;
      activeDepth := depth;
      if !HasNoString(v.Kind()) && v.Data().None? {
        PerformsAbort(EmptyTag, frame, limits, start, frames0);
        r := Fail(EmptyTag);
      } else if HasData(v.Kind()) && v.Data().None? {
        PerformsAbort(NodeWithoutData, frame, limits, start, frames0);
        r := Fail(NodeWithoutData);
      } else {
        r := RenderBody(v, depth, indentation, n, c);
      }
      activeDepth := parentDepth;
    }

    method RenderBody(v: NodeView, depth: nat, indentation: Option<Bytes>, ghost n: Node, ghost c: Context)
      returns (r: Outcome)
      requires Valid() && stack != [] && depth < NESTING_CEILING && Shows(v, n) && n.Node?
      requires Objection(n, true).None? || Objection(n, false).None?
      requires Serves(source, c.env) && c.strict == strictPaths
      modifies this`output, this`outputBytes, this`nodeVisits, this`frames, this`activeDepth, this`stack
      ensures Valid() && stack == old(stack) && activeDepth == old(activeDepth)
      ensures Performs(TraceBody(n, c, stack, Top(old(frames)), depth, indentation), limits, old(Now()), old(frames),
                       Now(), frames, r)
      decreases NESTING_CEILING - depth - 1, 4, 0
    {
      hide Shows, Serves, Performs, Run, TraceNode, TraceChildren, TraceContexts, Top, Below, Lookup, BeginTag, TemplateOutput;
      hide ConsumeSource, ValueEvents, SectionContexts, PartialComponents, Remains;
      ShownFields(v, n);
      ghost var start, frames0, frame := Now(), frames, Top(frames);
      ghost var goal, tag := TraceBody(n, c, stack, frame, depth, indentation), BeginTag(frame);
      var value: Option<Data> := None;
      if HasData(v.Kind()) {
        value := LookupValue(v, n);
      }
      var valueIsEmpty := value.None? || IsEmpty(value.value);
      match v.Kind() {
        case TypeNone =>
          PerformsNothing(limits, start, frames0);
          r := Pass;
        case TypeComment =>
          r := BeginTemplateTag();
        case TypeStop =>
          r := BeginTemplateTag();
        case TypeInlinePartial =>
          r := BeginTemplateTag();
        case TypeRoot =>
          r := RenderChildren(v, depth, n, c);
        case TypeOutput =>
          if Bit(v.Flags(), FLAG_LAMBDA_ONLY) {
            ConsumeTemplateSource(v.Data().value);
            r := Pass;
          } else {
            r := AppendTemplateOutput(v.Data().value);
          }
        case TypeContainer =>
          var inner := v.ContainerChild();
          ShownFields(inner, n.child);
          if !inner.Present() {
            PerformsAbort(EmptyContainer, frame, limits, start, frames0);
            return Fail(EmptyContainer);
          }
          r := RenderNode(inner, depth + 1, None, false, n.child, c);
        case TypeTag =>
          r := RenderTag(v, value, n);
        case TypeVariable =>
          r := RenderTag(v, value, n);
        case TypeNegate =>
          r := RenderInverted(v, depth, valueIsEmpty, n, c);
        case TypeSection =>
          r := RenderSection(v, value, depth, n, c);
        case TypePartial =>
          r := RenderPartial(v, depth, indentation, n, c);
        case TypeOther(_) =>
          PerformsAbort(UnknownNodeType, frame, limits, start, frames0);
          r := Fail(UnknownNodeType);
      }
    }

    /** A tag with a value to interpolate. */
    method RenderTag(v: NodeView, value: Option<Data>, ghost n: Node) returns (r: Outcome)
      requires Valid() && Shows(v, n) && n.Node?
      modifies this`output, this`outputBytes, this`frames
      ensures Valid()
      ensures var tag := BeginTag(Top(old(frames)));
              Performs(if value.None? || IsEmpty(value.value) then tag
                       else Then(tag, Traced(ValueEvents(n, value.value), tag.frame)),
                       limits, old(Now()), old(frames), Now(), frames, r)
    {
      hide Shows, Performs, Run, BeginTag, ValueEvents, Top, Below, Remains;
      ghost var start, frames0, tag := Now(), frames, BeginTag(Top(frames));
      r := BeginTemplateTag();
      if value.None? || IsEmpty(value.value) {
        return;
      }
      ghost var spelled := Traced(ValueEvents(n, value.value), tag.frame);
      TagFirst(tag, spelled, limits, start, frames0, Now(), frames, r);
      if r.Fail? {
        return;
      }
      ghost var middle, frames1 := Now(), frames;
      r := RenderValue(v, value.value, n);
      TagThen(tag, spelled, limits, start, frames0, middle, frames1, Now(), frames, r);
    }

    method RenderInverted(v: NodeView, depth: nat, valueIsEmpty: bool, ghost n: Node, ghost c: Context)
      returns (r: Outcome)
      requires Valid() && stack != [] && depth < NESTING_CEILING && Shows(v, n) && n.Node?
      requires Serves(source, c.env) && c.strict == strictPaths
      modifies this`output, this`outputBytes, this`nodeVisits, this`frames, this`activeDepth, this`stack
      ensures Valid() && stack == old(stack) && activeDepth == old(activeDepth)
      ensures var tag := BeginTag(Top(old(frames)));
              Performs(if valueIsEmpty then Then(tag, TraceChildren(n.children, c, stack, tag.frame, depth + 1)) else tag,
                       limits, old(Now()), old(frames), Now(), frames, r)
      decreases NESTING_CEILING - depth - 1, 2, 0
    {
      hide Shows, Serves, Performs, Run, TraceChildren, Top, Below, BeginTag, Remains;
      ghost var start, frames0, tag := Now(), frames, BeginTag(Top(frames));
      ghost var body := TraceChildren(n.children, c, stack, tag.frame, depth + 1);
      r := BeginTemplateTag();
      TagFirst(tag, body, limits, start, frames0, Now(), frames, r);
      if r.Fail? || !valueIsEmpty {
        return;
      }
      ghost var middle, frames1 := Now(), frames;
      AfterTag(tag, limits, start, frames0, middle, frames1);
      r := RenderChildren(v, depth, n, c);
      TagThen(tag, body, limits, start, frames0, middle, frames1, Now(), frames, r);
    }

    method RenderSection(v: NodeView, value: Option<Data>, depth: nat, ghost n: Node, ghost c: Context) returns (r: Outcome)
      requires Valid() && stack != [] && depth < NESTING_CEILING && Shows(v, n) && n.Node?
      requires Serves(source, c.env) && c.strict == strictPaths
      modifies this`output, this`outputBytes, this`nodeVisits, this`frames, this`activeDepth, this`stack
      ensures Valid() && stack == old(stack) && activeDepth == old(activeDepth)
      ensures var tag := BeginTag(Top(old(frames)));
              Performs(if value.None? || IsEmpty(value.value) then tag
                       else Then(tag, TraceContexts(n.children, SectionContexts(value.value), c, stack, tag.frame, depth + 1)),
                       limits, old(Now()), old(frames), Now(), frames, r)
      decreases NESTING_CEILING - depth - 1, 3, 0
    {
      hide Shows, Serves, Performs, Run, TraceContexts, Top, Below, BeginTag, Remains, SectionContexts;
      ghost var start, frames0, tag := Now(), frames, BeginTag(Top(frames));
      r := BeginTemplateTag();
      if value.None? || IsEmpty(value.value) {
        return;
      }
      ghost var body := TraceContexts(n.children, SectionContexts(value.value), c, stack, tag.frame, depth + 1);
      TagFirst(tag, body, limits, start, frames0, Now(), frames, r);
      if r.Fail? {
        return;
      }
      ghost var middle, frames1 := Now(), frames;
      AfterTag(tag, limits, start, frames0, middle, frames1);
      r := RenderSectionValue(v, value.value, depth, n, c);
      TagThen(tag, body, limits, start, frames0, middle, frames1, Now(), frames, r);
    }

    /** The children in order; an indentation marker is rendered with the partial that follows it. */
    method RenderChildren(v: NodeView, depth: nat, ghost n: Node, ghost c: Context) returns (r: Outcome)
      requires Valid() && stack != [] && depth < NESTING_CEILING && Shows(v, n) && n.Node?
      requires Serves(source, c.env) && c.strict == strictPaths
      modifies this`output, this`outputBytes, this`nodeVisits, this`frames, this`activeDepth, this`stack
      ensures Valid() && stack == old(stack) && activeDepth == old(activeDepth)
      ensures Performs(TraceChildren(n.children, c, stack, Top(old(frames)), depth + 1), limits, old(Now()), old(frames),
                       Now(), frames, r)
      decreases NESTING_CEILING - depth - 1, 1, 0
    {
      hide Shows, Serves, Performs, Run, TraceNode, TraceChildren, Top, Below, Remains, PartialIndentation;
      ghost var start, frames0, stack0, depth0 := Now(), frames, stack, activeDepth;
      ghost var goal := TraceChildren(n.children, c, stack, Top(frames), depth + 1);
      Starts(goal, limits, start, frames0);
      var children := new ChildCursor(v, n);
      while children.HasValue()
        invariant children.Valid() && fresh(children) && Valid() && stack == stack0 && activeDepth == depth0
        invariant Remains(TraceChildren(children.rest, c, stack0, Top(frames), depth + 1), goal, limits, start, frames0,
                          Now(), frames)
        decreases |children.rest|
      {
        ghost var rest := children.rest;
        var child := children.Value();
        children.Advance();
        var nextChild := if children.HasValue() then children.Value() else Owned(Null);
        ghost var next := if |rest| > 1 then rest[1] else Null;
        EmptyView();
        var marker := ValidatePartialIndentation(child, nextChild, rest[0], next);
        ghost var before, frames1, frame := Now(), frames, Top(frames);
        if marker.Err? {
          BadMarker(rest, c, stack0, frame, depth + 1, goal, limits, start, frames0, before, frames1);
          return Fail(marker.error);
        }
        if marker.value.Some? {
          MarkerHasPartial(rest);
          ghost var first, second, third := MarkerSteps(rest, c, stack0, frame, depth + 1);
          r := RenderNode(child, depth + 1, None, true, rest[0], c);
          Step(first, Then(second, third), goal, limits, start, frames0, before, frames1, Now(), frames, r);
          if r.Fail? {
            return;
          }
          before, frames1 := Now(), frames;
          r := RenderNode(nextChild, depth + 1, marker.value, false, rest[1], c);
          Step(second, third, goal, limits, start, frames0, before, frames1, Now(), frames, r);
          if r.Fail? {
            return;
          }
          children.Advance();
        } else {
          ghost var first, second := ChildSteps(rest, c, stack0, frame, depth + 1);
          r := RenderNode(child, depth + 1, None, false, rest[0], c);
          Step(first, second, goal, limits, start, frames0, before, frames1, Now(), frames, r);
          if r.Fail? {
            return;
          }
        }
      }
      NoChildren(c, stack, Top(frames), depth + 1);
      Complete(goal, limits, start, frames0, Now(), frames);
      r := Pass;
    }

    method ValidatePartialIndentation(child: NodeView, nextChild: NodeView, ghost n: Node, ghost next: Node)
      returns (r: Result<Option<Bytes>>)
      requires Shows(child, n) && Shows(nextChild, next)
      ensures r == PartialIndentation(n, next)
    {
      hide Shows;
      ShownFields(child, n);
      ShownFields(nextChild, next);
      if !child.Present() || !Bit(child.Flags(), FLAG_PARTIAL_INDENT) {
        return Ok(None);
      }
      var data := child.Data();
      if child.Kind() != TypeOutput || child.Flags() != FLAGS_MARKER || data.None? || !IsIndentation(data.value)
         || !nextChild.Present() || nextChild.Kind() != TypePartial {
        return Err(InvalidIndentation);
      }
      return Ok(data);
    }

    /** The children once for every context of the section. */
    method RenderSectionValue(v: NodeView, value: Data, depth: nat, ghost n: Node, ghost c: Context) returns (r: Outcome)
      requires Valid() && stack != [] && depth < NESTING_CEILING && Shows(v, n) && n.Node?
      requires Serves(source, c.env) && c.strict == strictPaths
      modifies this`output, this`outputBytes, this`nodeVisits, this`frames, this`activeDepth, this`stack
      ensures Valid() && stack == old(stack) && activeDepth == old(activeDepth)
      ensures Performs(TraceContexts(n.children, SectionContexts(value), c, stack, Top(old(frames)), depth + 1), limits,
                       old(Now()), old(frames), Now(), frames, r)
      decreases NESTING_CEILING - depth - 1, 2, 1
    {
      match value {
        case NoData => r := RenderWithContexts(v, [], depth, n, c);
        case List(items) => r := RenderWithContexts(v, items, depth, n, c);
        case Array(items) => r := RenderWithContexts(v, items, depth, n, c);
        case _ => r := RenderWithContexts(v, [value], depth, n, c);
      }
    }

    method RenderWithContexts(v: NodeView, contexts: seq<Data>, depth: nat, ghost n: Node, ghost c: Context)
      returns (r: Outcome)
      requires Valid() && stack != [] && depth < NESTING_CEILING && Shows(v, n) && n.Node?
      requires Serves(source, c.env) && c.strict == strictPaths
      modifies this`output, this`outputBytes, this`nodeVisits, this`frames, this`activeDepth, this`stack
      ensures Valid() && stack == old(stack) && activeDepth == old(activeDepth)
      ensures Performs(TraceContexts(n.children, contexts, c, stack, Top(old(frames)), depth + 1), limits,
                       old(Now()), old(frames), Now(), frames, r)
      decreases NESTING_CEILING - depth - 1, 2, 0
    {
      hide Shows, Serves, Performs, Run, TraceChildren, TraceContexts, Top, Below, Remains;
      ghost var start, frames0, stack0, depth0 := Now(), frames, stack, activeDepth;
      ghost var goal := TraceContexts(n.children, contexts, c, stack, Top(frames), depth + 1);
      Starts(goal, limits, start, frames0);
      var i := 0;
      assert contexts[0..] == contexts;
      while i < |contexts|
        invariant i <= |contexts| && Valid() && stack == stack0 && activeDepth == depth0
        invariant Remains(TraceContexts(n.children, contexts[i..], c, stack0, Top(frames), depth + 1), goal, limits, start,
                          frames0, Now(), frames)
      {
        ghost var before, frames1 := Now(), frames;
        ghost var once, others := ContextSteps(n.children, contexts, i, c, stack0, Top(frames), depth + 1);
        stack := stack + [contexts[i]];
        r := RenderChildren(v, depth, n, c);
        stack := stack[..|stack| - 1];
        Step(once, others, goal, limits, start, frames0, before, frames1, Now(), frames, r);
        if r.Fail? {
          return;
        }
        i := i + 1;
      }
      assert contexts[i..] == [];
      NoContexts(n.children, c, stack, Top(frames), depth + 1);
      Complete(goal, limits, start, frames0, Now(), frames);
      r := Pass;
    }

    /** A partial runs under a line frame of its own, and the enclosing frame is untouched by it. */
    method RenderPartial(v: NodeView, depth: nat, indentation: Option<Bytes>, ghost n: Node, ghost c: Context)
      returns (r: Outcome)
      requires Valid() && stack != [] && depth < NESTING_CEILING && Shows(v, n) && n.Node? && n.data.Some?
      requires Serves(source, c.env) && c.strict == strictPaths
      modifies this`output, this`outputBytes, this`nodeVisits, this`frames, this`activeDepth, this`stack
      ensures Valid() && stack == old(stack) && activeDepth == old(activeDepth)
      ensures Performs(PartialTrace(n, c, stack, Top(old(frames)), depth, indentation), limits, old(Now()), old(frames),
                       Now(), frames, r)
      decreases NESTING_CEILING - depth - 1, 2, 0
    {
      hide Shows, Serves, Performs, Run, TraceNode, BeginTag, Remains, Top, Below, PartialComponents;
      ShownFields(v, n);
      ghost var start, frames0, tag := Now(), frames, BeginTag(Top(frames));
      r := BeginTemplateTag();
      ghost var partial := c.env(n.data.value);
      ghost var inner := Some(Frame(PartialComponents(Top(frames0), indentation), true));
      ghost var nested := if partial.Null? then Traced([], tag.frame)
                          else Traced(TraceNode(partial, c, stack, inner, depth + 1, None, false).events, tag.frame);
      TagFirst(tag, nested, limits, start, frames0, Now(), frames, r);
      if r.Fail? {
        return;
      }
      SameComponents(frames0, frames, start, Now(), limits, indentation);
      var components := ComponentsFor(indentation);
      var found := FindPartial(source, v.Data().value, c.env);
      ShownFields(found, partial);
      if !found.Present() {
        return;
      }
      ghost var middle, frames1 := Now(), frames;
      AfterTag(tag, limits, start, frames0, middle, frames1);
      r := RenderResolved(found, components, depth, partial, c);
      TagThen(tag, nested, limits, start, frames0, middle, frames1, Now(), frames, r);
    }

    method ComponentsFor(indentation: Option<Bytes>) returns (components: seq<Bytes>)
      ensures components == PartialComponents(Top(frames), indentation)
    {
      components := [];
      if indentation.Some? {
        if frames != [] {
          components := frames[|frames| - 1].components;
        }
        if indentation.value != [] {
          components := components + [indentation.value];
        }
      }
    }

    method RenderResolved(found: NodeView, components: seq<Bytes>, depth: nat, ghost partial: Node, ghost c: Context)
      returns (r: Outcome)
      requires Valid() && stack != [] && depth < NESTING_CEILING && Shows(found, partial)
      requires Serves(source, c.env) && c.strict == strictPaths
      modifies this`output, this`outputBytes, this`nodeVisits, this`frames, this`activeDepth, this`stack
      ensures Valid() && stack == old(stack) && activeDepth == old(activeDepth)
      ensures var inner := TraceNode(partial, c, stack, Some(Frame(components, true)), depth + 1, None, false);
              Performs(Traced(inner.events, Top(old(frames))), limits, old(Now()), old(frames), Now(), frames, r)
      decreases NESTING_CEILING - depth - 1, 1, 0
    {
      hide Shows, Serves, Performs, Run, TraceNode, Top, Below;
      ghost var start, frames0 := Now(), frames;
      Pushed(frames, Frame(components, true));
      frames := frames + [Frame(components, true)];
      ghost var inner := TraceNode(partial, c, stack, Top(frames), depth + 1, None, false);
      r := RenderNode(found, depth + 1, None, false, partial, c);
      ghost var after := frames;
      KeepsHeight(inner, limits, start, frames0 + [Frame(components, true)], Now(), after, r);
      frames := frames[..|frames| - 1];
      Popped(inner, Top(frames0), limits, start, frames0, frames0 + [Frame(components, true)], Now(), after, frames, r);
    }

    /** A whole render. It starts only when there is something to render and nothing is being rendered; however it ends,
        the renderer is idle again. */
    method RenderRoot(root: NodeView, data: Option<Data>, ghost n: Node, ghost c: Context) returns (r: Outcome)
      requires Shows(root, n) && Serves(source, c.env) && c.strict == strictPaths
      modifies this
      ensures var refused := NotStarted(old(rendering), n, data, connected, old(output), limits);
              if refused.Some? then r == Fail(refused.value) && unchanged(this)
              else Performed(Now(), r) == Rendered(n, c, data.value, limits, old(output))
      ensures connected == old(connected) && (!old(rendering) ==> !rendering)
      ensures NotStarted(old(rendering), n, data, connected, old(output), limits).None? ==>
                stack == [] && frames == [] && activeDepth == 0
    {
      hide Shows, Serves, TraceNode;
      ShownFields(root, n);
      if rendering {
        return Fail(AlreadyRendering);
      }
      if !root.Present() {
        return Fail(EmptyTree);
      }
      if data.None? {
        return Fail(EmptyData);
      }
      if !connected {
        return Fail(MissingOutput);
      }
      if |output| > limits.maxOutputBytes {
        return Fail(RenderOutput);
      }
      rendering, outputBytes, nodeVisits, frames, activeDepth := true, |output|, 0, [], 0;
      stack := [data.value];
      r := RenderNode(root, 0, None, false, n, c);
      stack, frames, activeDepth, rendering := [], [], 0, false;
    }
  }
}
