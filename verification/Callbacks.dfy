/** Rendering with callbacks: lambdas re-enter the renderer that calls them, render into buffers of their own, catch
    failures, keep their contexts and start other renderers. Whatever they do, scoped state is restored, and every byte a
    renderer was charged is in a buffer or was lost with an evaluation that failed. */
module Callbacks {
  import opened Base
  import opened RenderTrace
  import opened RenderLimits
  import opened CallbackScripts
  import opened CallbackState

  // ---- The renderers, their callbacks and the registry --------------------------------------------------------

  class World {
    const limits: Limits
    var renderers: seq<RendererState>
    var buffers: seq<Bytes>
    var evaluations: seq<Bytes>
    var contexts: seq<Option<nat>>
    var registry: seq<Scope>
    ghost var authors: seq<multiset<nat>>
    ghost var pending: seq<multiset<nat>>
    ghost var lost: multiset<nat>

    constructor (limits: Limits)
      ensures this.limits == limits && Now() == NOTHING
    {
      this.limits := limits;
      renderers, buffers, evaluations, contexts, registry := [], [], [], [], [];
      authors, pending, lost := [], [], multiset{};
    }

    ghost function Now(): Snapshot
      reads this
    {
      Snapshot(renderers, buffers, evaluations, contexts, registry, authors, pending, lost)
    }

    /** Room under the output limit, in the output and in the renderer's total. */
    method Chargeable(r: nat, addition: nat, charge: nat) returns (o: Outcome)
      requires r < |renderers| && Exists(Now(), renderers[r].output)
      ensures o.Pass? <==> |At(Now(), renderers[r].output)| + addition <= limits.maxOutputBytes
                           && renderers[r].outputBytes + charge <= limits.maxOutputBytes
      ensures o.Fail? ==> o == Fail(RenderOutput)
    {
      var out := renderers[r].output;
      var size, total := if out.Buffer? then |buffers[out.index]| else |evaluations[out.index]|, renderers[r].outputBytes;
      if size > limits.maxOutputBytes || addition > limits.maxOutputBytes - size {
        return Fail(RenderOutput);
      }
      if total > limits.maxOutputBytes || charge > limits.maxOutputBytes - total {
        return Fail(RenderOutput);
      }
      o := Pass;
    }

    /** Writes to the output of renderer r; the ledger notes whose bytes these are. */
    method Put(r: nat, value: Bytes, ghost share: multiset<nat>)
      requires r < |renderers| && Exists(Now(), renderers[r].output) && Signed(buffers, authors) && Signed(evaluations, pending)
      modifies this
      ensures Now() == Credit(old(Now()), old(renderers[r].output), value, share)
    {
      match renderers[r].output {
        case Buffer(b) =>
          buffers := buffers[b := buffers[b] + value];
          authors := authors[b := authors[b] + share];
        case Evaluation(i) =>
          evaluations := evaluations[i := evaluations[i] + value];
          pending := pending[i := pending[i] + share];
      }
    }

    method Append(r: nat, value: Bytes, ghost depth: nat, ghost p: Prospect) returns (o: Outcome)
      requires Sound(Now()) && r < |renderers| && Writes(p, Now(), value)
      modifies this
      ensures Ran(old(Now()), Now(), r, depth, limits, p, o)
      ensures o.Pass? ==> renderers[r].outputBytes == old(renderers[r].outputBytes) + |value|
    {
      hide Balanced, Registered, Ran, Credit;
      ghost var s := Now();
      Available(s, r);
      o := Chargeable(r, |value|, |value|);
      if o.Fail? {
        NoRoom(s, r, limits, |value|, p.cost);
        Refused(s, r, depth, limits, p, o);
        return;
      }
      WroteRan(s, r, value, depth, limits, p);
      CreditFields(s, s.renderers[r].output, value, By(r, |value|));
      Put(r, value, By(r, |value|));
      renderers := renderers[r := renderers[r].(outputBytes := renderers[r].outputBytes + |value|)];
      assert Now() == Wrote(s, r, value);
    }

    /** The end of an escaped evaluation that failed: its text is gone, and the bytes charged for it are lost. */
    method DropEvaluation()
      requires evaluations != [] && pending != []
      modifies this
      ensures var s := old(Now());
              Now() == s.(evaluations := s.evaluations[..|s.evaluations| - 1], pending := s.pending[..|s.pending| - 1],
                          lost := s.lost + s.pending[|s.pending| - 1])
    {
      lost := lost + pending[|pending| - 1];
      evaluations := evaluations[..|evaluations| - 1];
      pending := pending[..|pending| - 1];
    }

    /** The registry lookup: from the innermost frame outwards. */
    method FindEngine(r: nat) returns (engine: Option<nat>)
      ensures engine == Innermost(registry, r)
      ensures forall i: nat :: InnermostFrame(registry, r, i) ==> engine == Some(registry[i].engine)
      ensures engine.None? <==> forall i :: 0 <= i < |registry| ==> registry[i].renderer != r
    {
      LastOpenedWins(registry, r);
      var i := |registry|;
      assert registry[..i] == registry;
      while i > 0
        invariant i <= |registry| && Innermost(registry[..i], r) == Innermost(registry, r)
      {
        i := i - 1;
        assert registry[..i + 1][..i] == registry[..i];
        if registry[i].renderer == r {
          return Some(registry[i].engine);
        }
      }
      return None;
    }

    // ---- Rendering ------------------------------------------------------------------------------------

    method RenderNode(r: nat, body: seq<Act>, depth: nat) returns (o: Outcome)
      requires Sound(Now()) && r < |renderers| && renderers[r].rendering
      modifies this
      ensures Ran(old(Now()), Now(), r, depth, limits, OfNode(body, old(Now())), o)
      decreases body, 2
    {
      hide Sound, Ran, TextOf, OwnBuffers, Calm, Careful, Quiet, CostOf, ForecastOf;
      ghost var s := Now();
      if depth >= limits.maxNestingDepth || depth >= NESTING_CEILING {
        o := Fail(RenderNesting);
        Refused(s, r, depth, limits, OfNode(body, s), o);
        return;
      }
      if renderers[r].nodeVisits >= limits.maxNodeVisits {
        o := Fail(RenderVisits);
        Refused(s, r, depth, limits, OfNode(body, s), o);
        return;
      }
      var parentDepth := renderers[r].activeDepth;
      renderers := renderers[r := renderers[r].(nodeVisits := renderers[r].nodeVisits + 1, activeDepth := depth)];
      ghost var s1 := Now();
      EnteredSound(s, s1, r, 1);
      o := RenderActs(r, body, depth);
      ghost var t1 := Now();
      Around(s, s1, t1, r, 1, depth, limits, OfActs(body, s1), o);
      BackInScope(s1, t1, r, depth, limits, OfActs(body, s1), o);
      renderers := renderers[r := renderers[r].(activeDepth := parentDepth)];
      assert Now() == Left(s, t1, r);
    }

    method RenderActs(r: nat, acts: seq<Act>, depth: nat) returns (o: Outcome)
      requires Sound(Now()) && r < |renderers| && renderers[r].rendering
      modifies this
      ensures Ran(old(Now()), Now(), r, depth, limits, OfActs(acts, old(Now())), o)
      decreases acts, 1
    {
      hide Sound, Ran, OfActs, OfAct;
      ghost var s := Now();
      NoActs(s, r, depth, limits, acts);
      var i := 0;
      while i < |acts|
        invariant i <= |acts| && Sound(Now()) && r < |renderers| && renderers[r].rendering
        invariant Ran(s, Now(), r, depth, limits, OfActs(acts[..i], s), Pass)
      {
        ghost var t := Now();
        o := RenderAct(r, acts[i], depth);
        NextActRan(s, t, Now(), r, depth, limits, acts, i, o);
        BackInScope(t, Now(), r, depth, limits, OfAct(acts[i], t), o);
        i := i + 1;
        if o.Fail? {
          FailedRan(s, Now(), r, depth, limits, acts, i, o);
          return;
        }
      }
      assert acts[..i] == acts;
      o := Pass;
    }

    method RenderAct(r: nat, act: Act, depth: nat) returns (o: Outcome)
      requires Sound(Now()) && r < |renderers| && renderers[r].rendering
      modifies this
      ensures Ran(old(Now()), Now(), r, depth, limits, OfAct(act, old(Now())), o)
      decreases act, 0
    {
      hide Sound, Ran, TextOf, OwnBuffers, Calm, Careful, Quiet, CostOf, ForecastOf, Escaped;
      ghost var s := Now();
      match act {
        case Emit(text) => o := Append(r, text, depth, OfAct(act, s));
        case EmitEscaped(text) => o := Append(r, Escaped(text), depth, OfAct(act, s));
        case Child(body) =>
          o := RenderNode(r, body, depth + 1);
          RanLess(s, Now(), r, depth + 1, depth, limits, OfNode(body, s), OfAct(act, s), o);
        case InContext(mark, body) =>
          o := RenderInContext(r, mark, body, depth);
        case InFrame(mark, body) =>
          o := RenderInFrame(r, mark, body, depth);
          RanLess(s, Now(), r, depth + 1, depth, limits, OfNode(body, s), OfAct(act, s), o);
        case Interpolation(escape, calls, returned) =>
          o := RunCalls(calls);
          ghost var t := Now();
          CallsAppendNothing(calls, s);
          if o.Fail? {
            ThrownRan(s, t, r, depth, limits, OfCalls(calls, s), act, o);
            return;
          }
          AfterCalls(s, t, r, limits, OfCalls(calls, s), o);
          if escape {
            o := RenderEscaped(r, returned, depth);
            ReturnedAfter(s, t, Now(), r, depth, limits, OfCalls(calls, s), OfEscaped(returned, t), act, o);
          } else {
            o := RenderReturned(r, returned, depth);
            ReturnedAfter(s, t, Now(), r, depth, limits, OfCalls(calls, s), OfReturned(returned, t), act, o);
          }
        case SectionCallback(calls, returned) =>
          o := InvokeSectionLambda(r, calls);
          ghost var t := Now();
          if o.Fail? {
            ThrownRan(s, t, r, depth, limits, OfSection(calls, s), act, o);
            return;
          }
          AfterCalls(s, t, r, limits, OfSection(calls, s), o);
          o := RenderReturned(r, returned, depth);
          ReturnedAfter(s, t, Now(), r, depth, limits, OfSection(calls, s), OfReturned(returned, t), act, o);
      }
    }

    method RenderInContext(r: nat, mark: nat, body: seq<Act>, depth: nat) returns (o: Outcome)
      requires Sound(Now()) && r < |renderers| && renderers[r].rendering
      modifies this
      ensures Ran(old(Now()), Now(), r, depth, limits, OfActs(body, old(Now())), o)
      decreases body, 3
    {
      hide Sound, Ran, TextOf, OwnBuffers, Calm, Careful, Quiet, CostOf, ForecastOf;
      ghost var s := Now();
      renderers := renderers[r := renderers[r].(stack := renderers[r].stack + [mark])];
      ghost var s1 := Now();
      EnteredSound(s, s1, r, 0);
      o := RenderActs(r, body, depth);
      ghost var t1 := Now();
      Around(s, s1, t1, r, 0, depth, limits, OfActs(body, s1), o);
      BackInScope(s1, t1, r, depth, limits, OfActs(body, s1), o);
      renderers := renderers[r := renderers[r].(stack := renderers[r].stack[..|renderers[r].stack| - 1])];
      assert Now() == Left(s, t1, r);
    }

    method RenderInFrame(r: nat, mark: nat, body: seq<Act>, depth: nat) returns (o: Outcome)
      requires Sound(Now()) && r < |renderers| && renderers[r].rendering
      modifies this
      ensures Ran(old(Now()), Now(), r, depth + 1, limits, OfNode(body, old(Now())), o)
      decreases body, 3
    {
      hide Sound, Ran, TextOf, OwnBuffers, Calm, Careful, Quiet, CostOf, ForecastOf;
      ghost var s := Now();
      renderers := renderers[r := renderers[r].(frames := renderers[r].frames + [mark])];
      ghost var s1 := Now();
      EnteredSound(s, s1, r, 0);
      o := RenderNode(r, body, depth + 1);
      ghost var t1 := Now();
      Around(s, s1, t1, r, 0, depth + 1, limits, OfNode(body, s1), o);
      BackInScope(s1, t1, r, depth + 1, limits, OfNode(body, s1), o);
      renderers := renderers[r := renderers[r].(frames := renderers[r].frames[..|renderers[r].frames| - 1])];
      assert Now() == Left(s, t1, r);
    }

    /** What a callback returned: text as it is, or a template that is rendered in a line frame of its own. */
    method RenderReturned(r: nat, returned: Returned, depth: nat) returns (o: Outcome)
      requires Sound(Now()) && r < |renderers| && renderers[r].rendering
      modifies this
      ensures Ran(old(Now()), Now(), r, depth, limits, OfReturned(returned, old(Now())), o)
      decreases returned, 3
    {
      hide Sound, Ran, TextOf, OwnBuffers, Calm, Careful, Quiet, CostOf, ForecastOf;
      ghost var s := Now();
      match returned {
        case Literally(text) => o := Append(r, text, depth, OfReturned(returned, s));
        case Template(body) =>
          o := RenderInFrame(r, 0, body, depth);
          RanLess(s, Now(), r, depth + 1, depth, limits, OfNode(body, s), OfReturned(returned, s), o);
      }
    }

    /** What an interpolation callback returned, where output is escaped. The renderer is charged for exactly the escaped
        text, unless callbacks inside make calls of their own. */
    method RenderEscaped(r: nat, returned: Returned, depth: nat) returns (o: Outcome)
      requires Sound(Now()) && r < |renderers| && renderers[r].rendering
      modifies this
      ensures Ran(old(Now()), Now(), r, depth, limits, OfEscaped(returned, old(Now())), o)
      ensures o.Pass? && QuietReturned(returned) ==>
                r < |renderers| && renderers[r].outputBytes == old(renderers[r].outputBytes) + |Escaped(ReturnedText(returned))|
      decreases returned, 3
    {
      hide Sound, Balanced, Registered, TextOf, OwnBuffers, Calm, Careful, Quiet, CostOf, ForecastOf, Escaped, Room;
      hide Delivered, Bounded;
      ghost var s := Now();
      match returned {
        case Literally(text) =>
          LiteralWrites(text, s);
          o := Append(r, Escaped(text), depth, OfEscaped(returned, s));
        case Template(body) => o := RenderEvaluated(r, body, depth);
      }
      OwnCharge(s, Now(), r, depth, limits, OfEscaped(returned, s), o);
    }

    /** A template is evaluated into a text of its own first, and then escaped as a whole. */
    method RenderEvaluated(r: nat, body: seq<Act>, depth: nat) returns (o: Outcome)
      requires Sound(Now()) && r < |renderers| && renderers[r].rendering
      modifies this
      ensures Ran(old(Now()), Now(), r, depth, limits, OfEvaluation(body, old(Now())), o)
      decreases body, 4
    {
      hide Sound, Ran, TextOf, OwnBuffers, Calm, Careful, Quiet, CostOf, ForecastOf, Escaped, OfEvaluation, Credit, By, Signed;
      ghost var s := Now();
      var parentOutput := renderers[r].output;
      renderers := renderers[r := renderers[r].(frames := renderers[r].frames + [0], output := Evaluation(|evaluations|))];
      evaluations := evaluations + [[]];
      pending := pending + [multiset{}];
      ghost var s1 := Now();
      assert s1 == Redirected(s, r);
      RedirectedSound(s, r);
      o := RenderNode(r, body, depth + 1);
      ghost var t1 := Now();
      EvaluationEnds(s, t1, r, depth, limits, body, o);
      renderers := renderers[r := renderers[r].(output := parentOutput, frames := renderers[r].frames[..|renderers[r].frames| - 1])];
      ghost var t2 := Now();
      assert t2 == Left(s, t1, r);
      o := EndEvaluation(r, o, s, t1, depth, body);
    }

    /** The end of an escaped evaluation: its text is escaped into the output if it passed and there is room. */
    method EndEvaluation(r: nat, evaluated: Outcome, ghost s: Snapshot, ghost t1: Snapshot, ghost depth: nat,
                         ghost body: seq<Act>)
      returns (o: Outcome)
      requires Sound(s) && r < |s.renderers| && r < |t1.renderers| && Now() == Left(s, t1, r)
      requires Ran(Redirected(s, r), t1, r, depth + 1, limits, OfNode(body, Redirected(s, r)), evaluated)
      modifies this
      ensures Ran(s, Now(), r, depth, limits, OfEvaluation(body, s), o)
    {
      hide Sound, Ran, OfEvaluation, OfNode, Redirected, Escaped, Credit, By, Signed, TextOf, OwnBuffers, Calm, Careful, Quiet;
      EvaluationEnds(s, t1, r, depth, limits, body, evaluated);
      LeftTexts(s, t1, r);
      o := evaluated;
      if o.Pass? {
        MergedRan(s, t1, r, depth, limits, body);
        o := MergeEvaluated(r, s, t1);
        if o.Pass? {
          return;
        }
        MergeRefused(s, t1, r, depth, limits, body);
      }
      DroppedRan(s, t1, r, depth, limits, body, evaluated, o);
      DropEvaluation();
      assert Now() == Dropped(s, t1, r);
    }

    /** Escapes the evaluated text into the output; only what escaping adds is charged. */
    method MergeEvaluated(r: nat, ghost s: Snapshot, ghost t1: Snapshot) returns (o: Outcome)
      requires r < |s.renderers| && r < |t1.renderers| && Now() == Left(s, t1, r)
      requires evaluations != [] && |evaluations| == |pending| && Exists(Now(), renderers[r].output)
      requires var p := Popped(s, t1, r);
               Exists(p, s.renderers[r].output) && Signed(p.buffers, p.authors) && Signed(p.evaluations, p.pending)
      modifies this
      ensures o.Pass? ==> Now() == Merged(s, t1, r)
      ensures o.Fail? ==> Now() == old(Now()) && o == Fail(RenderOutput)
      ensures o.Fail? ==> var p, text := Popped(s, t1, r), t1.evaluations[|t1.evaluations| - 1];
                          |At(p, s.renderers[r].output)| + |Escaped(text)| > limits.maxOutputBytes
                          || p.renderers[r].outputBytes + (|Escaped(text)| - |text|) > limits.maxOutputBytes
    {
      hide Escaped, Credit, By, Signed;
      var text := evaluations[|evaluations| - 1];
      var escaped := Escaped(text);
      var out := renderers[r].output;
      o := Chargeable(r, |escaped|, |escaped| - |text|);
      ghost var p := Popped(s, t1, r);
      assert At(p, out) == At(Now(), out);
      if o.Pass? {
        ghost var share := pending[|pending| - 1] + By(r, |escaped| - |text|);
        evaluations := evaluations[..|evaluations| - 1];
        pending := pending[..|pending| - 1];
        assert Now() == p;
        CreditFields(p, out, escaped, share);
        Put(r, escaped, share);
        renderers := renderers[r := renderers[r].(outputBytes := renderers[r].outputBytes + (|escaped| - |text|))];
        assert Now() == Merged(s, t1, r);
      }
    }

    // ---- Callbacks ------------------------------------------------------------------------------------

    /** A section callback: while it runs, its frame is in the registry and its context is active. */
    method InvokeSectionLambda(r: nat, calls: seq<Call>) returns (o: Outcome)
      requires Sound(Now()) && r < |renderers| && renderers[r].rendering
      modifies this
      ensures Called(old(Now()), Now(), limits, OfSection(calls, old(Now())), o)
      decreases calls, 3
    {
      hide Sound, Called, OwnCalls, CalmCalls, CarefulCalls, CallsCost, CallsForecast;
      ghost var s := Now();
      FrameOpens(s, r);
      var context := |contexts|;
      registry := registry + [Scope(r, renderers[r].engine, context)];
      contexts := contexts + [Some(r)];
      renderers := renderers[r := renderers[r].(callbackDepth := renderers[r].callbackDepth + 1)];
      assert Now() == WithFrame(s, r);
      o := RunCalls(calls);
      ghost var t1 := Now();
      FrameCalled(s, r, calls, t1, limits, o);
      contexts := contexts[context := None];
      renderers := renderers[r := renderers[r].(callbackDepth := renderers[r].callbackDepth - 1)];
      registry := registry[..|registry| - 1];
    }

    method RunCalls(calls: seq<Call>) returns (o: Outcome)
      requires Sound(Now())
      modifies this
      ensures Called(old(Now()), Now(), limits, OfCalls(calls, old(Now())), o)
      decreases calls, 1
    {
      hide Sound, Called, OfCalls, OfCall;
      ghost var s := Now();
      NoCalls(s, limits, calls);
      var i := 0;
      while i < |calls|
        invariant i <= |calls| && Sound(Now()) && (calls == [] ==> Now() == s)
        invariant Called(s, Now(), limits, OfCalls(calls[..i], s).(quiet := false), Pass)
      {
        ghost var t := Now();
        o := RunCall(calls[i]);
        NextCallCalled(s, t, Now(), limits, calls, i, o);
        CalledSound(t, Now(), limits, OfCall(calls[i], t), o);
        i := i + 1;
        if o.Fail? {
          FailedCalled(s, Now(), limits, calls, i, o);
          QuietCalled(s, Now(), limits, calls, o);
          return;
        }
      }
      assert calls[..i] == calls;
      o := Pass;
      QuietCalled(s, Now(), limits, calls, o);
    }

    method RunCall(call: Call) returns (o: Outcome)
      requires Sound(Now())
      modifies this
      ensures Called(old(Now()), Now(), limits, OfCall(call, old(Now())), o)
      decreases call, 0
    {
      hide Sound, Called, OwnBuffers, Calm, Careful, CostOf, ForecastOf, OwnCalls, CalmCalls, CarefulCalls, CallsCost;
      hide CallsForecast;
      ghost var s := Now();
      match call {
        case Render(context, buffer, body) =>
          if context >= |contexts| || contexts[context].None? {
            o := Fail(InactiveContext);
            NothingCalled(s, limits, OfCall(call, s), o);
            return;
          }
          ActiveContext(s, context);
          o := RenderForLambda(contexts[context].value, buffer, body);
        case Attempt(calls) =>
          o := RunCalls(calls);
          CaughtCalled(s, Now(), limits, calls, o);
          o := Pass;
        case Raise =>
          o := Fail(CallbackThrew);
          NothingCalled(s, limits, OfCall(call, s), o);
        case Independently(body) =>
          o := RenderAlone([], body);
          assert OfAlone([], body, s) == OfCall(call, s);
      }
    }

    /** Rendering on behalf of a callback, into its buffer, with the innermost engine of this renderer. An active context
        always finds that engine. */
    method RenderForLambda(r: nat, buffer: Option<nat>, body: seq<Act>) returns (o: Outcome)
      requires Sound(Now()) && r < |renderers| && renderers[r].rendering && renderers[r].callbackDepth > 0
      requires Innermost(registry, r) == Some(renderers[r].engine)
      modifies this
      ensures Called(old(Now()), Now(), limits, OfRender(body, buffer, old(Now())), o)
      decreases body, 4
    {
      hide Sound, Called, Ran, TextOf, OwnBuffers, Calm, Careful, Quiet, CostOf, ForecastOf, Innermost;
      ghost var s := Now();
      var target := if buffer.Some? && buffer.value < |buffers| then buffer.value else |buffers|;
      if target == |buffers| {
        buffers := buffers + [[]];
        authors := authors + [multiset{}];
      }
      assert Now() == Provided(s, buffer);
      var parentOutput := renderers[r].output;
      if |buffers[target]| > limits.maxOutputBytes {
        o := Fail(RenderOutput);
        ProvidedCalled(s, buffer, limits, OfRender(body, buffer, s), o);
        return;
      }
      var engine := FindEngine(r);
      assert engine == Some(renderers[r].engine);
      renderers := renderers[r := renderers[r].(output := Buffer(target), frames := renderers[r].frames + [0])];
      ghost var s1 := Now();
      assert s1 == Lent(s, r, buffer);
      LentSound(s, r, buffer);
      o := RenderNode(r, body, renderers[r].activeDepth + 1);
      ghost var t1 := Now();
      LambdaRan(s, r, buffer, body, t1, limits, o);
      BackInScope(s1, t1, r, s.renderers[r].activeDepth + 1, limits, OfNode(body, s1), o);
      renderers := renderers[r := renderers[r].(output := parentOutput, frames := renderers[r].frames[..|renderers[r].frames| - 1])];
      assert Now() == Left(s, t1, r);
    }

    /** A whole render by a renderer of its own, behind what its buffer holds already. */
    method RenderAlone(initial: Bytes, body: seq<Act>) returns (o: Outcome)
      requires Sound(Now())
      modifies this
      ensures Called(old(Now()), Now(), limits, OfAlone(initial, body, old(Now())), o)
      ensures o.Pass? ==> |renderers| > |old(renderers)| && |buffers| > |old(buffers)|
      ensures o.Pass? && OwnBuffers(body) ==> buffers[|old(buffers)|] == initial + TextOf(body)
      ensures o.Pass? && Quiet(body) ==> renderers[|old(renderers)|].outputBytes == |initial| + |TextOf(body)|
      decreases body, 3
    {
      hide Sound, Called, Ran, TextOf, OwnBuffers, Calm, Careful, Quiet, CostOf, ForecastOf;
      ghost var s := Now();
      if |initial| > limits.maxOutputBytes {
        o := Fail(RenderOutput);
        FullCalled(s, initial, body, limits, o);
        return;
      }
      var r, buffer := |renderers|, |buffers|;
      buffers := buffers + [initial];
      authors := authors + [By(r, |initial|)];
      renderers := renderers + [RendererState(Buffer(buffer), |initial|, 0, [0], [], 0, 0, r, true)];
      ghost var s1 := Now();
      assert s1 == Joined(s, initial);
      JoinedSound(s, initial);
      o := RenderNode(r, body, 0);
      ghost var t1 := Now();
      AloneRan(s, initial, body, t1, limits, o);
      renderers := renderers[r := renderers[r].(stack := [], frames := [], activeDepth := 0, callbackDepth := 0, rendering := false)];
    }
  }

  /** One render from the start, into a buffer that holds `initial`. Whatever callbacks do, every counter is what its renderer
      has in buffers and what was lost with evaluations that failed, and the renderers are idle at the end. Nothing is lost
      by a success of a script in which no callback catches failures around an evaluation; and if there is room for
      everything, the counters are exact exactly when the forecast says that nothing is lost. */
  method RenderOnce(initial: Bytes, body: seq<Act>, limits: Limits) returns (o: Outcome, world: World)
    ensures Kept(NOTHING, world.Now())
    ensures world.registry == [] && world.evaluations == []
    ensures forall k :: 0 <= k < |world.contexts| ==> world.contexts[k].None?
    ensures forall r :: 0 <= r < |world.renderers| ==> Idle(world.renderers[r])
    ensures o.Pass? ==> |world.renderers| > 0 && |world.buffers| > 0
    ensures o.Pass? && OwnBuffers(body) ==> world.buffers[0] == initial + TextOf(body)
    ensures o.Pass? && Quiet(body) ==> world.renderers[0].outputBytes == |initial| + |TextOf(body)|
    ensures forall r :: 0 <= r < |world.renderers| ==>
              world.renderers[r].outputBytes == Written(world.Now(), r) + world.lost[r]
    ensures Charged(world.renderers) == Sizes(world.buffers) + |world.lost|
    ensures o.Pass? && Careful(body) ==> Exact(world.Now()) && Charged(world.renderers) == Sizes(world.buffers)
    ensures Ample(initial, body, limits) ==>
              var f := ForecastOf(body, 0, {});
              (o.Pass? <==> f.passes) && |world.lost| == f.lost && (Exact(world.Now()) <==> f.lost == 0)
  {
    hide Sound, Called, Restored, TextOf, OwnBuffers, Calm, Careful, Quiet, CostOf, ForecastOf, Exact, Charged, Sizes, Written;
    world := new World(limits);
    NothingYet();
    o := world.RenderAlone(initial, body);
    ghost var t := world.Now();
    OnceCalled(initial, body, t, limits, o);
    Settled(t);
    ExactWhenNothingLost(t);
  }

  /** The counters are not exact for a template that is evaluated, fails after it has appended something, and is caught. */
  method RenderCaughtEvaluation(x: Bytes, limits: Limits) returns (o: Outcome, world: World)
    requires x != [] && Ample([], CaughtEvaluation(x), limits)
    ensures o.Pass? && !Exact(world.Now()) && Charged(world.renderers) == Sizes(world.buffers) + |x|
  {
    hide Ample, Exact, Charged, Sizes;
    CaughtEvaluationLoses(x);
    o, world := RenderOnce([], CaughtEvaluation(x), limits);
  }
}
