/** The limits of a render: the intended events are performed one by one and cut at the first that exceeds a limit. */
module RenderLimits {
  import opened Base
  import opened Template
  import opened RenderTrace

  datatype Limits = Limits(maxOutputBytes: nat, maxNestingDepth: nat, maxNodeVisits: nat)

  /** What a render has consumed and produced so far. */
  datatype Progress = Progress(visits: nat, output: Bytes)

  datatype Performed = Performed(progress: Progress, outcome: Outcome)

  /** The exception the next event meets, if any. */
  function Refusal(e: Event, limits: Limits, at: Progress): Option<Error> {
    match e
    case Enter(depth) => if depth >= limits.maxNestingDepth || depth >= NESTING_CEILING then Some(RenderNesting) else None
    case Visit => if at.visits >= limits.maxNodeVisits then Some(RenderVisits) else None
    case Out(bytes) => if |at.output| + |bytes| > limits.maxOutputBytes then Some(RenderOutput) else None
    case Abort(error) => Some(error)
  }

  function Advance(e: Event, at: Progress): Progress {
    match e
    case Visit => at.(visits := at.visits + 1)
    case Out(bytes) => at.(output := at.output + bytes)
    case _ => at
  }

  function Run(events: seq<Event>, limits: Limits, at: Progress): Performed {
    if events == [] then Performed(at, Pass)
    else
      var refusal := Refusal(events[0], limits, at);
      if refusal.Some? then Performed(at, Fail(refusal.value))
      else Run(events[1..], limits, Advance(events[0], at))
  }

  lemma {:induction false} RunConcat(a: seq<Event>, b: seq<Event>, limits: Limits, at: Progress)
    ensures var first := Run(a, limits, at);
            Run(a + b, limits, at) == if first.outcome.Pass? then Run(b, limits, first.progress) else first
  {
    if a == [] {
      assert a + b == b;
    } else {
      assert (a + b)[0] == a[0] && (a + b)[1..] == a[1..] + b;
      if Refusal(a[0], limits, at).None? {
        RunConcat(a[1..], b, limits, Advance(a[0], at));
      }
    }
  }

  // ---- Total costs --------------------------------------------------------------------------------

  function Visits(events: seq<Event>): nat {
    if events == [] then 0 else (if events[0].Visit? then 1 else 0) + Visits(events[1..])
  }

  /** The output a render intends. */
  function Output(events: seq<Event>): Bytes {
    if events == [] then [] else (if events[0].Out? then events[0].bytes else []) + Output(events[1..])
  }

  lemma {:induction false} OutputConcat(a: seq<Event>, b: seq<Event>)
    ensures Output(a + b) == Output(a) + Output(b)
  {
    if a == [] {
      assert a + b == b;
    } else {
      assert (a + b)[0] == a[0] && (a + b)[1..] == a[1..] + b;
      OutputConcat(a[1..], b);
    }
  }

  /** The state after all events, had there been no limits. */
  function Unlimited(events: seq<Event>, at: Progress): Progress {
    Progress(at.visits + Visits(events), at.output + Output(events))
  }

  /** The event does not fail by itself, and its depth is allowed. */
  predicate Allowed(e: Event, limits: Limits) {
    !e.Abort? && (e.Enter? ==> e.depth < limits.maxNestingDepth && e.depth < NESTING_CEILING)
  }

  predicate AllAllowed(events: seq<Event>, limits: Limits) {
    forall i :: 0 <= i < |events| ==> Allowed(events[i], limits)
  }

  /** No event fails by itself and every total stays within its limit. */
  predicate Fits(events: seq<Event>, limits: Limits, at: Progress) {
    && AllAllowed(events, limits)
    && var total := Unlimited(events, at);
       total.visits <= limits.maxNodeVisits && |total.output| <= limits.maxOutputBytes
  }

  predicate Within(limits: Limits, at: Progress) {
    at.visits <= limits.maxNodeVisits && |at.output| <= limits.maxOutputBytes
  }

  lemma {:induction false} AllowedStep(events: seq<Event>, limits: Limits)
    requires events != []
    ensures AllAllowed(events, limits) <==> Allowed(events[0], limits) && AllAllowed(events[1..], limits)
  {
    hide Allowed;
    if AllAllowed(events[1..], limits) {
      forall i | 1 <= i < |events|
        ensures Allowed(events[i], limits)
      {
        assert events[i] == events[1..][i - 1];
      }
    }
  }

  lemma {:induction false} UnlimitedStep(events: seq<Event>, at: Progress)
    requires events != []
    ensures Unlimited(events[1..], Advance(events[0], at)) == Unlimited(events, at)
    ensures Advance(events[0], at).visits <= Unlimited(events, at).visits
    ensures |Advance(events[0], at).output| <= |Unlimited(events, at).output|
  {
    var e := events[0];
    var own := if e.Out? then e.bytes else [];
    assert at.output + (own + Output(events[1..])) == (at.output + own) + Output(events[1..]);
    assert at.output + [] == at.output;
  }

  lemma {:induction false} FitsStep(events: seq<Event>, limits: Limits, at: Progress)
    requires events != [] && Within(limits, at)
    ensures Fits(events, limits, at) <==>
              Refusal(events[0], limits, at).None? && Fits(events[1..], limits, Advance(events[0], at))
    ensures Unlimited(events[1..], Advance(events[0], at)) == Unlimited(events, at)
  {
    hide AllAllowed, Unlimited;
    AllowedStep(events, limits);
    UnlimitedStep(events, at);
  }

  /** A render succeeds exactly when all its costs fit, and then it has done everything it intended. */
  lemma {:induction false} SucceedsWhenCostsFit(events: seq<Event>, limits: Limits, at: Progress)
    requires Within(limits, at)
    ensures Run(events, limits, at).outcome.Pass? <==> Fits(events, limits, at)
    ensures Run(events, limits, at).outcome.Pass? ==> Run(events, limits, at).progress == Unlimited(events, at)
    decreases |events|
  {
    if events != [] {
      FitsStep(events, limits, at);
      if Refusal(events[0], limits, at).None? {
        StepAgain(events, limits, at);
      }
    } else {
      assert at.output + [] == at.output;
    }
  }

  lemma {:induction false} StepAgain(events: seq<Event>, limits: Limits, at: Progress)
    requires events != [] && Within(limits, at) && Refusal(events[0], limits, at).None?
    ensures var rest, next := events[1..], Advance(events[0], at);
            Run(events, limits, at) == Run(rest, limits, next)
            && (Run(rest, limits, next).outcome.Pass? <==> Fits(rest, limits, next))
            && (Run(rest, limits, next).outcome.Pass? ==> Run(rest, limits, next).progress == Unlimited(rest, next))
    decreases |events|, 0
  {
    hide Fits, Unlimited;
    SucceedsWhenCostsFit(events[1..], limits, Advance(events[0], at));
  }

  /** The intended trace is cut at the first event that meets a limit, and nothing before that event is lost. */
  lemma {:induction false} CutAtFirstRefusal(events: seq<Event>, limits: Limits, at: Progress) returns (cut: nat)
    ensures cut <= |events|
    ensures Run(events, limits, at).progress == Unlimited(events[..cut], at)
    ensures forall i :: 0 <= i < cut ==> Refusal(events[i], limits, Unlimited(events[..i], at)).None?
    ensures match Run(events, limits, at).outcome
            case Pass => cut == |events|
            case Fail(e) => cut < |events| && Refusal(events[cut], limits, Unlimited(events[..cut], at)) == Some(e)
  {
    assert at.output + [] == at.output;
    if events == [] || Refusal(events[0], limits, at).Some? {
      cut := 0;
      assert Unlimited(events[..0], at) == at;
    } else {
      var next := Advance(events[0], at);
      var rest := CutAtFirstRefusal(events[1..], limits, next);
      cut := rest + 1;
      forall i | 0 <= i <= rest
        ensures Unlimited(events[1..][..i], next) == Unlimited(events[..i + 1], at)
      {
        assert events[..i + 1][0] == events[0] && events[..i + 1][1..] == events[1..][..i];
      }
      forall i | 0 <= i < cut
        ensures Refusal(events[i], limits, Unlimited(events[..i], at)).None?
      {
        if i == 0 {
          assert Unlimited(events[..0], at) == at;
        } else {
          assert events[i] == events[1..][i - 1];
          assert Refusal(events[1..][i - 1], limits, Unlimited(events[1..][..i - 1], next)).None?;
        }
      }
    }
  }

  /** Success is independent of the limits; failure leaves a prefix of the intended output. */
  lemma {:induction false} LimitsAreTransparent(events: seq<Event>, limits: Limits, other: Limits, at: Progress)
    requires Within(limits, at) && Within(other, at)
    ensures Run(events, limits, at).outcome.Pass? && Run(events, other, at).outcome.Pass? ==>
              Run(events, limits, at).progress == Run(events, other, at).progress
    ensures at.output <= Run(events, limits, at).progress.output <= at.output + Output(events)
  {
    SucceedsWhenCostsFit(events, limits, at);
    SucceedsWhenCostsFit(events, other, at);
    var cut := CutAtFirstRefusal(events, limits, at);
    OutputConcat(events[..cut], events[cut..]);
    assert events[..cut] + events[cut..] == events;
    assert at.output + Output(events) == at.output + Output(events[..cut]) + Output(events[cut..]);
  }

  /** Raising limits never turns a success into a failure. */
  lemma {:induction false} HigherLimitsStillSucceed(events: seq<Event>, limits: Limits, higher: Limits, at: Progress)
    requires Within(limits, at) && Run(events, limits, at).outcome.Pass?
    requires limits.maxOutputBytes <= higher.maxOutputBytes && limits.maxNestingDepth <= higher.maxNestingDepth
    requires limits.maxNodeVisits <= higher.maxNodeVisits
    ensures Run(events, higher, at) == Run(events, limits, at)
  {
    SucceedsWhenCostsFit(events, limits, at);
    SucceedsWhenCostsFit(events, higher, at);
  }

  /** No limits are high enough for a trace that reaches the nesting ceiling. */
  lemma {:induction false} CeilingAlwaysFails(events: seq<Event>, i: nat, limits: Limits, at: Progress)
    requires Within(limits, at) && i < |events| && events[i] == Enter(NESTING_CEILING)
    ensures Run(events, limits, at).outcome.Fail?
  {
    SucceedsWhenCostsFit(events, limits, at);
  }

  // ---- A partial that includes itself ---------------------------------------------------------------

  /** The template starts with a tag that renders the template itself. */
  predicate IncludesItself(t: Node, c: Context) {
    t.Node? && t.kind.TypeRoot? && t.children != [] && Objection(t, false).None?
    && var tag := t.children[0];
       tag.Node? && tag.kind.TypePartial? && tag.data.Some? && Objection(tag, false).None?
       && !Bit(tag.flags, FLAG_PARTIAL_INDENT) && c.env(tag.data.value) == t
  }

  /** Following the inclusion leads to the nesting ceiling. */
  lemma {:induction false} InclusionReachesCeiling(t: Node, c: Context, stack: seq<Data>, frame: Option<Frame>, depth: nat)
    returns (i: nat)
    requires IncludesItself(t, c) && stack != [] && depth <= NESTING_CEILING
    ensures var events := TraceNode(t, c, stack, frame, depth, None, false).events;
            i < |events| && events[i] == Enter(NESTING_CEILING)
    decreases NESTING_CEILING - depth
  {
    hide TraceNode, TraceChildren, Objection, Bit, Lookup, PartialIndentation;
    if depth == NESTING_CEILING {
      CeilingEntered(t, c, stack, frame);
      i := 0;
      return;
    }
    NodeSteps(t, c, stack, frame, depth, None, false);
    var tag := t.children[0];
    NoMarkerPair(tag, if |t.children| > 1 then t.children[1] else Null);
    var first, second := ChildSteps(t.children, c, stack, frame, depth + 1);
    if depth + 1 == NESTING_CEILING {
      CeilingEntered(tag, c, stack, frame);
      i := 2;
    } else {
      NodeSteps(tag, c, stack, frame, depth + 1, None, false);
      var inner := Some(Frame(PartialComponents(frame, None), true));
      var j := InclusionReachesCeiling(t, c, stack, inner, depth + 2);
      var due, nested := BeginTag(frame).events, TraceNode(t, c, stack, inner, depth + 2, None, false).events;
      i := 4 + |due| + j;
      assert first.events == [Enter(depth + 1)] + ([Visit] + (due + nested));
    }
  }

  lemma {:induction false} NoMarkerPair(n: Node, next: Node)
    requires n.Node? && !Bit(n.flags, FLAG_PARTIAL_INDENT)
    ensures PartialIndentation(n, next) == Ok(None)
  {
  }

  lemma {:induction false} CeilingEntered(n: Node, c: Context, stack: seq<Data>, frame: Option<Frame>)
    requires n.Node? && stack != []
    ensures TraceNode(n, c, stack, frame, NESTING_CEILING, None, false).events == [Enter(NESTING_CEILING)]
  {
  }

  /** A template that includes itself renders under no limits at all; it fails, and it does so after finitely many steps. */
  lemma {:induction false} InclusionFails(t: Node, c: Context, data: Data, limits: Limits, at: Progress)
    requires IncludesItself(t, c) && Within(limits, at)
    ensures Run(TraceNode(t, c, [data], None, 0, None, false).events, limits, at).outcome.Fail?
  {
    hide TraceNode, Run;
    var i := InclusionReachesCeiling(t, c, [data], None, 0);
    CeilingAlwaysFails(TraceNode(t, c, [data], None, 0, None, false).events, i, limits, at);
  }
}
