/** What callbacks do, as finite scripts, and what can be told from a script before it runs: the text it renders, a bound on
    what it consumes, whether it can lose bytes, and how it ends when there is room for everything. */
module CallbackScripts {
  import opened Base
  import opened RenderTrace

  /** The part of rendering a node that touches scoped state or output. Marks stand for contexts and line frames. */
  datatype Act =
    | Emit(text: Bytes)
    | EmitEscaped(text: Bytes)
    | Child(body: seq<Act>)
    | InContext(mark: nat, body: seq<Act>)
    | InFrame(mark: nat, body: seq<Act>)
    | Interpolation(escape: bool, calls: seq<Call>, returned: Returned)
    | SectionCallback(calls: seq<Call>, returned: Returned)

  datatype Returned = Literally(text: Bytes) | Template(body: seq<Act>)

  /** What a callback can do: render through any context it holds (a section callback has one of its own, the newest; an
      interpolation callback may have kept one), catch what goes wrong, throw, or run a renderer of its own. Contexts are
      numbered in the order in which they are made. */
  datatype Call =
    | Render(context: nat, buffer: Option<nat>, body: seq<Act>)
    | Attempt(calls: seq<Call>)
    | Raise
    | Independently(body: seq<Act>)

  // ---- Text ---------------------------------------------------------------------------------------------

  /** What a successful rendering appends: an escaped evaluation its escaped text, whatever it consists of. */
  function TextOf(acts: seq<Act>): Bytes {
    if acts == [] then []
    else
      var last := |acts| - 1;
      TextOf(acts[..last]) + ActText(acts[last])
  }

  function ActText(act: Act): Bytes {
    match act
    case Emit(text) => text
    case EmitEscaped(text) => Escaped(text)
    case Child(body) => TextOf(body)
    case InContext(_, body) => TextOf(body)
    case InFrame(_, body) => TextOf(body)
    case Interpolation(escape, _, returned) => if escape then Escaped(ReturnedText(returned)) else ReturnedText(returned)
    case SectionCallback(_, returned) => ReturnedText(returned)
  }

  function ReturnedText(returned: Returned): Bytes {
    match returned
    case Literally(text) => text
    case Template(body) => TextOf(body)
  }

  // ---- Kinds of scripts -----------------------------------------------------------------------------------

  /** Callbacks that render into buffers of their own only. */
  predicate OwnBuffers(acts: seq<Act>) {
    forall i :: 0 <= i < |acts| ==> OwnAct(acts[i])
  }

  predicate OwnAct(act: Act) {
    match act
    case Emit(_) => true
    case EmitEscaped(_) => true
    case Child(body) => OwnBuffers(body)
    case InContext(_, body) => OwnBuffers(body)
    case InFrame(_, body) => OwnBuffers(body)
    case Interpolation(_, calls, returned) => OwnCalls(calls) && OwnReturned(returned)
    case SectionCallback(calls, returned) => OwnCalls(calls) && OwnReturned(returned)
  }

  predicate OwnReturned(returned: Returned) {
    returned.Template? ==> OwnBuffers(returned.body)
  }

  predicate OwnCalls(calls: seq<Call>) {
    forall i :: 0 <= i < |calls| ==> OwnCall(calls[i])
  }

  predicate OwnCall(call: Call) {
    match call
    case Render(_, buffer, body) => buffer.None? && OwnBuffers(body)
    case Attempt(calls) => OwnCalls(calls)
    case Raise => true
    case Independently(body) => OwnBuffers(body)
  }

  /** Callbacks that call nothing. */
  predicate Quiet(acts: seq<Act>) {
    forall i :: 0 <= i < |acts| ==> QuietAct(acts[i])
  }

  predicate QuietAct(act: Act) {
    match act
    case Emit(_) => true
    case EmitEscaped(_) => true
    case Child(body) => Quiet(body)
    case InContext(_, body) => Quiet(body)
    case InFrame(_, body) => Quiet(body)
    case Interpolation(_, calls, returned) => calls == [] && QuietReturned(returned)
    case SectionCallback(calls, returned) => calls == [] && QuietReturned(returned)
  }

  predicate QuietReturned(returned: Returned) {
    returned.Template? ==> Quiet(returned.body)
  }

  /** No template is evaluated in order to be escaped as a whole. */
  predicate Calm(acts: seq<Act>) {
    forall i :: 0 <= i < |acts| ==> CalmAct(acts[i])
  }

  predicate CalmAct(act: Act) {
    match act
    case Emit(_) => true
    case EmitEscaped(_) => true
    case Child(body) => Calm(body)
    case InContext(_, body) => Calm(body)
    case InFrame(_, body) => Calm(body)
    case Interpolation(escape, calls, returned) =>
      CalmCalls(calls) && (escape ==> returned.Literally?) && CalmReturned(returned)
    case SectionCallback(calls, returned) => CalmCalls(calls) && CalmReturned(returned)
  }

  predicate CalmReturned(returned: Returned) {
    returned.Template? ==> Calm(returned.body)
  }

  predicate CalmCalls(calls: seq<Call>) {
    forall i :: 0 <= i < |calls| ==> CalmCall(calls[i])
  }

  predicate CalmCall(call: Call) {
    match call
    case Render(_, _, body) => Calm(body)
    case Attempt(calls) => CalmCalls(calls)
    case Raise => true
    case Independently(body) => Calm(body)
  }

  /** No callback catches failures around such an evaluation. */
  predicate Careful(acts: seq<Act>) {
    forall i :: 0 <= i < |acts| ==> CarefulAct(acts[i])
  }

  predicate CarefulAct(act: Act) {
    match act
    case Emit(_) => true
    case EmitEscaped(_) => true
    case Child(body) => Careful(body)
    case InContext(_, body) => Careful(body)
    case InFrame(_, body) => Careful(body)
    case Interpolation(_, calls, returned) => CarefulCalls(calls) && CarefulReturned(returned)
    case SectionCallback(calls, returned) => CarefulCalls(calls) && CarefulReturned(returned)
  }

  predicate CarefulReturned(returned: Returned) {
    returned.Template? ==> Careful(returned.body)
  }

  predicate CarefulCalls(calls: seq<Call>) {
    forall i :: 0 <= i < |calls| ==> CarefulCall(calls[i])
  }

  predicate CarefulCall(call: Call) {
    match call
    case Render(_, _, body) => Careful(body)
    case Attempt(calls) => CalmCalls(calls)
    case Raise => true
    case Independently(body) => Careful(body)
  }

  // ---- Costs ----------------------------------------------------------------------------------------------

  /** A bound on the bytes that any renderer is charged and any buffer receives, on visits, and on nesting. */
  datatype Cost = Cost(bytes: nat, visits: nat, height: nat) {
    function Plus(c: Cost): Cost {
      Cost(bytes + c.bytes, visits + c.visits, if height >= c.height then height else c.height)
    }

    /** As a node of its own. */
    function Node(): Cost {
      Cost(bytes, visits + 1, height)
    }

    function Below(): Cost {
      Cost(bytes, visits, height + 1)
    }
  }

  const NO_COST := Cost(0, 0, 0)

  /** Escaping a byte takes six at most. */
  const EXPANSION: nat := 6

  function CostOf(acts: seq<Act>): Cost {
    if acts == [] then NO_COST
    else
      var last := |acts| - 1;
      CostOf(acts[..last]).Plus(ActCost(acts[last]))
  }

  function ActCost(act: Act): Cost {
    match act
    case Emit(text) => Cost(|text|, 0, 0)
    case EmitEscaped(text) => Cost(|Escaped(text)|, 0, 0)
    case Child(body) => CostOf(body).Node().Below()
    case InContext(_, body) => CostOf(body)
    case InFrame(_, body) => CostOf(body).Node().Below()
    case Interpolation(escape, calls, returned) =>
      CallsCost(calls).Plus(if escape then EscapedCost(returned) else ReturnedCost(returned))
    case SectionCallback(calls, returned) => CallsCost(calls).Plus(ReturnedCost(returned))
  }

  function ReturnedCost(returned: Returned): Cost
    decreases returned, 0
  {
    match returned
    case Literally(text) => Cost(|text|, 0, 0)
    case Template(body) => CostOf(body).Node().Below()
  }

  /** What is evaluated is charged when it is rendered, and again when it is escaped. */
  function EscapedCost(returned: Returned): Cost
    decreases returned, 1
  {
    var c := ReturnedCost(returned);
    c.(bytes := c.bytes + EXPANSION * c.bytes)
  }

  function CallsCost(calls: seq<Call>): Cost {
    if calls == [] then NO_COST
    else
      var last := |calls| - 1;
      CallsCost(calls[..last]).Plus(CallCost(calls[last]))
  }

  function CallCost(call: Call): Cost {
    match call
    case Render(_, _, body) => CostOf(body).Node().Below()
    case Attempt(calls) => CallsCost(calls)
    case Raise => NO_COST
    case Independently(body) => CostOf(body).Node()
  }

  // ---- Forecasts --------------------------------------------------------------------------------------------

  /** How a run ends when no limit cuts it: whether it passes, how many contexts there are then, how many bytes it has
      appended to its output, and how many bytes were charged for evaluations that came to nothing. */
  datatype Forecast = Forecast(passes: bool, contexts: nat, appended: nat, lost: nat) {
    /** This, and then f. */
    function Then(f: Forecast): Forecast {
      Forecast(f.passes, f.contexts, appended + f.appended, lost + f.lost)
    }

    /** What was appended went to another output. */
    function Aside(): Forecast {
      Forecast(passes, contexts, 0, lost)
    }
  }

  /** The forecast with `next` contexts made so far, of which those in `open` are active. */
  function ForecastOf(acts: seq<Act>, next: nat, open: set<nat>): Forecast {
    if acts == [] then Forecast(true, next, 0, 0)
    else
      var last := |acts| - 1;
      var before := ForecastOf(acts[..last], next, open);
      if before.passes then before.Then(ActForecast(acts[last], before.contexts, open)) else before
  }

  function ActForecast(act: Act, next: nat, open: set<nat>): Forecast {
    match act
    case Emit(text) => Forecast(true, next, |text|, 0)
    case EmitEscaped(text) => Forecast(true, next, |Escaped(text)|, 0)
    case Child(body) => ForecastOf(body, next, open)
    case InContext(_, body) => ForecastOf(body, next, open)
    case InFrame(_, body) => ForecastOf(body, next, open)
    case Interpolation(escape, calls, returned) =>
      var called := CallsForecast(calls, next, open);
      if !called.passes then called
      else called.Then(if escape then EscapedForecast(returned, called.contexts, open)
                       else ReturnedForecast(returned, called.contexts, open))
    case SectionCallback(calls, returned) =>
      var called := CallsForecast(calls, next + 1, open + {next});
      if !called.passes then called else called.Then(ReturnedForecast(returned, called.contexts, open))
  }

  function ReturnedForecast(returned: Returned, next: nat, open: set<nat>): Forecast {
    match returned
    case Literally(text) => Forecast(true, next, |text|, 0)
    case Template(body) => ForecastOf(body, next, open)
  }

  /** An evaluation that fails loses what it has appended; one that passes is escaped into the output. */
  function EscapedForecast(returned: Returned, next: nat, open: set<nat>): Forecast {
    match returned
    case Literally(text) => Forecast(true, next, |Escaped(text)|, 0)
    case Template(body) =>
      var f := ForecastOf(body, next, open);
      if f.passes then Forecast(true, f.contexts, |Escaped(TextOf(body))|, f.lost)
      else Forecast(false, f.contexts, 0, f.lost + f.appended)
  }

  function CallsForecast(calls: seq<Call>, next: nat, open: set<nat>): (f: Forecast)
    ensures f.appended == 0
  {
    if calls == [] then Forecast(true, next, 0, 0)
    else
      var last := |calls| - 1;
      var before := CallsForecast(calls[..last], next, open);
      if before.passes then before.Then(CallForecast(calls[last], before.contexts, open)) else before
  }

  function CallForecast(call: Call, next: nat, open: set<nat>): (f: Forecast)
    ensures f.appended == 0
  {
    match call
    case Render(context, _, body) =>
      if context in open then ForecastOf(body, next, open).Aside() else Forecast(false, next, 0, 0)
    case Attempt(calls) => CallsForecast(calls, next, open).(passes := true)
    case Raise => Forecast(false, next, 0, 0)
    case Independently(body) => ForecastOf(body, next, open).Aside()
  }

  // ---- The last of several -----------------------------------------------------------------------------------

  lemma {:induction false} LastAct(acts: seq<Act>, i: nat, next: nat, open: set<nat>)
    requires i < |acts|
    ensures TextOf(acts[..i + 1]) == TextOf(acts[..i]) + ActText(acts[i])
    ensures CostOf(acts[..i + 1]) == CostOf(acts[..i]).Plus(ActCost(acts[i]))
    ensures var before := ForecastOf(acts[..i], next, open);
            ForecastOf(acts[..i + 1], next, open)
            == if before.passes then before.Then(ActForecast(acts[i], before.contexts, open)) else before
  {
    hide ActText, ActCost, ActForecast;
    assert acts[..i + 1][..i] == acts[..i];
  }

  lemma {:induction false} LastCall(calls: seq<Call>, i: nat, next: nat, open: set<nat>)
    requires i < |calls|
    ensures CallsCost(calls[..i + 1]) == CallsCost(calls[..i]).Plus(CallCost(calls[i]))
    ensures var before := CallsForecast(calls[..i], next, open);
            CallsForecast(calls[..i + 1], next, open)
            == if before.passes then before.Then(CallForecast(calls[i], before.contexts, open)) else before
  {
    hide CallCost, CallForecast;
    assert calls[..i + 1][..i] == calls[..i];
  }

  /** What fails stays failed, and what is left out costs nothing. */
  lemma {:induction false} FirstActs(acts: seq<Act>, i: nat, next: nat, open: set<nat>)
    requires i <= |acts|
    ensures CostOf(acts[..i]).bytes <= CostOf(acts).bytes && CostOf(acts[..i]).visits <= CostOf(acts).visits
            && CostOf(acts[..i]).height <= CostOf(acts).height
    ensures !ForecastOf(acts[..i], next, open).passes ==> ForecastOf(acts, next, open) == ForecastOf(acts[..i], next, open)
    decreases |acts| - i
  {
    hide ActText, ActCost, ActForecast;
    if i < |acts| {
      LastAct(acts, i, next, open);
      FirstActs(acts, i + 1, next, open);
    } else {
      assert acts[..i] == acts;
    }
  }

  lemma {:induction false} FirstCalls(calls: seq<Call>, i: nat, next: nat, open: set<nat>)
    requires i <= |calls|
    ensures CallsCost(calls[..i]).bytes <= CallsCost(calls).bytes && CallsCost(calls[..i]).visits <= CallsCost(calls).visits
            && CallsCost(calls[..i]).height <= CallsCost(calls).height
    ensures !CallsForecast(calls[..i], next, open).passes ==> CallsForecast(calls, next, open) == CallsForecast(calls[..i], next, open)
    decreases |calls| - i
  {
    hide CallCost, CallForecast;
    if i < |calls| {
      LastCall(calls, i, next, open);
      FirstCalls(calls, i + 1, next, open);
    } else {
      assert calls[..i] == calls;
    }
  }

  lemma {:induction false} EscapedBound(s: Bytes)
    ensures |Escaped(s)| <= EXPANSION * |s|
  {
    if s != [] {
      EscapedBound(s[1..]);
    }
  }

  // ---- What callers can tell ------------------------------------------------------------------------------------

  /** A careful script that is forecast to pass is forecast to lose nothing; a calm one never loses anything. */
  lemma {:induction false} CarefulLosesNothing(acts: seq<Act>, next: nat, open: set<nat>)
    ensures var f := ForecastOf(acts, next, open);
            (Calm(acts) ==> f.lost == 0) && (Careful(acts) && f.passes ==> f.lost == 0)
    decreases acts, 1
  {
    hide ActForecast, CalmAct, CarefulAct;
    if acts != [] {
      var last := |acts| - 1;
      var before := ForecastOf(acts[..last], next, open);
      CarefulLosesNothing(acts[..last], next, open);
      ActLosesNothing(acts[last], before.contexts, open);
    }
  }

  lemma {:induction false} ActLosesNothing(act: Act, next: nat, open: set<nat>)
    ensures var f := ActForecast(act, next, open);
            (CalmAct(act) ==> f.lost == 0) && (CarefulAct(act) && f.passes ==> f.lost == 0)
    decreases act, 0
  {
    hide Calm, Careful, CalmCalls, CarefulCalls, CalmReturned, CarefulReturned, ForecastOf, CallsForecast, ReturnedForecast;
    hide EscapedForecast;
    match act {
      case Emit(_) =>
      case EmitEscaped(_) =>
      case Child(body) => CarefulLosesNothing(body, next, open);
      case InContext(_, body) => CarefulLosesNothing(body, next, open);
      case InFrame(_, body) => CarefulLosesNothing(body, next, open);
      case Interpolation(_, calls, returned) =>
        CallsLoseNothing(calls, next, open);
        ReturnedLosesNothing(returned, CallsForecast(calls, next, open).contexts, open);
      case SectionCallback(calls, returned) =>
        CallsLoseNothing(calls, next + 1, open + {next});
        ReturnedLosesNothing(returned, CallsForecast(calls, next + 1, open + {next}).contexts, open);
    }
  }

  lemma {:induction false} ReturnedLosesNothing(returned: Returned, next: nat, open: set<nat>)
    ensures var f := ReturnedForecast(returned, next, open);
            (CalmReturned(returned) ==> f.lost == 0) && (CarefulReturned(returned) && f.passes ==> f.lost == 0)
    ensures var f := EscapedForecast(returned, next, open);
            (returned.Literally? ==> f.lost == 0) && (CarefulReturned(returned) && f.passes ==> f.lost == 0)
    decreases returned, 1
  {
    hide Calm, Careful, ForecastOf;
    if returned.Template? {
      CarefulLosesNothing(returned.body, next, open);
    }
  }

  lemma {:induction false} CallsLoseNothing(calls: seq<Call>, next: nat, open: set<nat>)
    ensures var f := CallsForecast(calls, next, open);
            (CalmCalls(calls) ==> f.lost == 0) && (CarefulCalls(calls) && f.passes ==> f.lost == 0)
    decreases calls, 1
  {
    hide CallForecast, CalmCall, CarefulCall;
    if calls != [] {
      var last := |calls| - 1;
      var before := CallsForecast(calls[..last], next, open);
      CallsLoseNothing(calls[..last], next, open);
      CallLosesNothing(calls[last], before.contexts, open);
    }
  }

  lemma {:induction false} CallLosesNothing(call: Call, next: nat, open: set<nat>)
    ensures var f := CallForecast(call, next, open);
            (CalmCall(call) ==> f.lost == 0) && (CarefulCall(call) && f.passes ==> f.lost == 0)
    decreases call, 0
  {
    hide Calm, Careful, CalmCalls, CarefulCalls, ForecastOf, CallsForecast;
    match call {
      case Render(_, _, body) => CarefulLosesNothing(body, next, open);
      case Attempt(calls) => CallsLoseNothing(calls, next, open);
      case Raise =>
      case Independently(body) => CarefulLosesNothing(body, next, open);
    }
  }

  // ---- Bytes that are lost ----------------------------------------------------------------------------------------

  /** A section callback renders a text in which an escaped template appends x and then calls a callback that throws; it
      catches that, and the render goes on. */
  function CaughtEvaluation(x: Bytes): seq<Act> {
    [SectionCallback([Attempt([Render(0, None, [FailingEvaluation(x)])])], Literally([]))]
  }

  function FailingEvaluation(x: Bytes): Act {
    Interpolation(true, [], Template([Emit(x), SectionCallback([Raise], Literally([]))]))
  }

  /** The render passes, and the bytes charged for the template are lost. */
  lemma {:induction false} CaughtEvaluationLoses(x: Bytes)
    ensures var f := ForecastOf(CaughtEvaluation(x), 0, {}); f.passes && f.lost == |x|
    ensures !Careful(CaughtEvaluation(x))
  {
    hide ActForecast, CallForecast, ForecastOf, CallsForecast;
    var call := Render(0, None, [FailingEvaluation(x)]);
    assert {} + {0} == {0};
    FailingForecast(x);
    OneActForecast(FailingEvaluation(x), 1, {0});
    RenderForecast([FailingEvaluation(x)]);
    OneCallForecast(call, 1, {0});
    AttemptForecast([call]);
    OneCallForecast(Attempt([call]), 1, {0});
    SilentForecast([Attempt([call])], 0, {});
    OneActForecast(SectionCallback([Attempt([call])], Literally([])), 0, {});
    NotCareful(x);
  }

  lemma {:induction false} NotCareful(x: Bytes)
    ensures !Careful(CaughtEvaluation(x))
  {
    hide Escaped;
    var call := Render(0, None, [FailingEvaluation(x)]);
    assert !CalmAct([FailingEvaluation(x)][0]);
    assert !CalmCall([call][0]);
    assert !CarefulCall([Attempt([call])][0]);
    assert !CarefulAct(CaughtEvaluation(x)[0]);
  }

  /** The evaluation fails with x appended. */
  lemma {:induction false} FailingForecast(x: Bytes)
    ensures ActForecast(FailingEvaluation(x), 1, {0}) == Forecast(false, 2, 0, |x|)
  {
    hide ForecastOf, CallsForecast, CallForecast;
    var throwing := SectionCallback([Raise], Literally([]));
    assert CallForecast(Raise, 2, {0} + {1}) == Forecast(false, 2, 0, 0) by {
      RaiseForecast(2, {0} + {1});
    }
    OneCallForecast(Raise, 2, {0} + {1});
    TwoActsForecast(Emit(x), throwing, 1, {0});
    assert CallsForecast([], 1, {0}) == Forecast(true, 1, 0, 0) by {
      NoCallsForecast(1, {0});
    }
  }

  lemma {:induction false} RaiseForecast(next: nat, open: set<nat>)
    ensures CallForecast(Raise, next, open) == Forecast(false, next, 0, 0)
  {
  }

  lemma {:induction false} NoCallsForecast(next: nat, open: set<nat>)
    ensures CallsForecast([], next, open) == Forecast(true, next, 0, 0)
  {
  }

  lemma {:induction false} RenderForecast(body: seq<Act>)
    ensures CallForecast(Render(0, None, body), 1, {0}) == ForecastOf(body, 1, {0}).Aside()
  {
    hide ForecastOf;
  }

  lemma {:induction false} AttemptForecast(calls: seq<Call>)
    ensures CallForecast(Attempt(calls), 1, {0}) == CallsForecast(calls, 1, {0}).(passes := true)
  {
    hide CallsForecast;
  }

  /** A section callback that returns no text. */
  lemma {:induction false} SilentForecast(calls: seq<Call>, next: nat, open: set<nat>)
    ensures ActForecast(SectionCallback(calls, Literally([])), next, open) == CallsForecast(calls, next + 1, open + {next})
  {
    hide CallsForecast;
  }

  lemma {:induction false} OneActForecast(act: Act, next: nat, open: set<nat>)
    ensures ForecastOf([act], next, open) == ActForecast(act, next, open)
  {
    hide ActForecast;
    LastAct([act], 0, next, open);
    assert [act][..1] == [act] && [act][..0] == [];
  }

  lemma {:induction false} TwoActsForecast(a: Act, b: Act, next: nat, open: set<nat>)
    ensures var before := ActForecast(a, next, open);
            ForecastOf([a, b], next, open)
            == if before.passes then before.Then(ActForecast(b, before.contexts, open)) else before
  {
    hide ActForecast;
    OneActForecast(a, next, open);
    LastAct([a, b], 1, next, open);
    assert [a, b][..2] == [a, b] && [a, b][..1] == [a];
  }

  lemma {:induction false} OneCallForecast(call: Call, next: nat, open: set<nat>)
    ensures CallsForecast([call], next, open) == CallForecast(call, next, open)
  {
    hide CallForecast;
    LastCall([call], 0, next, open);
    assert [call][..1] == [call] && [call][..0] == [];
  }
}
