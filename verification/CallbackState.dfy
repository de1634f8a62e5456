/** The state of renderers with callbacks: scoped fields, buffers, contexts, the registry of open frames, and a ledger of whose
    bytes are where. What a run may do to it, and that runs compose. */
module CallbackState {
  import opened Base
  import opened RenderTrace
  import opened RenderLimits
  import opened CallbackScripts

  // ---- State ----------------------------------------------------------------------------------------

  /** Where a renderer writes: a buffer of some caller or callback, or the text of an evaluation under way, which no callback
      can get hold of. */
  datatype Target = Buffer(index: nat) | Evaluation(index: nat)

  /** A renderer: its output target, its budgets and its scoped state. */
  datatype RendererState = RendererState(
    output: Target,
    outputBytes: nat,
    nodeVisits: nat,
    stack: seq<nat>,
    frames: seq<nat>,
    activeDepth: nat,
    callbackDepth: nat,
    engine: nat,
    rendering: bool)

  /** An entry of the registry of open callback frames. */
  datatype Scope = Scope(renderer: nat, engine: nat, context: nat)

  /** A context refers to its renderer until it is invalidated. The ledger says for every buffer and evaluation how many of
      its bytes are due to which renderer, and how many bytes of each are lost. */
  datatype Snapshot = Snapshot(
    renderers: seq<RendererState>,
    buffers: seq<Bytes>,
    evaluations: seq<Bytes>,
    contexts: seq<Option<nat>>,
    registry: seq<Scope>,
    authors: seq<multiset<nat>>,
    pending: seq<multiset<nat>>,
    lost: multiset<nat>)

  const NOTHING := Snapshot([], [], [], [], [], [], [], multiset{})

  predicate Exists(s: Snapshot, g: Target) {
    match g
    case Buffer(b) => b < |s.buffers|
    case Evaluation(i) => i < |s.evaluations|
  }

  function At(s: Snapshot, g: Target): Bytes
    requires Exists(s, g)
  {
    match g
    case Buffer(b) => s.buffers[b]
    case Evaluation(i) => s.evaluations[i]
  }

  // ---- The ledger -------------------------------------------------------------------------------------

  function Tally(shares: seq<multiset<nat>>): multiset<nat> {
    if shares == [] then multiset{} else shares[0] + Tally(shares[1..])
  }

  /** n bytes due to renderer r. */
  function By(r: nat, n: nat): multiset<nat> {
    multiset{}[r := n]
  }

  /** The bytes that renderer r has in buffers. */
  function Written(s: Snapshot, r: nat): nat {
    Tally(s.authors)[r]
  }

  /** Every byte that was ever charged and not taken back. */
  function AllBytes(s: Snapshot): multiset<nat> {
    Tally(s.authors) + Tally(s.pending) + s.lost
  }

  /** Every byte has an author. */
  predicate Signed(texts: seq<Bytes>, shares: seq<multiset<nat>>) {
    |texts| == |shares| && forall b :: 0 <= b < |texts| ==> |shares[b]| == |texts[b]|
  }

  /** What a renderer was charged is what it has in buffers and evaluations, and what was lost. */
  predicate Balanced(s: Snapshot) {
    && Signed(s.buffers, s.authors) && Signed(s.evaluations, s.pending)
    && Covered(s.renderers, AllBytes(s))
  }

  predicate Covered(rs: seq<RendererState>, all: multiset<nat>) {
    (forall r :: 0 <= r < |rs| ==> rs[r].outputBytes == all[r]) && forall r :: r in all ==> r < |rs|
  }

  function Charged(rs: seq<RendererState>): nat {
    if rs == [] then 0 else Charged(rs[..|rs| - 1]) + rs[|rs| - 1].outputBytes
  }

  function Sizes(bs: seq<Bytes>): nat {
    if bs == [] then 0 else |bs[0]| + Sizes(bs[1..])
  }

  lemma {:induction false} TallySnoc(shares: seq<multiset<nat>>, x: multiset<nat>)
    ensures Tally(shares + [x]) == Tally(shares) + x
  {
    if shares == [] {
      assert [] + [x] == [x] && [x][1..] == [];
    } else {
      assert (shares + [x])[1..] == shares[1..] + [x];
      TallySnoc(shares[1..], x);
    }
  }

  lemma {:induction false} TallyUpdate(shares: seq<multiset<nat>>, b: nat, more: multiset<nat>)
    requires b < |shares|
    ensures Tally(shares[b := shares[b] + more]) == Tally(shares) + more
  {
    var updated := shares[b := shares[b] + more];
    if b > 0 {
      TallyUpdate(shares[1..], b - 1, more);
      assert updated[1..] == shares[1..][b - 1 := shares[1..][b - 1] + more];
    } else {
      assert updated[1..] == shares[1..];
    }
  }

  lemma {:induction false} TallySize(texts: seq<Bytes>, shares: seq<multiset<nat>>)
    requires Signed(texts, shares)
    ensures |Tally(shares)| == Sizes(texts)
  {
    if texts != [] {
      TallySize(texts[1..], shares[1..]);
    }
  }

  lemma {:induction false} Summed(rs: seq<RendererState>, all: multiset<nat>)
    requires Covered(rs, all)
    ensures Charged(rs) == |all|
  {
    if rs != [] {
      var last := |rs| - 1;
      var rest := all[last := 0];
      assert forall r :: 0 <= r < last ==> rs[..last][r].outputBytes == rest[r];
      Summed(rs[..last], rest);
    } else {
      assert all == multiset{};
    }
  }

  /** Together, all renderers were charged for what is in the buffers and evaluations, and for what was lost. */
  lemma {:induction false} BalancedInAll(s: Snapshot)
    requires Balanced(s)
    ensures Charged(s.renderers) == Sizes(s.buffers) + Sizes(s.evaluations) + |s.lost|
  {
    TallySize(s.buffers, s.authors);
    TallySize(s.evaluations, s.pending);
    Summed(s.renderers, AllBytes(s));
  }

  // ---- The registry -------------------------------------------------------------------------------------

  function Frames(registry: seq<Scope>, r: nat): nat {
    if registry == [] then 0
    else Frames(registry[..|registry| - 1], r) + if registry[|registry| - 1].renderer == r then 1 else 0
  }

  /** The engine of the innermost open frame of that renderer. */
  function Innermost(registry: seq<Scope>, r: nat): Option<nat> {
    if registry == [] then None
    else
      var last := |registry| - 1;
      if registry[last].renderer == r then Some(registry[last].engine) else Innermost(registry[..last], r)
  }

  predicate ScopeOpen(s: Snapshot, x: Scope) {
    x.renderer < |s.renderers| && x.context < |s.contexts| && s.contexts[x.context] == Some(x.renderer)
    && s.renderers[x.renderer].engine == x.engine && s.renderers[x.renderer].rendering
  }

  predicate HasFrame(registry: seq<Scope>, k: nat) {
    exists i :: 0 <= i < |registry| && registry[i].context == k
  }

  /** The registry lists the open callback frames; a context is active exactly while its frame is open. */
  predicate Registered(s: Snapshot) {
    && (forall i :: 0 <= i < |s.registry| ==> ScopeOpen(s, s.registry[i]))
    && (forall i, j :: 0 <= i < j < |s.registry| ==> s.registry[i].context != s.registry[j].context)
    && (forall k :: 0 <= k < |s.contexts| && s.contexts[k].Some? ==> HasFrame(s.registry, k))
    && (forall r :: 0 <= r < |s.renderers| ==> s.renderers[r].callbackDepth == Frames(s.registry, r))
  }

  /** The contexts that are active. */
  function Open(contexts: seq<Option<nat>>): set<nat> {
    set k | 0 <= k < |contexts| && contexts[k].Some?
  }

  predicate Targeted(s: Snapshot) {
    forall r :: 0 <= r < |s.renderers| ==> Exists(s, s.renderers[r].output)
  }

  predicate Sound(s: Snapshot) {
    Targeted(s) && Balanced(s) && Registered(s)
  }

  // ---- What a run does ------------------------------------------------------------------------------------

  predicate SameScope(a: RendererState, b: RendererState) {
    a.output == b.output && a.stack == b.stack && a.frames == b.frames && a.activeDepth == b.activeDepth
    && a.callbackDepth == b.callbackDepth && a.engine == b.engine && a.rendering == b.rendering
  }

  /** From s to t every renderer got its scoped state back, no frame or evaluation is left open, every context made in
      between is inactive, and every renderer made in between is idle. */
  predicate Restored(s: Snapshot, t: Snapshot) {
    && |s.renderers| <= |t.renderers| && (forall r :: 0 <= r < |s.renderers| ==> SameScope(s.renderers[r], t.renderers[r]))
    && (forall r :: |s.renderers| <= r < |t.renderers| ==> Idle(t.renderers[r]))
    && t.registry == s.registry && |s.contexts| <= |t.contexts| && t.contexts[..|s.contexts|] == s.contexts
    && (forall k :: |s.contexts| <= k < |t.contexts| ==> t.contexts[k].None?)
    && |s.buffers| <= |t.buffers| && |s.evaluations| == |t.evaluations|
  }

  predicate Idle(x: RendererState) {
    x.output.Buffer? && !x.rendering && x.stack == [] && x.frames == [] && x.activeDepth == 0 && x.callbackDepth == 0
  }

  predicate Kept(s: Snapshot, t: Snapshot) {
    Sound(t) && Restored(s, t)
  }

  /** On success the target grew by the text; no other evaluation has changed in any case, and no other buffer if callbacks
      write to buffers of their own only. */
  ghost predicate Delivered(s: Snapshot, t: Snapshot, target: Target, text: Bytes, o: Outcome, own: bool) {
    && (forall g :: Exists(s, g) ==> Exists(t, g))
    && (forall g :: Exists(s, g) && (own || g.Evaluation?) && g != target ==> At(t, g) == At(s, g))
    && (Exists(s, target) && (own || target.Evaluation?) && o.Pass? ==> At(t, target) == At(s, target) + text)
  }

  ghost predicate Untouched(s: Snapshot, t: Snapshot, own: bool) {
    && (forall g :: Exists(s, g) ==> Exists(t, g))
    && (forall g :: Exists(s, g) && (own || g.Evaluation?) ==> At(t, g) == At(s, g))
  }

  /** Nothing was charged, visited or written beyond these amounts. */
  ghost predicate Bounded(s: Snapshot, t: Snapshot, bytes: nat, visits: nat) {
    && |s.renderers| <= |t.renderers|
    && (forall r :: 0 <= r < |s.renderers| ==>
          t.renderers[r].outputBytes <= s.renderers[r].outputBytes + bytes
          && t.renderers[r].nodeVisits <= s.renderers[r].nodeVisits + visits)
    && (forall r :: |s.renderers| <= r < |t.renderers| ==>
          t.renderers[r].outputBytes <= bytes && t.renderers[r].nodeVisits <= visits)
    && (forall g :: Exists(t, g) ==> |At(t, g)| <= bytes + if Exists(s, g) then |At(s, g)| else 0)
  }

  function Ceiling(limits: Limits): nat {
    if limits.maxNestingDepth < NESTING_CEILING then limits.maxNestingDepth else NESTING_CEILING
  }

  /** Room for that much more, whoever consumes it. */
  ghost predicate Room(s: Snapshot, limits: Limits, cost: Cost) {
    && cost.bytes <= limits.maxOutputBytes && cost.visits <= limits.maxNodeVisits && cost.height < Ceiling(limits)
    && (forall r :: 0 <= r < |s.renderers| ==>
          var x := s.renderers[r];
          x.outputBytes + cost.bytes <= limits.maxOutputBytes && x.nodeVisits + cost.visits <= limits.maxNodeVisits
          && x.activeDepth + cost.height < Ceiling(limits))
    && (forall g :: Exists(s, g) ==> |At(s, g)| + cost.bytes <= limits.maxOutputBytes)
  }

  /** The run ended as forecast. */
  predicate Foretold(s: Snapshot, t: Snapshot, f: Forecast, o: Outcome) {
    (o.Pass? <==> f.passes) && |t.contexts| == f.contexts && |t.lost| == |s.lost| + f.lost
  }

  predicate Appended(s: Snapshot, t: Snapshot, target: Target, n: nat) {
    target.Evaluation? && Exists(s, target) && Exists(t, target) ==> |At(t, target)| == |At(s, target)| + n
  }

  /** What can be told of a stretch of a script before it runs. */
  datatype Prospect = Prospect(text: Bytes, own: bool, quiet: bool, calm: bool, careful: bool, cost: Cost, forecast: Forecast)

  function OfActs(acts: seq<Act>, s: Snapshot): Prospect {
    Prospect(TextOf(acts), OwnBuffers(acts), Quiet(acts), Calm(acts), Careful(acts), CostOf(acts),
             ForecastOf(acts, |s.contexts|, Open(s.contexts)))
  }

  function OfAct(act: Act, s: Snapshot): Prospect {
    Prospect(ActText(act), OwnAct(act), QuietAct(act), CalmAct(act), CarefulAct(act), ActCost(act),
             ActForecast(act, |s.contexts|, Open(s.contexts)))
  }

  function OfReturned(returned: Returned, s: Snapshot): Prospect {
    Prospect(ReturnedText(returned), OwnReturned(returned), QuietReturned(returned), CalmReturned(returned),
             CarefulReturned(returned), ReturnedCost(returned), ReturnedForecast(returned, |s.contexts|, Open(s.contexts)))
  }

  function OfEscaped(returned: Returned, s: Snapshot): Prospect {
    Prospect(Escaped(ReturnedText(returned)), OwnReturned(returned), QuietReturned(returned),
             returned.Literally?, CarefulReturned(returned), EscapedCost(returned),
             EscapedForecast(returned, |s.contexts|, Open(s.contexts)))
  }

  function OfCalls(calls: seq<Call>, s: Snapshot): Prospect {
    Prospect([], OwnCalls(calls), calls == [], CalmCalls(calls), CarefulCalls(calls), CallsCost(calls),
             CallsForecast(calls, |s.contexts|, Open(s.contexts)))
  }

  function OfCall(call: Call, s: Snapshot): Prospect {
    Prospect([], OwnCall(call), false, CalmCall(call), CarefulCall(call), CallCost(call),
             CallForecast(call, |s.contexts|, Open(s.contexts)))
  }

  /** Bytes are lost by failures only, and only around evaluations. */
  predicate Saved(s: Snapshot, t: Snapshot, p: Prospect, o: Outcome) {
    (p.calm || (p.careful && o.Pass?)) ==> t.lost == s.lost
  }

  /** Renderer r has run a stretch of a script. */
  ghost predicate Ran(s: Snapshot, t: Snapshot, r: nat, depth: nat, limits: Limits, p: Prospect, o: Outcome)
    requires r < |s.renderers|
  {
    && Kept(s, t) && Bounded(s, t, p.cost.bytes, p.cost.visits) && Saved(s, t, p, o)
    && Delivered(s, t, s.renderers[r].output, p.text, o, p.own)
    && (p.quiet && o.Pass? ==> t.renderers[r].outputBytes == s.renderers[r].outputBytes + |p.text|)
    && (Room(s, limits, p.cost) && depth + p.cost.height < Ceiling(limits) ==>
          Foretold(s, t, p.forecast, o) && Appended(s, t, s.renderers[r].output, p.forecast.appended))
  }

  predicate SameCharges(s: Snapshot, t: Snapshot) {
    |s.renderers| <= |t.renderers|
    && forall r :: 0 <= r < |s.renderers| ==> t.renderers[r].outputBytes == s.renderers[r].outputBytes
  }

  /** A callback has made its calls. */
  ghost predicate Called(s: Snapshot, t: Snapshot, limits: Limits, p: Prospect, o: Outcome) {
    && Kept(s, t) && Bounded(s, t, p.cost.bytes, p.cost.visits) && Saved(s, t, p, o)
    && Untouched(s, t, p.own)
    && (p.quiet ==> SameCharges(s, t))
    && (Room(s, limits, p.cost) ==> Foretold(s, t, p.forecast, o))
  }

  // ---- One run after another --------------------------------------------------------------------------------

  lemma {:induction false} RestoredTwice(s: Snapshot, t: Snapshot, u: Snapshot)
    requires Restored(s, t) && Restored(t, u)
    ensures Restored(s, u)
  {
    assert u.contexts[..|s.contexts|] == u.contexts[..|t.contexts|][..|s.contexts|];
    forall k | |s.contexts| <= k < |u.contexts|
      ensures u.contexts[k].None?
    {
      if k < |t.contexts| {
        assert u.contexts[k] == u.contexts[..|t.contexts|][k];
      }
    }
    forall r | |s.renderers| <= r < |u.renderers|
      ensures Idle(u.renderers[r])
    {
      if r < |t.renderers| {
        assert SameScope(t.renderers[r], u.renderers[r]);
      }
    }
  }

  lemma {:induction false} KeptTwice(s: Snapshot, t: Snapshot, u: Snapshot)
    requires Kept(s, t) && Kept(t, u)
    ensures Kept(s, u)
  {
    hide Sound;
    RestoredTwice(s, t, u);
  }

  lemma {:induction false} StillOpen(s: Snapshot, t: Snapshot)
    requires Restored(s, t)
    ensures Open(t.contexts) == Open(s.contexts)
  {
    forall k | 0 <= k < |t.contexts|
      ensures k in Open(t.contexts) <==> k in Open(s.contexts)
    {
      if k < |s.contexts| {
        assert t.contexts[k] == t.contexts[..|s.contexts|][k];
      }
    }
  }

  lemma {:induction false} BoundedTwice(s: Snapshot, t: Snapshot, u: Snapshot, a: Cost, b: Cost)
    requires Bounded(s, t, a.bytes, a.visits) && Bounded(t, u, b.bytes, b.visits)
    requires forall g :: Exists(s, g) ==> Exists(t, g)
    ensures Bounded(s, u, a.bytes + b.bytes, a.visits + b.visits)
  {
    forall g | Exists(u, g)
      ensures |At(u, g)| <= a.bytes + b.bytes + if Exists(s, g) then |At(s, g)| else 0
    {
      assert Exists(t, g) || !Exists(t, g);
    }
  }

  lemma {:induction false} DeliveredTwice(s: Snapshot, t: Snapshot, u: Snapshot, target: Target, a: Bytes, b: Bytes,
                                          o: Outcome, own: bool)
    requires Delivered(s, t, target, a, Pass, own) && Delivered(t, u, target, b, o, own)
    ensures Delivered(s, u, target, a + b, o, own)
  {
    if Exists(s, target) && (own || target.Evaluation?) && o.Pass? {
      assert At(s, target) + a + b == At(s, target) + (a + b);
    }
  }

  /** Room for both leaves room for the second after the first. */
  lemma {:induction false} RoomLeft(s: Snapshot, t: Snapshot, limits: Limits, a: Cost, b: Cost)
    requires Room(s, limits, a.Plus(b)) && Bounded(s, t, a.bytes, a.visits) && Restored(s, t)
    ensures Room(s, limits, a) && Room(t, limits, b)
  {
    forall r | 0 <= r < |t.renderers|
      ensures var x := t.renderers[r];
              x.outputBytes + b.bytes <= limits.maxOutputBytes && x.nodeVisits + b.visits <= limits.maxNodeVisits
              && x.activeDepth + b.height < Ceiling(limits)
    {
      if r < |s.renderers| {
        assert SameScope(s.renderers[r], t.renderers[r]);
      } else {
        assert Idle(t.renderers[r]);
      }
    }
    forall g | Exists(t, g)
      ensures |At(t, g)| + b.bytes <= limits.maxOutputBytes
    {
      assert Exists(s, g) || !Exists(s, g);
    }
  }

  lemma {:induction false} RoomLess(s: Snapshot, limits: Limits, less: Cost, more: Cost)
    requires Room(s, limits, more)
    requires less.bytes <= more.bytes && less.visits <= more.visits && less.height <= more.height
    ensures Room(s, limits, less)
  {
  }

  lemma {:induction false} ForetoldTwice(s: Snapshot, t: Snapshot, u: Snapshot, a: Forecast, b: Forecast, o: Outcome)
    requires Foretold(s, t, a, Pass) && Foretold(t, u, b, o)
    ensures a.passes && |t.contexts| == a.contexts && Foretold(s, u, a.Then(b), o)
  {
  }

  /** c promises what a and then b promise. */
  predicate Joins(a: Prospect, b: Prospect, c: Prospect) {
    c.text == a.text + b.text && c.cost == a.cost.Plus(b.cost) && (c.own ==> a.own && b.own) && (c.quiet ==> a.quiet && b.quiet)
    && (c.calm ==> a.calm && b.calm) && (c.careful ==> a.careful && b.careful)
  }

  lemma {:induction false} RanTwice(s: Snapshot, t: Snapshot, u: Snapshot, r: nat, depth: nat, limits: Limits,
                                    a: Prospect, b: Prospect, c: Prospect, o: Outcome)
    requires r < |s.renderers| && r < |t.renderers|
    requires Ran(s, t, r, depth, limits, a, Pass) && Ran(t, u, r, depth, limits, b, o) && Joins(a, b, c)
    requires a.forecast.passes && |t.contexts| == a.forecast.contexts ==> c.forecast == a.forecast.Then(b.forecast)
    ensures Ran(s, u, r, depth, limits, c, o)
  {
    hide Sound, Bounded, Delivered, Room, Foretold, Restored;
    var target := s.renderers[r].output;
    SameTarget(s, t, r);
    KeptTwice(s, t, u);
    Reaches(s, t, target, a.text, Pass, a.own);
    BoundedTwice(s, t, u, a.cost, b.cost);
    if c.own {
      DeliveredTwice(s, t, u, target, a.text, b.text, o, true);
    } else {
      NotOwn(s, t, target, a.text, Pass, a.own);
      NotOwn(t, u, target, b.text, o, b.own);
      DeliveredTwice(s, t, u, target, a.text, b.text, o, false);
    }
    if Room(s, limits, c.cost) && depth + c.cost.height < Ceiling(limits) {
      RoomLeft(s, t, limits, a.cost, b.cost);
      ForetoldTwice(s, t, u, a.forecast, b.forecast, o);
    }
  }

  lemma {:induction false} SameTarget(s: Snapshot, t: Snapshot, r: nat)
    requires Restored(s, t) && r < |s.renderers|
    ensures r < |t.renderers| && SameScope(s.renderers[r], t.renderers[r])
  {
  }

  lemma {:induction false} Reaches(s: Snapshot, t: Snapshot, target: Target, text: Bytes, o: Outcome, own: bool)
    requires Delivered(s, t, target, text, o, own)
    ensures forall g :: Exists(s, g) ==> Exists(t, g)
  {
  }

  lemma {:induction false} NotOwn(s: Snapshot, t: Snapshot, target: Target, text: Bytes, o: Outcome, own: bool)
    requires Delivered(s, t, target, text, o, own)
    ensures Delivered(s, t, target, text, o, false)
  {
  }

  lemma {:induction false} CalledTwice(s: Snapshot, t: Snapshot, u: Snapshot, limits: Limits,
                                       a: Prospect, b: Prospect, c: Prospect, o: Outcome)
    requires Called(s, t, limits, a, Pass) && Called(t, u, limits, b, o) && Joins(a, b, c)
    requires a.forecast.passes && |t.contexts| == a.forecast.contexts ==> c.forecast == a.forecast.Then(b.forecast)
    ensures Called(s, u, limits, c, o)
  {
    hide Sound, Bounded, Room, Foretold, Restored;
    KeptTwice(s, t, u);
    BoundedTwice(s, t, u, a.cost, b.cost);
    FewerRenderers(s, t);
    if Room(s, limits, c.cost) {
      RoomLeft(s, t, limits, a.cost, b.cost);
      ForetoldTwice(s, t, u, a.forecast, b.forecast, o);
    }
  }

  lemma {:induction false} FewerRenderers(s: Snapshot, t: Snapshot)
    requires Restored(s, t)
    ensures |s.renderers| <= |t.renderers|
  {
  }

  /** A callback's calls, as part of rendering. */
  lemma {:induction false} CalledRan(s: Snapshot, t: Snapshot, r: nat, depth: nat, limits: Limits, p: Prospect, o: Outcome)
    requires r < |s.renderers| && Called(s, t, limits, p, o) && p.text == [] && p.forecast.appended == 0
    ensures Ran(s, t, r, depth, limits, p, o)
  {
    hide Sound, Bounded, Room, Foretold, Restored;
    var target := s.renderers[r].output;
    FewerRenderers(s, t);
    if Exists(s, target) {
      assert At(s, target) + [] == At(s, target);
    }
  }

  /** A promise of less; after a failure, of any text, and of the forecast if that was a failure. */
  predicate Covers(p: Prospect, q: Prospect, o: Outcome) {
    && (o.Pass? ==> q.text == p.text) && ((o.Fail? && p.forecast.passes) || q.forecast == p.forecast)
    && (q.own ==> p.own) && (q.quiet ==> p.quiet) && (q.calm ==> p.calm) && (q.careful ==> p.careful)
    && p.cost.bytes <= q.cost.bytes && p.cost.visits <= q.cost.visits && p.cost.height <= q.cost.height
  }

  lemma {:induction false} BoundedLess(s: Snapshot, t: Snapshot, p: Cost, q: Cost)
    requires Bounded(s, t, p.bytes, p.visits) && p.bytes <= q.bytes && p.visits <= q.visits
    ensures Bounded(s, t, q.bytes, q.visits)
  {
  }

  lemma {:induction false} RanLess(s: Snapshot, t: Snapshot, r: nat, deeper: nat, depth: nat, limits: Limits,
                                   p: Prospect, q: Prospect, o: Outcome)
    requires r < |s.renderers| && Ran(s, t, r, deeper, limits, p, o) && Covers(p, q, o)
    requires deeper + p.cost.height <= depth + q.cost.height
    ensures Ran(s, t, r, depth, limits, q, o)
  {
    hide Kept, Bounded, Room;
    BoundedLess(s, t, p.cost, q.cost);
    if Room(s, limits, q.cost) {
      RoomLess(s, limits, p.cost, q.cost);
    }
  }

  lemma {:induction false} CalledLess(s: Snapshot, t: Snapshot, limits: Limits, p: Prospect, q: Prospect, o: Outcome)
    requires Called(s, t, limits, p, o) && Covers(p, q, o)
    ensures Called(s, t, limits, q, o)
  {
    hide Kept, Bounded, Room;
    BoundedLess(s, t, p.cost, q.cost);
    if Room(s, limits, q.cost) {
      RoomLess(s, limits, p.cost, q.cost);
    }
  }

  // ---- Nothing happens -----------------------------------------------------------------------------------

  lemma {:induction false} KeptNothing(s: Snapshot)
    requires Sound(s)
    ensures Kept(s, s)
  {
    assert s.contexts[..|s.contexts|] == s.contexts;
  }

  /** A refusal that room would have prevented. */
  lemma {:induction false} Refused(s: Snapshot, r: nat, depth: nat, limits: Limits, p: Prospect, o: Outcome)
    requires Sound(s) && r < |s.renderers| && o.Fail?
    requires !Room(s, limits, p.cost) || depth + p.cost.height >= Ceiling(limits)
             || p.forecast == Forecast(false, |s.contexts|, 0, 0)
    ensures Ran(s, s, r, depth, limits, p, o)
  {
    hide Sound, Room;
    KeptNothing(s);
  }

  lemma {:induction false} NothingRan(s: Snapshot, r: nat, depth: nat, limits: Limits, p: Prospect)
    requires Sound(s) && r < |s.renderers| && p.text == [] && p.forecast == Forecast(true, |s.contexts|, 0, 0)
    ensures Ran(s, s, r, depth, limits, p, Pass)
  {
    hide Sound, Room;
    KeptNothing(s);
    var target := s.renderers[r].output;
    if Exists(s, target) {
      assert At(s, target) + [] == At(s, target);
    }
  }

  lemma {:induction false} NothingCalled(s: Snapshot, limits: Limits, p: Prospect, o: Outcome)
    requires Sound(s) && p.forecast == Forecast(o.Pass?, |s.contexts|, 0, 0)
    ensures Called(s, s, limits, p, o)
  {
    hide Sound, Room;
    KeptNothing(s);
  }

  // ---- Changes that keep the invariant ------------------------------------------------------------------------

  /** The registry does not depend on anything else about renderers. */
  predicate SameFrames(s: Snapshot, t: Snapshot) {
    && t.registry == s.registry && t.contexts == s.contexts && |s.renderers| <= |t.renderers|
    && (forall r :: 0 <= r < |s.renderers| ==>
          var x, y := s.renderers[r], t.renderers[r];
          x.callbackDepth == y.callbackDepth && x.engine == y.engine && x.rendering == y.rendering)
    && (forall r :: |s.renderers| <= r < |t.renderers| ==> t.renderers[r].callbackDepth == 0)
  }

  lemma {:induction false} StaysRegistered(s: Snapshot, t: Snapshot)
    requires Registered(s) && SameFrames(s, t)
    ensures Registered(t)
  {
    hide Frames;
    forall i | 0 <= i < |t.registry|
      ensures ScopeOpen(t, t.registry[i])
    {
      assert ScopeOpen(s, s.registry[i]);
    }
    forall r | |s.renderers| <= r < |t.renderers|
      ensures t.renderers[r].callbackDepth == Frames(t.registry, r)
    {
      NoFramesOf(s, s.registry, r);
    }
  }

  lemma {:induction false} NoFramesOf(s: Snapshot, registry: seq<Scope>, r: nat)
    requires r >= |s.renderers| && forall i :: 0 <= i < |registry| ==> ScopeOpen(s, registry[i])
    ensures Frames(registry, r) == 0
    decreases |registry|
  {
    if registry != [] {
      assert ScopeOpen(s, registry[|registry| - 1]);
      NoFramesOf(s, registry[..|registry| - 1], r);
    }
  }

  /** The ledger does not depend on anything else about renderers either. */
  predicate SameBooks(s: Snapshot, t: Snapshot) {
    && t.buffers == s.buffers && t.evaluations == s.evaluations && t.authors == s.authors && t.pending == s.pending
    && t.lost == s.lost && |t.renderers| == |s.renderers|
    && forall r :: 0 <= r < |s.renderers| ==> t.renderers[r].outputBytes == s.renderers[r].outputBytes
  }

  lemma {:induction false} StaysBalanced(s: Snapshot, t: Snapshot)
    requires Balanced(s) && SameBooks(s, t)
    ensures Balanced(t)
  {
    hide Tally;
  }

  /** One more charge to renderer r, and as many bytes of it in the ledger. */
  lemma {:induction false} ChargedBalanced(s: Snapshot, t: Snapshot, r: nat, n: nat)
    requires Balanced(s) && r < |s.renderers| && |t.renderers| == |s.renderers|
    requires Signed(t.buffers, t.authors) && Signed(t.evaluations, t.pending)
    requires AllBytes(t) == AllBytes(s) + By(r, n)
    requires forall q :: 0 <= q < |s.renderers| ==>
               t.renderers[q].outputBytes == s.renderers[q].outputBytes + if q == r then n else 0
    ensures Balanced(t)
  {
    hide Covered, AllBytes;
    MoreCovered(s.renderers, t.renderers, AllBytes(s), r, n);
  }

  lemma {:induction false} MoreCovered(rs: seq<RendererState>, more: seq<RendererState>, all: multiset<nat>, r: nat, n: nat)
    requires Covered(rs, all) && r < |rs| && |more| == |rs|
    requires forall q :: 0 <= q < |rs| ==> more[q].outputBytes == rs[q].outputBytes + if q == r then n else 0
    ensures Covered(more, all + By(r, n))
  {
    var sum := all + By(r, n);
    forall q: nat
      ensures sum[q] == all[q] + if q == r then n else 0
    {
    }
    assert forall q :: q in sum ==> q in all || q == r;
  }

  /** Renderer r has written the value to the target. */
  function Credit(s: Snapshot, g: Target, value: Bytes, share: multiset<nat>): Snapshot
    requires Exists(s, g) && Signed(s.buffers, s.authors) && Signed(s.evaluations, s.pending)
  {
    match g
    case Buffer(b) => s.(buffers := s.buffers[b := s.buffers[b] + value], authors := s.authors[b := s.authors[b] + share])
    case Evaluation(i) =>
      s.(evaluations := s.evaluations[i := s.evaluations[i] + value], pending := s.pending[i := s.pending[i] + share])
  }

  lemma {:induction false} Credited(s: Snapshot, g: Target, value: Bytes, share: multiset<nat>)
    requires Exists(s, g) && Signed(s.buffers, s.authors) && Signed(s.evaluations, s.pending) && |share| == |value|
    ensures var t := Credit(s, g, value, share);
            && Signed(t.buffers, t.authors) && Signed(t.evaluations, t.pending) && AllBytes(t) == AllBytes(s) + share
            && (forall h :: Exists(t, h) <==> Exists(s, h))
            && (forall h :: Exists(s, h) ==> At(t, h) == At(s, h) + if h == g then value else [])
  {
    match g {
      case Buffer(b) => TallyUpdate(s.authors, b, share);
      case Evaluation(i) => TallyUpdate(s.pending, i, share);
    }
    var t := Credit(s, g, value, share);
    forall h | Exists(s, h)
      ensures At(t, h) == At(s, h) + if h == g then value else []
    {
      assert At(s, h) + [] == At(s, h);
    }
  }

  /** The state after appending. */
  function Wrote(s: Snapshot, r: nat, value: Bytes): Snapshot
    requires r < |s.renderers| && Exists(s, s.renderers[r].output)
    requires Signed(s.buffers, s.authors) && Signed(s.evaluations, s.pending)
  {
    var x := s.renderers[r];
    Credit(s, x.output, value, By(r, |value|)).(renderers := s.renderers[r := x.(outputBytes := x.outputBytes + |value|)])
  }

  lemma {:induction false} Available(s: Snapshot, r: nat)
    requires Sound(s) && r < |s.renderers|
    ensures Exists(s, s.renderers[r].output) && Signed(s.buffers, s.authors) && Signed(s.evaluations, s.pending)
  {
  }

  /** Appending is what an act without calls does. */
  predicate Writes(p: Prospect, s: Snapshot, value: Bytes) {
    p.text == value && p.cost.bytes >= |value| && p.forecast == Forecast(true, |s.contexts|, |value|, 0)
  }

  lemma {:induction false} WroteRan(s: Snapshot, r: nat, value: Bytes, depth: nat, limits: Limits, p: Prospect)
    requires Sound(s) && r < |s.renderers| && Exists(s, s.renderers[r].output)
    requires Signed(s.buffers, s.authors) && Signed(s.evaluations, s.pending) && Writes(p, s, value)
    ensures Ran(s, Wrote(s, r, value), r, depth, limits, p, Pass)
  {
    hide Registered, Room, AllBytes, Credit, Signed, By;
    var t, x := Wrote(s, r, value), s.renderers[r];
    BySize(r, |value|);
    Credited(s, x.output, value, By(r, |value|));
    CreditFields(s, x.output, value, By(r, |value|));
    SameAllBytes(Credit(s, x.output, value, By(r, |value|)), t);
    ChargedBalanced(s, t, r, |value|);
    StaysRegistered(s, t);
    assert t.contexts[..|s.contexts|] == s.contexts;
  }

  lemma {:induction false} BySize(r: nat, n: nat)
    ensures |By(r, n)| == n
  {
  }

  lemma {:induction false} CreditFields(s: Snapshot, g: Target, value: Bytes, share: multiset<nat>)
    requires Exists(s, g) && Signed(s.buffers, s.authors) && Signed(s.evaluations, s.pending)
    ensures var t := Credit(s, g, value, share);
            t.renderers == s.renderers && t.contexts == s.contexts && t.registry == s.registry && t.lost == s.lost
            && |t.buffers| == |s.buffers| && |t.evaluations| == |s.evaluations|
  {
  }

  lemma {:induction false} SameAllBytes(s: Snapshot, t: Snapshot)
    requires t == s.(renderers := t.renderers)
    ensures AllBytes(t) == AllBytes(s) && forall g :: (Exists(t, g) <==> Exists(s, g)) && (Exists(s, g) ==> At(t, g) == At(s, g))
  {
  }
  // ---- Scopes -----------------------------------------------------------------------------------------------

  /** Renderer r with other scoped fields, and perhaps one more visit, but the same output. */
  predicate Entered(s: Snapshot, s1: Snapshot, r: nat, visits: nat) {
    r < |s.renderers| && |s1.renderers| == |s.renderers| && s1 == s.(renderers := s.renderers[r := s1.renderers[r]])
    && var x, y := s.renderers[r], s1.renderers[r];
       y.output == x.output && y.outputBytes == x.outputBytes && y.nodeVisits == x.nodeVisits + visits
       && y.callbackDepth == x.callbackDepth && y.engine == x.engine && y.rendering == x.rendering
  }

  /** The scoped fields of renderer r as they were in s. */
  function Left(s: Snapshot, t1: Snapshot, r: nat): Snapshot
    requires r < |s.renderers| && r < |t1.renderers|
  {
    var x := t1.renderers[r];
    t1.(renderers := t1.renderers[r := s.renderers[r].(outputBytes := x.outputBytes, nodeVisits := x.nodeVisits)])
  }

  lemma {:induction false} EnteredSound(s: Snapshot, s1: Snapshot, r: nat, visits: nat)
    requires Sound(s) && Entered(s, s1, r, visits)
    ensures Sound(s1)
  {
    hide Balanced, Registered;
    StaysBalanced(s, s1);
    StaysRegistered(s, s1);
  }

  lemma {:induction false} LeftKept(s: Snapshot, s1: Snapshot, t1: Snapshot, r: nat, visits: nat)
    requires Sound(s) && Entered(s, s1, r, visits) && Kept(s1, t1)
    ensures r < |t1.renderers| && Kept(s, Left(s, t1, r))
  {
    hide Balanced, Registered;
    SameTarget(s1, t1, r);
    var t := Left(s, t1, r);
    StaysBalanced(t1, t);
    StaysRegistered(t1, t);
  }

  /** A scope around a run: whatever ran, putting the scoped fields back restores them. */
  lemma {:induction false} Around(s: Snapshot, s1: Snapshot, t1: Snapshot, r: nat, visits: nat, depth: nat, limits: Limits,
                                  p: Prospect, o: Outcome)
    requires Sound(s) && Entered(s, s1, r, visits) && Ran(s1, t1, r, depth, limits, p, o)
    requires s1.renderers[r].activeDepth == s.renderers[r].activeDepth || s1.renderers[r].activeDepth == depth
    ensures r < |t1.renderers|
    ensures Ran(s, Left(s, t1, r), r, depth, limits, p.(cost := p.cost.(visits := p.cost.visits + visits)), o)
  {
    hide Sound;
    LeftKept(s, s1, t1, r, visits);
    var t, q := Left(s, t1, r), p.(cost := p.cost.(visits := p.cost.visits + visits));
    AroundBounded(s, s1, t1, r, visits, p);
    AroundDelivered(s, s1, t1, r, visits, s.renderers[r].output, p.text, o, p.own);
    if Room(s, limits, q.cost) && depth + q.cost.height < Ceiling(limits) {
      AroundRoom(s, s1, r, visits, depth, limits, p.cost);
    }
  }

  lemma {:induction false} AroundBounded(s: Snapshot, s1: Snapshot, t1: Snapshot, r: nat, visits: nat, p: Prospect)
    requires Entered(s, s1, r, visits) && r < |t1.renderers| && Bounded(s1, t1, p.cost.bytes, p.cost.visits)
    ensures Bounded(s, Left(s, t1, r), p.cost.bytes, p.cost.visits + visits)
  {
    var t := Left(s, t1, r);
    forall g | Exists(t, g)
      ensures |At(t, g)| <= p.cost.bytes + if Exists(s, g) then |At(s, g)| else 0
    {
      assert Exists(t1, g) && At(t1, g) == At(t, g) && (Exists(s1, g) <==> Exists(s, g));
    }
  }

  lemma {:induction false} AroundDelivered(s: Snapshot, s1: Snapshot, t1: Snapshot, r: nat, visits: nat, target: Target,
                                           text: Bytes, o: Outcome, own: bool)
    requires Entered(s, s1, r, visits) && r < |t1.renderers| && Delivered(s1, t1, target, text, o, own)
    ensures Delivered(s, Left(s, t1, r), target, text, o, own)
  {
    var t := Left(s, t1, r);
    forall g | Exists(s, g)
      ensures Exists(t, g) && At(s1, g) == At(s, g) && At(t, g) == At(t1, g)
    {
      assert Exists(s1, g);
    }
  }

  lemma {:induction false} AroundRoom(s: Snapshot, s1: Snapshot, r: nat, visits: nat, depth: nat, limits: Limits, c: Cost)
    requires Entered(s, s1, r, visits) && Room(s, limits, c.(visits := c.visits + visits))
    requires depth + c.height < Ceiling(limits)
    requires s1.renderers[r].activeDepth == s.renderers[r].activeDepth || s1.renderers[r].activeDepth == depth
    ensures Room(s1, limits, c)
  {
    forall g | Exists(s1, g)
      ensures |At(s1, g)| + c.bytes <= limits.maxOutputBytes
    {
      assert Exists(s, g) && At(s, g) == At(s1, g);
    }
  }

  // ---- Callback frames ------------------------------------------------------------------------------------

  /** The state with one more callback frame of renderer r open. */
  function WithFrame(s: Snapshot, r: nat): Snapshot
    requires r < |s.renderers|
  {
    var x := s.renderers[r];
    s.(renderers := s.renderers[r := x.(callbackDepth := x.callbackDepth + 1)],
       contexts := s.contexts + [Some(r)], registry := s.registry + [Scope(r, x.engine, |s.contexts|)])
  }

  /** The state with its innermost frame, of renderer r and with context k, closed. */
  function WithoutFrame(s: Snapshot, r: nat, k: nat): Snapshot
    requires r < |s.renderers| && k < |s.contexts| && s.registry != [] && s.renderers[r].callbackDepth > 0
  {
    var x := s.renderers[r];
    s.(renderers := s.renderers[r := x.(callbackDepth := x.callbackDepth - 1)],
       contexts := s.contexts[k := None], registry := s.registry[..|s.registry| - 1])
  }

  lemma {:induction false} FrameOpens(s: Snapshot, r: nat)
    requires Sound(s) && r < |s.renderers| && s.renderers[r].rendering
    ensures Sound(WithFrame(s, r)) && Open(WithFrame(s, r).contexts) == Open(s.contexts) + {|s.contexts|}
  {
    hide Frames, Balanced;
    var t := WithFrame(s, r);
    StaysBalanced(s, t);
    var n := |s.registry|;
    assert t.registry[..n] == s.registry;
    forall i | 0 <= i < |t.registry|
      ensures ScopeOpen(t, t.registry[i])
    {
      if i < n {
        assert ScopeOpen(s, s.registry[i]);
      }
    }
    forall k | 0 <= k < |t.contexts| && t.contexts[k].Some?
      ensures HasFrame(t.registry, k)
    {
      if k < |s.contexts| {
        var i :| 0 <= i < n && s.registry[i].context == k;
        assert t.registry[i].context == k;
      } else {
        assert t.registry[n].context == k;
      }
    }
    forall q | 0 <= q < |t.renderers|
      ensures t.renderers[q].callbackDepth == Frames(t.registry, q)
    {
      FramesSnoc(s.registry, t.registry[n], q);
    }
  }

  lemma {:induction false} FramesSnoc(registry: seq<Scope>, x: Scope, r: nat)
    ensures Frames(registry + [x], r) == Frames(registry, r) + if x.renderer == r then 1 else 0
  {
    assert (registry + [x])[..|registry|] == registry;
  }

  /** When the frame closes, its context is invalidated and everything else is as before. */
  lemma {:induction false} FrameCloses(s: Snapshot, r: nat, t1: Snapshot)
    requires Sound(s) && r < |s.renderers| && s.renderers[r].rendering && Kept(WithFrame(s, r), t1)
    ensures r < |t1.renderers| && |s.contexts| < |t1.contexts| && t1.registry != [] && t1.renderers[r].callbackDepth > 0
    ensures Kept(s, WithoutFrame(t1, r, |s.contexts|))
  {
    hide Frames, Balanced;
    var s1, k := WithFrame(s, r), |s.contexts|;
    assert t1.registry == s.registry + [Scope(r, s.renderers[r].engine, k)];
    assert SameScope(s1.renderers[r], t1.renderers[r]);
    var t := WithoutFrame(t1, r, k);
    assert t.registry == s.registry;
    assert t1.contexts[..k + 1] == s1.contexts;
    FrameGone(t1, r, k);
    assert t.contexts[..k] == s.contexts by {
      assert t.contexts[..k] == t1.contexts[..k + 1][..k];
    }
    forall j | k <= j < |t.contexts|
      ensures t.contexts[j].None?
    {
      assert j > k ==> t1.contexts[j].None?;
    }
  }

  lemma {:induction false} FrameGone(t1: Snapshot, r: nat, k: nat)
    requires Sound(t1) && r < |t1.renderers| && k < |t1.contexts| && t1.registry != [] && t1.renderers[r].callbackDepth > 0
    requires var last := t1.registry[|t1.registry| - 1]; last.renderer == r && last.context == k
    ensures Sound(WithoutFrame(t1, r, k))
  {
    hide Frames, Balanced;
    var t, n := WithoutFrame(t1, r, k), |t1.registry| - 1;
    StaysBalanced(t1, t);
    assert t1.registry == t.registry + [t1.registry[n]];
    forall i | 0 <= i < n
      ensures ScopeOpen(t, t.registry[i])
    {
      assert ScopeOpen(t1, t1.registry[i]) && t1.registry[i].context != t1.registry[n].context;
    }
    forall j | 0 <= j < |t.contexts| && t.contexts[j].Some?
      ensures HasFrame(t.registry, j)
    {
      var i :| 0 <= i < |t1.registry| && t1.registry[i].context == j;
      assert i != n && t.registry[i].context == j;
    }
    forall q | 0 <= q < |t.renderers|
      ensures t.renderers[q].callbackDepth == Frames(t.registry, q)
    {
      FramesSnoc(t.registry, t1.registry[n], q);
    }
  }

  /** What a section callback does, with a context of its own. */
  function OfSection(calls: seq<Call>, s: Snapshot): Prospect {
    OfCalls(calls, s).(forecast := CallsForecast(calls, |s.contexts| + 1, Open(s.contexts) + {|s.contexts|}))
  }

  lemma {:induction false} FrameCalled(s: Snapshot, r: nat, calls: seq<Call>, t1: Snapshot, limits: Limits, o: Outcome)
    requires Sound(s) && r < |s.renderers| && s.renderers[r].rendering
    requires Called(WithFrame(s, r), t1, limits, OfCalls(calls, WithFrame(s, r)), o)
    ensures r < |t1.renderers| && |s.contexts| < |t1.contexts| && t1.registry != [] && t1.renderers[r].callbackDepth > 0
    ensures Called(s, WithoutFrame(t1, r, |s.contexts|), limits, OfSection(calls, s), o)
  {
    hide Sound, Balanced, Frames, OwnCalls, CalmCalls, CarefulCalls, CallsCost, CallsForecast;
    FrameOpens(s, r);
    FrameCloses(s, r, t1);
    var s1, t, p := WithFrame(s, r), WithoutFrame(t1, r, |s.contexts|), OfSection(calls, s);
    forall g
      ensures Exists(s1, g) <==> Exists(s, g)
      ensures Exists(s, g) ==> At(s1, g) == At(s, g)
      ensures Exists(t1, g) <==> Exists(t, g)
      ensures Exists(t, g) ==> At(t, g) == At(t1, g)
    {
    }
    assert Bounded(s, t, p.cost.bytes, p.cost.visits);
    if Room(s, limits, p.cost) {
      assert Room(s1, limits, p.cost);
    }
  }

  /** An active context has an open frame, so its renderer is rendering and inside a callback. */
  lemma {:induction false} ActiveContext(s: Snapshot, k: nat)
    requires Sound(s) && k < |s.contexts| && s.contexts[k].Some?
    ensures var r := s.contexts[k].value;
            r < |s.renderers| && s.renderers[r].rendering && s.renderers[r].callbackDepth > 0
            && Innermost(s.registry, r) == Some(s.renderers[r].engine)
  {
    hide Innermost;
    var i :| 0 <= i < |s.registry| && s.registry[i].context == k;
    assert ScopeOpen(s, s.registry[i]);
    var r := s.contexts[k].value;
    FramesAt(s.registry, i);
    EngineFound(s, r);
  }

  lemma {:induction false} FramesAt(registry: seq<Scope>, i: nat)
    requires i < |registry|
    ensures Frames(registry, registry[i].renderer) > 0
    decreases |registry|
  {
    var n := |registry| - 1;
    if i < n {
      FramesAt(registry[..n], i);
    }
  }

  /** Frame i is the renderer's, and none opened after it is. */
  predicate InnermostFrame(registry: seq<Scope>, r: nat, i: nat) {
    i < |registry| && registry[i].renderer == r && forall j :: i < j < |registry| ==> registry[j].renderer != r
  }

  /** The registry knows the engine of the frame that was opened last. */
  lemma {:induction false} LastOpenedWins(registry: seq<Scope>, r: nat)
    ensures forall i: nat :: InnermostFrame(registry, r, i) ==> Innermost(registry, r) == Some(registry[i].engine)
    ensures Innermost(registry, r).None? <==> forall i :: 0 <= i < |registry| ==> registry[i].renderer != r
  {
    if registry != [] {
      var last := |registry| - 1;
      LastOpenedWins(registry[..last], r);
      if registry[last].renderer != r {
        forall i: nat
          ensures InnermostFrame(registry, r, i) <==> InnermostFrame(registry[..last], r, i)
        {
        }
        assert forall i :: 0 <= i < last ==> registry[..last][i] == registry[i];
      }
    }
  }

  /** Whoever is called back has an engine to render with: the renderer's current one. */
  lemma {:induction false} EngineFound(s: Snapshot, r: nat)
    requires Registered(s) && r < |s.renderers|
    ensures s.renderers[r].callbackDepth > 0 <==> Innermost(s.registry, r).Some?
    ensures Innermost(s.registry, r).Some? ==> Innermost(s.registry, r).value == s.renderers[r].engine
  {
    InnermostOf(s, s.registry, r);
  }

  lemma {:induction false} InnermostOf(s: Snapshot, registry: seq<Scope>, r: nat)
    requires r < |s.renderers| && forall i :: 0 <= i < |registry| ==> ScopeOpen(s, registry[i])
    ensures Frames(registry, r) > 0 <==> Innermost(registry, r).Some?
    ensures Innermost(registry, r).Some? ==> Innermost(registry, r).value == s.renderers[r].engine
    decreases |registry|
  {
    if registry != [] {
      InnermostOf(s, registry[..|registry| - 1], r);
    }
  }

  // ---- Evaluations that are escaped as a whole --------------------------------------------------------------

  /** Renderer r in a line frame of its own, with its output redirected to a new evaluation. */
  function Redirected(s: Snapshot, r: nat): Snapshot
    requires r < |s.renderers|
  {
    var x := s.renderers[r];
    s.(renderers := s.renderers[r := x.(frames := x.frames + [0], output := Evaluation(|s.evaluations|))],
       evaluations := s.evaluations + [[]], pending := s.pending + [multiset{}])
  }

  /** The evaluation is over: scoped fields are as in s, and the evaluated text is gone. */
  function Popped(s: Snapshot, t1: Snapshot, r: nat): Snapshot
    requires r < |s.renderers| && r < |t1.renderers| && t1.evaluations != [] && t1.pending != []
  {
    Left(s, t1, r).(evaluations := t1.evaluations[..|t1.evaluations| - 1], pending := t1.pending[..|t1.pending| - 1])
  }

  /** An evaluation that failed: its text is lost, and so are the bytes charged for it. */
  function Dropped(s: Snapshot, t1: Snapshot, r: nat): Snapshot
    requires r < |s.renderers| && r < |t1.renderers| && t1.evaluations != [] && t1.pending != []
  {
    Popped(s, t1, r).(lost := t1.lost + t1.pending[|t1.pending| - 1])
  }

  /** An evaluation that passed: it was charged when it was rendered, so that escaping it adds the expansion only. */
  function Merged(s: Snapshot, t1: Snapshot, r: nat): Snapshot
    requires r < |s.renderers| && r < |t1.renderers| && t1.evaluations != [] && t1.pending != []
    requires var p := Popped(s, t1, r);
             Exists(p, s.renderers[r].output) && Signed(p.buffers, p.authors) && Signed(p.evaluations, p.pending)
  {
    var p, text := Popped(s, t1, r), t1.evaluations[|t1.evaluations| - 1];
    var more := |Escaped(text)| - |text|;
    var x := p.renderers[r];
    Credit(p, x.output, Escaped(text), t1.pending[|t1.pending| - 1] + By(r, more))
      .(renderers := p.renderers[r := x.(outputBytes := x.outputBytes + more)])
  }

  lemma {:induction false} RedirectedSound(s: Snapshot, r: nat)
    requires Sound(s) && r < |s.renderers|
    ensures Sound(Redirected(s, r))
  {
    hide Registered;
    var t := Redirected(s, r);
    TallySnoc(s.pending, multiset{});
    assert AllBytes(t) == AllBytes(s);
    StaysRegistered(s, t);
  }

  /** After the evaluation: everything but the ledger is in order. */
  lemma {:induction false} PoppedRestored(s: Snapshot, t1: Snapshot, r: nat)
    requires Sound(s) && r < |s.renderers| && Kept(Redirected(s, r), t1)
    ensures r < |t1.renderers| && |t1.evaluations| == |s.evaluations| + 1 && |t1.pending| == |t1.evaluations|
    ensures var t := Popped(s, t1, r);
            && Targeted(t) && Registered(t) && Restored(s, t)
            && Signed(t.buffers, t.authors) && Signed(t.evaluations, t.pending)
            && AllBytes(t) + t1.pending[|t1.pending| - 1] == AllBytes(t1)
            && t.renderers[r].outputBytes == t1.renderers[r].outputBytes
  {
    hide Registered, SameScope;
    var s1, n := Redirected(s, r), |s.evaluations|;
    SameTarget(s1, t1, r);
    var t := Popped(s, t1, r);
    assert t1.pending == t.pending + [t1.pending[n]];
    TallySnoc(t.pending, t1.pending[n]);
    forall q | 0 <= q < |s.renderers|
      ensures SameScope(s.renderers[q], t.renderers[q]) && Exists(t, t.renderers[q].output)
    {
      assert Exists(s, s.renderers[q].output);
      assert q != r ==> SameScope(s1.renderers[q], t1.renderers[q]);
      ScopeOutput(s.renderers[q], t.renderers[q], s1.renderers[q], q == r);
    }
    StaysRegistered(t1, t) by {
      ScopeFrames(s.renderers[r], s1.renderers[r], t1.renderers[r]);
    }
  }

  lemma {:induction false} ScopeOutput(a: RendererState, b: RendererState, c: RendererState, own: bool)
    requires if own then b == a.(outputBytes := b.outputBytes, nodeVisits := b.nodeVisits) else c == a && SameScope(c, b)
    ensures SameScope(a, b) && a.output == b.output
  {
  }

  lemma {:induction false} ScopeFrames(a: RendererState, b: RendererState, c: RendererState)
    requires SameScope(b, c) && b.callbackDepth == a.callbackDepth && b.engine == a.engine && b.rendering == a.rendering
    ensures c.callbackDepth == a.callbackDepth && c.engine == a.engine && c.rendering == a.rendering
  {
  }

  lemma {:induction false} DroppedKept(s: Snapshot, t1: Snapshot, r: nat)
    requires Sound(s) && r < |s.renderers| && Kept(Redirected(s, r), t1)
    ensures r < |t1.renderers| && t1.evaluations != [] && t1.pending != []
    ensures Kept(s, Dropped(s, t1, r))
  {
    hide Registered, Restored, Redirected;
    PoppedRestored(s, t1, r);
    var p, t := Popped(s, t1, r), Dropped(s, t1, r);
    assert AllBytes(t) == AllBytes(t1);
    StaysRegistered(p, t);
    SameRestored(s, p, t);
  }

  /** Restoring is not about the ledger. */
  lemma {:induction false} SameRestored(s: Snapshot, p: Snapshot, t: Snapshot)
    requires Restored(s, p) && |t.renderers| == |p.renderers| && t.registry == p.registry && t.contexts == p.contexts
    requires forall r :: 0 <= r < |p.renderers| ==>
               t.renderers[r] == p.renderers[r].(outputBytes := t.renderers[r].outputBytes)
    requires |t.buffers| == |p.buffers| && |t.evaluations| == |p.evaluations|
    ensures Restored(s, t)
  {
  }

  lemma {:induction false} MergedKept(s: Snapshot, t1: Snapshot, r: nat)
    requires Sound(s) && r < |s.renderers| && Kept(Redirected(s, r), t1)
    ensures r < |t1.renderers| && t1.evaluations != [] && t1.pending != []
    ensures var p := Popped(s, t1, r);
            Exists(p, s.renderers[r].output) && Signed(p.buffers, p.authors) && Signed(p.evaluations, p.pending)
    ensures Kept(s, Merged(s, t1, r))
  {
    hide Registered, Restored, Redirected, Escaped, Credit, By, AllBytes;
    PoppedRestored(s, t1, r);
    var p, t, n := Popped(s, t1, r), Merged(s, t1, r), |t1.evaluations| - 1;
    var text := t1.evaluations[n];
    var more := |Escaped(text)| - |text|;
    var share := t1.pending[n] + By(r, more);
    BySize(r, more);
    Credited(p, s.renderers[r].output, Escaped(text), share);
    CreditFields(p, s.renderers[r].output, Escaped(text), share);
    SameAllBytes(Credit(p, s.renderers[r].output, Escaped(text), share), t);
    assert AllBytes(p) + share == AllBytes(t1) + By(r, more);
    ChargedBalanced(t1, t, r, more);
    StaysRegistered(p, t);
    SameRestored(s, p, t);
  }

  /** The frame of what is not the target: Redirected, run, popped. */
  lemma {:induction false} PoppedTexts(s: Snapshot, t1: Snapshot, r: nat, text: Bytes, o: Outcome, own: bool)
    requires Sound(s) && r < |s.renderers| && Kept(Redirected(s, r), t1)
    requires Delivered(Redirected(s, r), t1, Evaluation(|s.evaluations|), text, o, own)
    ensures r < |t1.renderers| && |t1.evaluations| == |s.evaluations| + 1 && |t1.pending| == |t1.evaluations|
    ensures o.Pass? ==> t1.evaluations[|s.evaluations|] == text
    ensures Untouched(s, Popped(s, t1, r), own)
  {
    hide Registered, Balanced;
    PoppedRestored(s, t1, r);
    var s1, t := Redirected(s, r), Popped(s, t1, r);
    assert Exists(s1, Evaluation(|s.evaluations|)) && At(s1, Evaluation(|s.evaluations|)) == [];
    assert [] + text == text;
    forall g | Exists(s, g)
      ensures Exists(t, g) && (own || g.Evaluation? ==> At(t, g) == At(s, g))
    {
      assert Exists(s1, g) && At(s1, g) == At(s, g) && Exists(t1, g) && At(t1, g) == At(t, g);
    }
  }
  /** The acts as a node of their own. */
  function OfNode(acts: seq<Act>, s: Snapshot): Prospect {
    OfActs(acts, s).(cost := CostOf(acts).Node())
  }

  /** What is promised of an escaped evaluation. */
  function OfEvaluation(body: seq<Act>, s: Snapshot): Prospect {
    OfEscaped(Template(body), s)
  }

  lemma {:induction false} EvaluationFacts(body: seq<Act>, s: Snapshot)
    ensures var p, f, c := OfEvaluation(body, s), ForecastOf(body, |s.contexts|, Open(s.contexts)), CostOf(body);
            && p.text == Escaped(TextOf(body)) && p.own == OwnBuffers(body) && p.quiet == Quiet(body) && !p.calm
            && p.careful == Careful(body) && p.cost == Cost(c.bytes + EXPANSION * c.bytes, c.visits + 1, c.height + 1)
            && p.forecast == if f.passes then Forecast(true, f.contexts, |p.text|, f.lost)
                             else Forecast(false, f.contexts, 0, f.lost + f.appended)
  {
    hide TextOf, OwnBuffers, Quiet, Careful, CostOf, ForecastOf;
    assert ReturnedCost(Template(body)) == CostOf(body).Node().Below();
  }

  lemma {:induction false} RedirectedRoom(s: Snapshot, r: nat, depth: nat, limits: Limits, body: seq<Act>)
    requires Sound(s) && r < |s.renderers| && Room(s, limits, OfEvaluation(body, s).cost)
    requires depth + OfEvaluation(body, s).cost.height < Ceiling(limits)
    ensures Room(Redirected(s, r), limits, CostOf(body).Node()) && depth + 1 + CostOf(body).height < Ceiling(limits)
  {
    hide Sound, CostOf, TextOf, ForecastOf;
    EvaluationFacts(body, s);
    var s1, c := Redirected(s, r), CostOf(body).Node();
    forall g | Exists(s1, g)
      ensures |At(s1, g)| + c.bytes <= limits.maxOutputBytes
    {
      assert Exists(s, g) ==> At(s, g) == At(s1, g);
    }
  }

  /** What the evaluation has done by its end, seen from outside. */
  lemma {:induction false} PoppedBounded(s: Snapshot, t1: Snapshot, r: nat, c: Cost)
    requires Sound(s) && r < |s.renderers| && Kept(Redirected(s, r), t1)
    requires Bounded(Redirected(s, r), t1, c.bytes, c.visits)
    ensures r < |t1.renderers| && |t1.evaluations| == |s.evaluations| + 1 && |t1.pending| == |t1.evaluations|
    ensures |t1.evaluations[|s.evaluations|]| <= c.bytes
    ensures Bounded(s, Popped(s, t1, r), c.bytes, c.visits)
  {
    hide Registered, Balanced;
    PoppedRestored(s, t1, r);
    var s1, t, n := Redirected(s, r), Popped(s, t1, r), |s.evaluations|;
    assert Exists(t1, Evaluation(n)) && At(s1, Evaluation(n)) == [];
    forall g | Exists(t, g)
      ensures |At(t, g)| <= c.bytes + if Exists(s, g) then |At(s, g)| else 0
    {
      assert Exists(t1, g) && At(t1, g) == At(t, g) && (Exists(s1, g) <==> Exists(s, g));
      assert Exists(s, g) ==> At(s1, g) == At(s, g);
    }
  }

  /** Within the bounds there is room to merge. */
  lemma {:induction false} MergeFits(s: Snapshot, t1: Snapshot, r: nat, depth: nat, limits: Limits, body: seq<Act>)
    requires Sound(s) && r < |s.renderers|
    requires Ran(Redirected(s, r), t1, r, depth + 1, limits, OfNode(body, Redirected(s, r)), Pass)
    requires Room(s, limits, OfEvaluation(body, s).cost)
    ensures r < |t1.renderers| && |t1.evaluations| == |s.evaluations| + 1
    ensures var p, text := Popped(s, t1, r), t1.evaluations[|s.evaluations|];
            Exists(p, s.renderers[r].output)
            && |At(p, s.renderers[r].output)| + |Escaped(text)| <= limits.maxOutputBytes
            && p.renderers[r].outputBytes + (|Escaped(text)| - |text|) <= limits.maxOutputBytes
  {
    hide Sound, CostOf, TextOf, ForecastOf, OwnBuffers, Calm, Careful, Quiet, Escaped;
    EvaluationFacts(body, s);
    var c := CostOf(body);
    PoppedRestored(s, t1, r);
    PoppedBounded(s, t1, r, c.Node());
    var p, text, out := Popped(s, t1, r), t1.evaluations[|s.evaluations|], s.renderers[r].output;
    EscapedBound(text);
    Available(s, r);
    PoppedTexts(s, t1, r, TextOf(body), Pass, OwnBuffers(body));
    assert Exists(p, out);
    assert |At(p, out)| <= c.bytes + |At(s, out)|;
  }
  /** The evaluation failed, or escaping its text was refused: the bytes charged for it are lost. */
  lemma {:induction false} DroppedRan(s: Snapshot, t1: Snapshot, r: nat, depth: nat, limits: Limits, body: seq<Act>,
                                      evaluated: Outcome, o: Outcome)
    requires Sound(s) && r < |s.renderers| && o.Fail?
    requires Ran(Redirected(s, r), t1, r, depth + 1, limits, OfNode(body, Redirected(s, r)), evaluated)
    requires evaluated.Pass? ==> !Room(s, limits, OfEvaluation(body, s).cost)
    ensures r < |t1.renderers| && t1.evaluations != [] && t1.pending != []
    ensures Ran(s, Dropped(s, t1, r), r, depth, limits, OfEvaluation(body, s), o)
  {
    hide Sound, CostOf, TextOf, ForecastOf, OwnBuffers, Calm, Careful, Quiet, Escaped, Room, Registered;
    EvaluationFacts(body, s);
    var s1, c, q := Redirected(s, r), CostOf(body).Node(), OfEvaluation(body, s);
    DroppedKept(s, t1, r);
    PoppedBounded(s, t1, r, c);
    PoppedTexts(s, t1, r, TextOf(body), evaluated, OwnBuffers(body));
    var p, t := Popped(s, t1, r), Dropped(s, t1, r);
    SameTexts(p, t);
    BoundedLess(s, p, c, q.cost);
    if Room(s, limits, q.cost) && depth + q.cost.height < Ceiling(limits) {
      RedirectedRoom(s, r, depth, limits, body);
      LastPending(t1);
    }
  }

  lemma {:induction false} LastPending(t1: Snapshot)
    requires Sound(t1) && t1.evaluations != []
    ensures t1.pending != [] && |t1.pending[|t1.pending| - 1]| == |t1.evaluations[|t1.evaluations| - 1]|
  {
  }

  lemma {:induction false} SameTexts(s: Snapshot, t: Snapshot)
    requires t.buffers == s.buffers && t.evaluations == s.evaluations
    ensures forall g :: (Exists(t, g) <==> Exists(s, g)) && (Exists(s, g) ==> At(t, g) == At(s, g))
  {
  }

  lemma {:induction false} MergedRan(s: Snapshot, t1: Snapshot, r: nat, depth: nat, limits: Limits, body: seq<Act>)
    requires Sound(s) && r < |s.renderers|
    requires Ran(Redirected(s, r), t1, r, depth + 1, limits, OfNode(body, Redirected(s, r)), Pass)
    ensures r < |t1.renderers| && t1.evaluations != [] && t1.pending != []
    ensures var p := Popped(s, t1, r);
            Exists(p, s.renderers[r].output) && Signed(p.buffers, p.authors) && Signed(p.evaluations, p.pending)
    ensures Ran(s, Merged(s, t1, r), r, depth, limits, OfEvaluation(body, s), Pass)
  {
    hide Sound, CostOf, TextOf, ForecastOf, OwnBuffers, Calm, Careful, Quiet, Escaped, Room, Registered, Signed, Credit, By;
    EvaluationFacts(body, s);
    var s1, c, q := Redirected(s, r), CostOf(body).Node(), OfEvaluation(body, s);
    MergedKept(s, t1, r);
    PoppedBounded(s, t1, r, c);
    PoppedTexts(s, t1, r, TextOf(body), Pass, OwnBuffers(body));
    var p, t, n := Popped(s, t1, r), Merged(s, t1, r), |s.evaluations|;
    var text, out := t1.evaluations[n], s.renderers[r].output;
    var more := |Escaped(text)| - |text|;
    EscapedBound(text);
    LastPending(t1);
    BySize(r, more);
    Credited(p, out, Escaped(text), t1.pending[n] + By(r, more));
    CreditFields(p, out, Escaped(text), t1.pending[n] + By(r, more));
    SameTexts(Credit(p, out, Escaped(text), t1.pending[n] + By(r, more)), t);
    MergedBounded(s, p, t, r, out, c, text);
    if Room(s, limits, q.cost) && depth + q.cost.height < Ceiling(limits) {
      RedirectedRoom(s, r, depth, limits, body);
    }
  }

  lemma {:induction false} MergedBounded(s: Snapshot, p: Snapshot, t: Snapshot, r: nat, out: Target, c: Cost, text: Bytes)
    requires Bounded(s, p, c.bytes, c.visits) && |text| <= c.bytes && r < |p.renderers| && |t.renderers| == |p.renderers|
    requires |text| <= |Escaped(text)| <= EXPANSION * |text|
    requires forall g :: Exists(t, g) <==> Exists(p, g)
    requires forall g :: Exists(p, g) ==> |At(t, g)| == |At(p, g)| + if g == out then |Escaped(text)| else 0
    requires forall q :: 0 <= q < |p.renderers| ==>
               t.renderers[q].nodeVisits == p.renderers[q].nodeVisits
               && t.renderers[q].outputBytes == p.renderers[q].outputBytes + if q == r then |Escaped(text)| - |text| else 0
    ensures Bounded(s, t, c.bytes + EXPANSION * c.bytes, c.visits)
  {
    hide Escaped;
    forall g | Exists(t, g)
      ensures |At(t, g)| <= c.bytes + EXPANSION * c.bytes + if Exists(s, g) then |At(s, g)| else 0
    {
      assert Exists(p, g);
    }
  }

  // ---- Rendering for a callback -----------------------------------------------------------------------------------

  /** The buffer a callback renders into: one it has, or a new one. */
  function BufferOf(s: Snapshot, buffer: Option<nat>): nat {
    if buffer.Some? && buffer.value < |s.buffers| then buffer.value else |s.buffers|
  }

  function Provided(s: Snapshot, buffer: Option<nat>): Snapshot {
    if BufferOf(s, buffer) < |s.buffers| then s else s.(buffers := s.buffers + [[]], authors := s.authors + [multiset{}])
  }

  /** The renderer lent to a callback: with its output in that buffer, and in a line frame of its own. */
  function Lent(s: Snapshot, r: nat, buffer: Option<nat>): Snapshot
    requires r < |s.renderers|
  {
    var x := s.renderers[r];
    Provided(s, buffer).(renderers := s.renderers[r := x.(output := Buffer(BufferOf(s, buffer)), frames := x.frames + [0])])
  }

  function OfRender(body: seq<Act>, buffer: Option<nat>, s: Snapshot): Prospect {
    Prospect([], buffer.None? && OwnBuffers(body), false, Calm(body), Careful(body), CostOf(body).Node().Below(),
             ForecastOf(body, |s.contexts|, Open(s.contexts)).Aside())
  }

  lemma {:induction false} ProvidedSound(s: Snapshot, buffer: Option<nat>)
    requires Sound(s)
    ensures Sound(Provided(s, buffer))
  {
    hide Registered;
    var t := Provided(s, buffer);
    TallySnoc(s.authors, multiset{});
    assert AllBytes(t) == AllBytes(s);
    StaysRegistered(s, t);
  }

  lemma {:induction false} LentSound(s: Snapshot, r: nat, buffer: Option<nat>)
    requires Sound(s) && r < |s.renderers|
    ensures Sound(Lent(s, r, buffer))
  {
    hide Registered, Balanced;
    ProvidedSound(s, buffer);
    StaysBalanced(Provided(s, buffer), Lent(s, r, buffer));
    StaysRegistered(Provided(s, buffer), Lent(s, r, buffer));
  }

  /** The buffer is full already. */
  lemma {:induction false} ProvidedCalled(s: Snapshot, buffer: Option<nat>, limits: Limits, p: Prospect, o: Outcome)
    requires Sound(s) && o.Fail? && |At(Provided(s, buffer), Buffer(BufferOf(s, buffer)))| > limits.maxOutputBytes
    ensures Called(s, Provided(s, buffer), limits, p, o)
  {
    hide Sound;
    ProvidedSound(s, buffer);
    var t, g := Provided(s, buffer), Buffer(BufferOf(s, buffer));
    assert t.contexts[..|s.contexts|] == s.contexts;
    assert Exists(s, g) && At(s, g) == At(t, g);
  }

  lemma {:induction false} LambdaRan(s: Snapshot, r: nat, buffer: Option<nat>, body: seq<Act>, t1: Snapshot, limits: Limits,
                                     o: Outcome)
    requires Sound(s) && r < |s.renderers|
    requires Ran(Lent(s, r, buffer), t1, r, s.renderers[r].activeDepth + 1, limits, OfNode(body, Lent(s, r, buffer)), o)
    ensures r < |t1.renderers| && Called(s, Left(s, t1, r), limits, OfRender(body, buffer, s), o)
  {
    hide Sound, CostOf, TextOf, ForecastOf, OwnBuffers, Calm, Careful, Quiet, Registered, Balanced;
    var s1, p := Lent(s, r, buffer), OfRender(body, buffer, s);
    LambdaKept(s, r, buffer, t1);
    var t, c := Left(s, t1, r), CostOf(body).Node();
    forall g
      ensures Exists(s, g) ==> Exists(s1, g) && At(s1, g) == At(s, g)
      ensures !Exists(s, g) && Exists(s1, g) ==> At(s1, g) == []
      ensures Exists(t, g) <==> Exists(t1, g)
      ensures Exists(t, g) ==> At(t, g) == At(t1, g)
    {
    }
    if buffer.None? {
      assert !Exists(s, Buffer(BufferOf(s, buffer)));
    }
    LambdaBounded(s, s1, t1, t, r, c, p.cost);
    if Room(s, limits, p.cost) {
      LambdaRoom(s, s1, r, limits, c, p.cost);
    }
  }

  lemma {:induction false} LambdaKept(s: Snapshot, r: nat, buffer: Option<nat>, t1: Snapshot)
    requires Sound(s) && r < |s.renderers| && Kept(Lent(s, r, buffer), t1)
    ensures r < |t1.renderers| && Kept(s, Left(s, t1, r))
  {
    hide Registered, Balanced, Provided;
    LentFields(s, r, buffer);
    var s1 := Lent(s, r, buffer);
    SameTarget(s1, t1, r);
    var t := Left(s, t1, r);
    StaysBalanced(t1, t);
    StaysRegistered(t1, t);
    assert Exists(s, s.renderers[r].output);
  }

  lemma {:induction false} LentFields(s: Snapshot, r: nat, buffer: Option<nat>)
    requires r < |s.renderers|
    ensures var t := Lent(s, r, buffer);
            && t.contexts == s.contexts && t.registry == s.registry && t.lost == s.lost && |t.buffers| >= |s.buffers|
            && t.evaluations == s.evaluations
            && t.renderers == s.renderers[r := s.renderers[r].(output := Buffer(BufferOf(s, buffer)), frames := s.renderers[r].frames + [0])]
  {
  }

  lemma {:induction false} LambdaBounded(s: Snapshot, s1: Snapshot, t1: Snapshot, t: Snapshot, r: nat, c: Cost, d: Cost)
    requires Bounded(s1, t1, c.bytes, c.visits) && r < |s.renderers| == |s1.renderers| && r < |t1.renderers|
    requires d.bytes == c.bytes && d.visits == c.visits && t == Left(s, t1, r)
    requires forall q :: 0 <= q < |s.renderers| ==>
               s1.renderers[q].outputBytes == s.renderers[q].outputBytes && s1.renderers[q].nodeVisits == s.renderers[q].nodeVisits
    requires forall g :: Exists(s, g) ==> Exists(s1, g) && At(s1, g) == At(s, g)
    requires forall g :: !Exists(s, g) && Exists(s1, g) ==> At(s1, g) == []
    requires forall g :: (Exists(t, g) <==> Exists(t1, g)) && (Exists(t, g) ==> At(t, g) == At(t1, g))
    ensures Bounded(s, t, d.bytes, d.visits)
  {
    forall g | Exists(t, g)
      ensures |At(t, g)| <= d.bytes + if Exists(s, g) then |At(s, g)| else 0
    {
      assert Exists(t1, g) && (Exists(s, g) || Exists(s1, g) || !Exists(s1, g));
    }
  }

  lemma {:induction false} LambdaRoom(s: Snapshot, s1: Snapshot, r: nat, limits: Limits, c: Cost, d: Cost)
    requires Room(s, limits, d) && d == c.Below() && r < |s.renderers| == |s1.renderers|
    requires forall q :: 0 <= q < |s.renderers| ==>
               var x, y := s.renderers[q], s1.renderers[q];
               x.outputBytes == y.outputBytes && x.nodeVisits == y.nodeVisits && x.activeDepth == y.activeDepth
    requires forall g :: Exists(s, g) ==> Exists(s1, g) && At(s1, g) == At(s, g)
    requires forall g :: !Exists(s, g) && Exists(s1, g) ==> At(s1, g) == []
    ensures Room(s1, limits, c) && s.renderers[r].activeDepth + 1 + c.height < Ceiling(limits)
  {
    forall g | Exists(s1, g)
      ensures |At(s1, g)| + c.bytes <= limits.maxOutputBytes
    {
      assert Exists(s, g) || !Exists(s, g);
    }
  }

  // ---- A renderer of its own ------------------------------------------------------------------------------------------

  /** One more renderer, with a buffer of its own that has some text already, which counts. */
  function Joined(s: Snapshot, initial: Bytes): Snapshot {
    var r := |s.renderers|;
    s.(buffers := s.buffers + [initial], authors := s.authors + [By(r, |initial|)],
       renderers := s.renderers + [RendererState(Buffer(|s.buffers|), |initial|, 0, [0], [], 0, 0, r, true)])
  }

  function Retired(x: RendererState): RendererState {
    x.(stack := [], frames := [], activeDepth := 0, callbackDepth := 0, rendering := false)
  }

  function OfAlone(initial: Bytes, body: seq<Act>, s: Snapshot): Prospect {
    var c := CostOf(body).Node();
    Prospect([], OwnBuffers(body), false, Calm(body), Careful(body), c.(bytes := |initial| + c.bytes),
             ForecastOf(body, |s.contexts|, Open(s.contexts)).Aside())
  }

  lemma {:induction false} JoinedSound(s: Snapshot, initial: Bytes)
    requires Sound(s)
    ensures Sound(Joined(s, initial))
  {
    hide Registered, Covered;
    var t, r := Joined(s, initial), |s.renderers|;
    TallySnoc(s.authors, By(r, |initial|));
    BySize(r, |initial|);
    assert AllBytes(t) == AllBytes(s) + By(r, |initial|);
    OneMoreCovered(s.renderers, AllBytes(s), t.renderers[r]);
    StaysRegistered(s, t);
  }

  lemma {:induction false} OneMoreCovered(rs: seq<RendererState>, all: multiset<nat>, x: RendererState)
    requires Covered(rs, all)
    ensures Covered(rs + [x], all + By(|rs|, x.outputBytes))
  {
    var sum := all + By(|rs|, x.outputBytes);
    assert |rs| !in all;
    forall q: nat
      ensures sum[q] == all[q] + if q == |rs| then x.outputBytes else 0
    {
    }
    assert forall q :: q in sum ==> q in all || q == |rs|;
  }

  lemma {:induction false} JoinedKept(s: Snapshot, initial: Bytes, t1: Snapshot)
    requires Sound(s) && Kept(Joined(s, initial), t1)
    ensures var r := |s.renderers|;
            r < |t1.renderers| && Kept(s, t1.(renderers := t1.renderers[r := Retired(t1.renderers[r])]))
  {
    hide Balanced, Registered;
    var s1, r := Joined(s, initial), |s.renderers|;
    SameTarget(s1, t1, r);
    var t := t1.(renderers := t1.renderers[r := Retired(t1.renderers[r])]);
    StaysBalanced(t1, t);
    RetiredRegistered(s, t1, r);
    forall q | 0 <= q < |s.renderers|
      ensures SameScope(s.renderers[q], t.renderers[q])
    {
      assert s1.renderers[q] == s.renderers[q];
    }
  }

  lemma {:induction false} RetiredRegistered(s: Snapshot, t1: Snapshot, r: nat)
    requires Registered(s) && Registered(t1) && r == |s.renderers| < |t1.renderers| && t1.registry == s.registry
    requires forall q :: 0 <= q < r ==> SameFields(s.renderers[q], t1.renderers[q])
    ensures Registered(t1.(renderers := t1.renderers[r := Retired(t1.renderers[r])]))
  {
    hide Frames;
    var t := t1.(renderers := t1.renderers[r := Retired(t1.renderers[r])]);
    NoFramesOf(s, s.registry, r);
    forall i | 0 <= i < |t.registry|
      ensures ScopeOpen(t, t.registry[i])
    {
      assert ScopeOpen(s, s.registry[i]) && ScopeOpen(t1, t1.registry[i]);
    }
  }

  predicate SameFields(x: RendererState, y: RendererState) {
    x.callbackDepth == y.callbackDepth && x.engine == y.engine && x.rendering == y.rendering
  }

  /** A whole render by a renderer of its own. */
  lemma {:induction false} AloneRan(s: Snapshot, initial: Bytes, body: seq<Act>, t1: Snapshot, limits: Limits, o: Outcome)
    requires Sound(s)
    requires Ran(Joined(s, initial), t1, |s.renderers|, 0, limits, OfNode(body, Joined(s, initial)), o)
    ensures var r := |s.renderers|;
            && r < |t1.renderers|
            && Called(s, t1.(renderers := t1.renderers[r := Retired(t1.renderers[r])]), limits, OfAlone(initial, body, s), o)
            && |s.buffers| < |t1.buffers|
            && (o.Pass? && OwnBuffers(body) ==> t1.buffers[|s.buffers|] == initial + TextOf(body))
            && (o.Pass? && Quiet(body) ==> t1.renderers[r].outputBytes == |initial| + |TextOf(body)|)
  {
    hide Sound, CostOf, TextOf, ForecastOf, OwnBuffers, Calm, Careful, Quiet, Registered, Balanced;
    var s1, r, p, c := Joined(s, initial), |s.renderers|, OfAlone(initial, body, s), CostOf(body).Node();
    JoinedKept(s, initial, t1);
    var t := t1.(renderers := t1.renderers[r := Retired(t1.renderers[r])]);
    forall g
      ensures Exists(s, g) ==> Exists(s1, g) && At(s1, g) == At(s, g) && g != Buffer(|s.buffers|)
      ensures !Exists(s, g) && Exists(s1, g) ==> At(s1, g) == initial
      ensures Exists(t, g) <==> Exists(t1, g)
      ensures Exists(t, g) ==> At(t, g) == At(t1, g)
    {
    }
    assert Exists(s1, Buffer(|s.buffers|)) && At(s1, Buffer(|s.buffers|)) == initial;
    assert Exists(t1, Buffer(|s.buffers|));
    AloneBounded(s, s1, t1, t, initial, c);
    if Room(s, limits, p.cost) {
      AloneRoom(s, s1, limits, initial, c);
    }
  }

  lemma {:induction false} AloneBounded(s: Snapshot, s1: Snapshot, t1: Snapshot, t: Snapshot, initial: Bytes, c: Cost)
    requires Bounded(s1, t1, c.bytes, c.visits) && s1 == Joined(s, initial) && |s.renderers| < |t1.renderers|
    requires t == t1.(renderers := t1.renderers[|s.renderers| := Retired(t1.renderers[|s.renderers|])])
    requires forall g :: Exists(s, g) ==> Exists(s1, g) && At(s1, g) == At(s, g)
    requires forall g :: !Exists(s, g) && Exists(s1, g) ==> At(s1, g) == initial
    requires forall g :: (Exists(t, g) <==> Exists(t1, g)) && (Exists(t, g) ==> At(t, g) == At(t1, g))
    ensures Bounded(s, t, |initial| + c.bytes, c.visits)
  {
    forall g | Exists(t, g)
      ensures |At(t, g)| <= |initial| + c.bytes + if Exists(s, g) then |At(s, g)| else 0
    {
      assert Exists(t1, g) && (Exists(s, g) || Exists(s1, g) || !Exists(s1, g));
    }
    forall q | 0 <= q < |s.renderers|
      ensures t.renderers[q].outputBytes <= s.renderers[q].outputBytes + |initial| + c.bytes
      ensures t.renderers[q].nodeVisits <= s.renderers[q].nodeVisits + c.visits
    {
      assert s1.renderers[q] == s.renderers[q];
    }
  }

  lemma {:induction false} AloneRoom(s: Snapshot, s1: Snapshot, limits: Limits, initial: Bytes, c: Cost)
    requires Room(s, limits, c.(bytes := |initial| + c.bytes)) && s1 == Joined(s, initial)
    requires forall g :: Exists(s, g) ==> Exists(s1, g) && At(s1, g) == At(s, g)
    requires forall g :: !Exists(s, g) && Exists(s1, g) ==> At(s1, g) == initial
    ensures Room(s1, limits, c)
  {
    forall g | Exists(s1, g)
      ensures |At(s1, g)| + c.bytes <= limits.maxOutputBytes
    {
      assert Exists(s, g) || !Exists(s, g);
    }
    forall q | 0 <= q < |s1.renderers|
      ensures var x := s1.renderers[q];
              x.outputBytes + c.bytes <= limits.maxOutputBytes && x.nodeVisits + c.visits <= limits.maxNodeVisits
              && x.activeDepth + c.height < Ceiling(limits)
    {
      assert q < |s.renderers| ==> s1.renderers[q] == s.renderers[q];
    }
  }
  // ---- From one part of a script to the next ------------------------------------------------------------------------------

  /** The acts run so far, and the next one. */
  lemma {:induction false} NextActRan(s: Snapshot, t: Snapshot, u: Snapshot, r: nat, depth: nat, limits: Limits,
                                      acts: seq<Act>, i: nat, o: Outcome)
    requires i < |acts| && r < |s.renderers| && r < |t.renderers|
    requires Ran(s, t, r, depth, limits, OfActs(acts[..i], s), Pass) && Ran(t, u, r, depth, limits, OfAct(acts[i], t), o)
    ensures Ran(s, u, r, depth, limits, OfActs(acts[..i + 1], s), o)
  {
    hide Ran, TextOf, CostOf, ForecastOf, OwnAct, QuietAct, CalmAct, CarefulAct, ActCost, ActText, ActForecast;
    LastAct(acts, i, |s.contexts|, Open(s.contexts));
    RanOpen(s, t, r, depth, limits, OfActs(acts[..i], s));
    FirstOf(acts, i);
    RanTwice(s, t, u, r, depth, limits, OfActs(acts[..i], s), OfAct(acts[i], t), OfActs(acts[..i + 1], s), o);
  }

  lemma {:induction false} RanOpen(s: Snapshot, t: Snapshot, r: nat, depth: nat, limits: Limits, p: Prospect)
    requires r < |s.renderers| && Ran(s, t, r, depth, limits, p, Pass)
    ensures Open(t.contexts) == Open(s.contexts)
  {
    hide Open;
    StillOpen(s, t);
  }

  /** What holds of the first acts and of the next. */
  lemma {:induction false} FirstOf(acts: seq<Act>, i: nat)
    requires i < |acts|
    ensures OwnBuffers(acts[..i + 1]) ==> OwnBuffers(acts[..i]) && OwnAct(acts[i])
    ensures Quiet(acts[..i + 1]) ==> Quiet(acts[..i]) && QuietAct(acts[i])
    ensures Calm(acts[..i + 1]) ==> Calm(acts[..i]) && CalmAct(acts[i])
    ensures Careful(acts[..i + 1]) ==> Careful(acts[..i]) && CarefulAct(acts[i])
  {
    hide OwnAct, QuietAct, CalmAct, CarefulAct;
    var first, less := acts[..i + 1], acts[..i];
    assert first[i] == acts[i] && forall j :: 0 <= j < i ==> less[j] == first[j];
  }

  /** A failure among the acts is the failure of all. */
  lemma {:induction false} FailedRan(s: Snapshot, t: Snapshot, r: nat, depth: nat, limits: Limits, acts: seq<Act>, i: nat,
                                     o: Outcome)
    requires i <= |acts| && r < |s.renderers| && Ran(s, t, r, depth, limits, OfActs(acts[..i], s), o) && o.Fail?
    ensures Ran(s, t, r, depth, limits, OfActs(acts, s), o)
  {
    hide Ran, TextOf, CostOf, ForecastOf, OwnAct, QuietAct, CalmAct, CarefulAct;
    FirstActs(acts, i, |s.contexts|, Open(s.contexts));
    RanLess(s, t, r, depth, depth, limits, OfActs(acts[..i], s), OfActs(acts, s), o);
  }

  lemma {:induction false} NextCallCalled(s: Snapshot, t: Snapshot, u: Snapshot, limits: Limits, calls: seq<Call>, i: nat,
                                          o: Outcome)
    requires i < |calls|
    requires Called(s, t, limits, OfCalls(calls[..i], s).(quiet := false), Pass) && Called(t, u, limits, OfCall(calls[i], t), o)
    ensures Called(s, u, limits, OfCalls(calls[..i + 1], s).(quiet := false), o)
  {
    hide Called, CallsCost, CallsForecast, OwnCall, CalmCall, CarefulCall, CallCost, CallForecast;
    LastCall(calls, i, |s.contexts|, Open(s.contexts));
    CalledOpen(s, t, limits, OfCalls(calls[..i], s).(quiet := false));
    FirstCallsOf(calls, i);
    var a, b, c := OfCalls(calls[..i], s).(quiet := false), OfCall(calls[i], t), OfCalls(calls[..i + 1], s).(quiet := false);
    assert a.text + b.text == c.text;
    CalledTwice(s, t, u, limits, a, b, c, o);
  }

  lemma {:induction false} CalledOpen(s: Snapshot, t: Snapshot, limits: Limits, p: Prospect)
    requires Called(s, t, limits, p, Pass)
    ensures Open(t.contexts) == Open(s.contexts)
  {
    hide Open;
    StillOpen(s, t);
  }

  lemma {:induction false} FirstCallsOf(calls: seq<Call>, i: nat)
    requires i < |calls|
    ensures OwnCalls(calls[..i + 1]) ==> OwnCalls(calls[..i]) && OwnCall(calls[i])
    ensures CalmCalls(calls[..i + 1]) ==> CalmCalls(calls[..i]) && CalmCall(calls[i])
    ensures CarefulCalls(calls[..i + 1]) ==> CarefulCalls(calls[..i]) && CarefulCall(calls[i])
  {
    hide OwnCall, CalmCall, CarefulCall;
    var first, less := calls[..i + 1], calls[..i];
    assert first[i] == calls[i] && forall j :: 0 <= j < i ==> less[j] == first[j];
  }

  lemma {:induction false} FailedCalled(s: Snapshot, t: Snapshot, limits: Limits, calls: seq<Call>, i: nat, o: Outcome)
    requires i <= |calls| && Called(s, t, limits, OfCalls(calls[..i], s).(quiet := false), o) && o.Fail?
    ensures Called(s, t, limits, OfCalls(calls, s).(quiet := false), o)
  {
    hide Called, CallsCost, CallsForecast, OwnCall, CalmCall, CarefulCall;
    FirstCalls(calls, i, |s.contexts|, Open(s.contexts));
    CalledLess(s, t, limits, OfCalls(calls[..i], s).(quiet := false), OfCalls(calls, s).(quiet := false), o);
  }

  /** Calls, and then what the callback returned. */
  lemma {:induction false} ReturnedAfter(s: Snapshot, t: Snapshot, u: Snapshot, r: nat, depth: nat, limits: Limits,
                                         a: Prospect, b: Prospect, act: Act, o: Outcome)
    requires r < |s.renderers| && r < |t.renderers| && Called(s, t, limits, a, Pass) && Ran(t, u, r, depth, limits, b, o)
    requires a.text == [] && a.forecast.appended == 0
    requires var c := OfAct(act, s);
             && c.text == b.text && c.cost == a.cost.Plus(b.cost) && (c.own ==> a.own && b.own)
             && (c.quiet ==> a.quiet && b.quiet) && (c.calm ==> a.calm && b.calm) && (c.careful ==> a.careful && b.careful)
             && (a.forecast.passes && |t.contexts| == a.forecast.contexts ==> c.forecast == a.forecast.Then(b.forecast))
    ensures Ran(s, u, r, depth, limits, OfAct(act, s), o)
  {
    hide Ran, Called, OfAct;
    CalledRan(s, t, r, depth, limits, a, Pass);
    assert [] + b.text == b.text;
    RanTwice(s, t, u, r, depth, limits, a, b, OfAct(act, s), o);
  }

  /** The callback threw. */
  lemma {:induction false} ThrownRan(s: Snapshot, t: Snapshot, r: nat, depth: nat, limits: Limits, a: Prospect, act: Act,
                                     o: Outcome)
    requires r < |s.renderers| && Called(s, t, limits, a, o) && o.Fail? && a.text == [] && a.forecast.appended == 0
    requires var c := OfAct(act, s);
             && (c.own ==> a.own) && (c.quiet ==> a.quiet) && (c.calm ==> a.calm) && (c.careful ==> a.careful)
             && a.cost.bytes <= c.cost.bytes && a.cost.visits <= c.cost.visits && a.cost.height <= c.cost.height
             && (!a.forecast.passes ==> c.forecast == a.forecast)
    ensures Ran(s, t, r, depth, limits, OfAct(act, s), o)
  {
    hide Ran, Called, OfAct;
    CalledRan(s, t, r, depth, limits, a, o);
    RanLess(s, t, r, depth, depth, limits, a, OfAct(act, s), o);
  }

  /** A caught failure. */
  lemma {:induction false} CaughtCalled(s: Snapshot, t: Snapshot, limits: Limits, calls: seq<Call>, o: Outcome)
    requires Called(s, t, limits, OfCalls(calls, s), o)
    ensures Called(s, t, limits, OfCall(Attempt(calls), s), Pass)
  {
    hide Kept, Bounded, Room, OwnCalls, CalmCalls, CarefulCalls, CallsCost, CallsForecast;
  }

  /** What a run from the start leaves behind. */
  lemma {:induction false} Settled(t: Snapshot)
    requires Kept(NOTHING, t)
    ensures t.registry == [] && (forall k :: 0 <= k < |t.contexts| ==> t.contexts[k].None?) && t.evaluations == []
    ensures forall r :: 0 <= r < |t.renderers| ==> Idle(t.renderers[r])
    ensures forall r :: 0 <= r < |t.renderers| ==> t.renderers[r].outputBytes == Written(t, r) + t.lost[r]
    ensures Charged(t.renderers) == Sizes(t.buffers) + |t.lost|
    ensures forall r :: r in t.lost ==> r < |t.renderers|
  {
    BalancedInAll(t);
    assert Tally(t.pending) == multiset{} && Sizes(t.evaluations) == 0;
    assert AllBytes(t) == Tally(t.authors) + t.lost;
    assert forall r :: r in t.lost ==> r in AllBytes(t);
  }

  /** No bytes are lost exactly when every counter is what its renderer has written. */
  lemma {:induction false} ExactWhenNothingLost(t: Snapshot)
    requires Kept(NOTHING, t)
    ensures Exact(t) <==> |t.lost| == 0
    ensures Charged(t.renderers) == Sizes(t.buffers) <==> |t.lost| == 0
  {
    Settled(t);
    if |t.lost| != 0 {
      var r :| r in t.lost;
      assert t.renderers[r].outputBytes == Written(t, r) + t.lost[r];
    } else {
      assert t.lost == multiset{};
    }
  }

  /** Every renderer was charged for the bytes it has in buffers, and for nothing else. */
  predicate Exact(t: Snapshot) {
    forall r :: 0 <= r < |t.renderers| ==> t.renderers[r].outputBytes == Written(t, r)
  }

  lemma {:induction false} NothingYet()
    ensures Sound(NOTHING) && Open(NOTHING.contexts) == {}
  {
  }

  /** Enough for a script that is rendered after `initial`, whatever it does. */
  predicate Ample(initial: Bytes, body: seq<Act>, limits: Limits) {
    var c := CostOf(body);
    |initial| + c.bytes <= limits.maxOutputBytes && c.visits + 1 <= limits.maxNodeVisits && c.height < Ceiling(limits)
  }

  lemma {:induction false} AmpleRoom(initial: Bytes, body: seq<Act>, limits: Limits)
    requires Ample(initial, body, limits)
    ensures Room(NOTHING, limits, OfAlone(initial, body, NOTHING).cost)
  {
    hide CostOf;
    assert forall g :: !Exists(NOTHING, g);
  }

  lemma {:induction false} NoRoom(s: Snapshot, r: nat, limits: Limits, size: nat, c: Cost)
    requires r < |s.renderers| && Exists(s, s.renderers[r].output) && size <= c.bytes
    requires |At(s, s.renderers[r].output)| + size > limits.maxOutputBytes
             || s.renderers[r].outputBytes + size > limits.maxOutputBytes
    ensures !Room(s, limits, c)
  {
  }

  /** The promise of no calls at all. */
  lemma {:induction false} QuietCalled(s: Snapshot, t: Snapshot, limits: Limits, calls: seq<Call>, o: Outcome)
    requires Called(s, t, limits, OfCalls(calls, s).(quiet := false), o) && (calls == [] ==> t == s)
    ensures Called(s, t, limits, OfCalls(calls, s), o)
  {
    hide Kept, Bounded, Room, OwnCalls, CalmCalls, CarefulCalls, CallsCost, CallsForecast;
  }

  /** A renderer outlives what it runs, in the same scope. */
  lemma {:induction false} BackInScope(s: Snapshot, t: Snapshot, r: nat, depth: nat, limits: Limits, p: Prospect, o: Outcome)
    requires r < |s.renderers| && Ran(s, t, r, depth, limits, p, o)
    ensures r < |t.renderers| && SameScope(s.renderers[r], t.renderers[r]) && Sound(t)
  {
    hide Sound;
    SameTarget(s, t, r);
  }

  lemma {:induction false} AfterCalls(s: Snapshot, t: Snapshot, r: nat, limits: Limits, p: Prospect, o: Outcome)
    requires r < |s.renderers| && Called(s, t, limits, p, o)
    ensures r < |t.renderers| && SameScope(s.renderers[r], t.renderers[r]) && Sound(t) && Open(t.contexts) == Open(s.contexts)
  {
    hide Sound;
    SameTarget(s, t, r);
    StillOpen(s, t);
  }

  lemma {:induction false} CalledSound(s: Snapshot, t: Snapshot, limits: Limits, p: Prospect, o: Outcome)
    requires Called(s, t, limits, p, o)
    ensures Sound(t)
  {
  }

  lemma {:induction false} CallsAppendNothing(calls: seq<Call>, s: Snapshot)
    ensures OfCalls(calls, s).forecast.appended == 0
  {
    hide CallsForecast;
  }

  lemma {:induction false} NoActs(s: Snapshot, r: nat, depth: nat, limits: Limits, acts: seq<Act>)
    requires Sound(s) && r < |s.renderers|
    ensures Ran(s, s, r, depth, limits, OfActs(acts[..0], s), Pass)
  {
    hide Sound;
    NothingRan(s, r, depth, limits, OfActs(acts[..0], s));
  }

  lemma {:induction false} NoCalls(s: Snapshot, limits: Limits, calls: seq<Call>)
    requires Sound(s)
    ensures Called(s, s, limits, OfCalls(calls[..0], s).(quiet := false), Pass)
  {
    hide Sound;
    NothingCalled(s, limits, OfCalls(calls[..0], s).(quiet := false), Pass);
  }

  lemma {:induction false} OwnCharge(s: Snapshot, t: Snapshot, r: nat, depth: nat, limits: Limits, p: Prospect, o: Outcome)
    requires r < |s.renderers| && Ran(s, t, r, depth, limits, p, o)
    ensures r < |t.renderers|
    ensures o.Pass? && p.quiet ==> t.renderers[r].outputBytes == s.renderers[r].outputBytes + |p.text|
  {
    hide Sound;
    SameTarget(s, t, r);
  }

  /** The state at the end of an evaluation. */
  lemma {:induction false} EvaluationEnds(s: Snapshot, t1: Snapshot, r: nat, depth: nat, limits: Limits, body: seq<Act>,
                                          o: Outcome)
    requires Sound(s) && r < |s.renderers|
    requires Ran(Redirected(s, r), t1, r, depth + 1, limits, OfNode(body, Redirected(s, r)), o)
    ensures r < |t1.renderers| && SameScope(Redirected(s, r).renderers[r], t1.renderers[r])
    ensures |t1.evaluations| == |s.evaluations| + 1 && |t1.pending| == |t1.evaluations| && Exists(s, s.renderers[r].output)
    ensures Signed(t1.buffers, t1.authors) && Signed(t1.evaluations, t1.pending) && |t1.buffers| >= |s.buffers|
  {
    PoppedRestored(s, t1, r);
    SameTarget(Redirected(s, r), t1, r);
  }

  lemma {:induction false} LiteralWrites(text: Bytes, s: Snapshot)
    ensures Writes(OfEscaped(Literally(text), s), s, Escaped(text))
  {
    hide Escaped;
    EscapedBound(text);
    assert ReturnedCost(Literally(text)) == Cost(|text|, 0, 0);
  }

  lemma {:induction false} LeftTexts(s: Snapshot, t1: Snapshot, r: nat)
    requires r < |s.renderers| && r < |t1.renderers|
    ensures var t := Left(s, t1, r);
            && t.renderers[r].output == s.renderers[r].output && t.buffers == t1.buffers && t.evaluations == t1.evaluations
            && t.pending == t1.pending && |t.renderers| == |t1.renderers|
  {
  }

  lemma {:induction false} MergeRefused(s: Snapshot, t1: Snapshot, r: nat, depth: nat, limits: Limits, body: seq<Act>)
    requires Sound(s) && r < |s.renderers|
    requires Ran(Redirected(s, r), t1, r, depth + 1, limits, OfNode(body, Redirected(s, r)), Pass)
    requires r < |t1.renderers| && |t1.evaluations| == |s.evaluations| + 1 && |t1.pending| == |t1.evaluations|
    requires var p, text := Popped(s, t1, r), t1.evaluations[|s.evaluations|];
             Exists(p, s.renderers[r].output)
             && (|At(p, s.renderers[r].output)| + |Escaped(text)| > limits.maxOutputBytes
                 || p.renderers[r].outputBytes + (|Escaped(text)| - |text|) > limits.maxOutputBytes)
    ensures !Room(s, limits, OfEvaluation(body, s).cost)
  {
    hide Sound, Ran, OfEvaluation, Escaped, Room;
    if Room(s, limits, OfEvaluation(body, s).cost) {
      MergeFits(s, t1, r, depth, limits, body);
      assert false;
    }
  }

  lemma {:induction false} FullCalled(s: Snapshot, initial: Bytes, body: seq<Act>, limits: Limits, o: Outcome)
    requires Sound(s) && o.Fail? && |initial| > limits.maxOutputBytes
    ensures Called(s, s, limits, OfAlone(initial, body, s), o)
  {
    hide Sound, CostOf, ForecastOf;
    KeptNothing(s);
  }

  /** What the first renderer's render says about the whole. */
  lemma {:induction false} OnceCalled(initial: Bytes, body: seq<Act>, t: Snapshot, limits: Limits, o: Outcome)
    requires Called(NOTHING, t, limits, OfAlone(initial, body, NOTHING), o)
    ensures Kept(NOTHING, t) && (o.Pass? && Careful(body) ==> t.lost == multiset{})
    ensures Ample(initial, body, limits) ==>
              var f := ForecastOf(body, 0, {}); (o.Pass? <==> f.passes) && |t.lost| == f.lost
  {
    hide Sound, CostOf, ForecastOf, Careful;
    NothingYet();
    if Ample(initial, body, limits) {
      AmpleRoom(initial, body, limits);
    }
  }
}
