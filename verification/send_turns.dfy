/**
 * The send turns of a paced HTTP client (packages/core-ts/src/http.ts): a chain of promises hands the
 * turn from caller to caller, and the one holding it waits for the next start time.
 */
module SendTurns {

  /** A call to `pace`: behind its predecessors, waiting for its start time, sending, or done with its turn. */
  datatype Phase = Queued | Pacing | Holding | Started | Abandoned

  /** A call, and the promise that was the tail when it came. */
  datatype Caller = Caller(phase: Phase, previous: nat)

  /** A tail: settled from the start, or once an earlier promise and then one call's turn are. */
  datatype Promise = Fulfilled | Then(earlier: nat, turn: nat)

  /**
   * Every call ever made to `pace`, in call order; the promises made for them and which of those is the
   * tail; the next start time and the clock; then who was granted the turn, and who started when.
   */
  datatype State = State(
    callers: seq<Caller>,
    promises: seq<Promise>,
    tail: nat,
    nextStart: real,
    now: real,
    granted: seq<nat>,
    starters: seq<nat>,
    starts: seq<real>)

  datatype Step =
    | Call
    | Grant(k: nat)
    | Ready(k: nat)
    | Start(k: nat)
    | Abandon(k: nat)
    | Elapse(ms: real)

  function Init(): State { State([], [Fulfilled], 0, 0.0, 0.0, [], [], []) }

  predicate Is(s: State, k: nat, phase: Phase) { k < |s.callers| && s.callers[k].phase == phase }

  /** Whether a call has let go of its turn, which settles the promise others wait on. */
  predicate Released(s: State, k: nat) { Is(s, k, Started) || Is(s, k, Abandoned) }

  /** Whether a promise of the chain has settled. */
  predicate Resolved(s: State, p: nat) {
    p < |s.promises| &&
    match s.promises[p]
    case Fulfilled => true
    case Then(earlier, turn) => earlier < p && Resolved(s, earlier) && Released(s, turn)
  }

  predicate Enabled(s: State, step: Step) {
    match step
    case Call => true
    case Grant(k) => Is(s, k, Queued) && Resolved(s, s.callers[k].previous)
    case Ready(k) => Is(s, k, Pacing) && s.nextStart - s.now <= 0.0
    case Start(k) => Is(s, k, Holding)
    case Abandon(k) => k < |s.callers| && !Released(s, k)
    case Elapse(ms) => ms >= 0.0
  }

  function To(s: State, k: nat, phase: Phase): State
    requires k < |s.callers|
  {
    s.(callers := s.callers[k := s.callers[k].(phase := phase)])
  }

  /** `gap` is the milliseconds between two starts, `1000 / rate`. */
  function Apply(s: State, step: Step, gap: real): State
    requires Enabled(s, step)
  {
    match step
    case Call =>
      s.(callers := s.callers + [Caller(Queued, s.tail)],
         promises := s.promises + [Then(s.tail, |s.callers|)],
         tail := |s.promises|)
    case Grant(k) => To(s, k, Pacing).(granted := s.granted + [k])
    case Ready(k) => To(s, k, Holding)
    case Start(k) => To(s, k, Started).(nextStart := s.now + gap, starters := s.starters + [k], starts := s.starts + [s.now])
    case Abandon(k) => To(s, k, Abandoned)
    case Elapse(ms) => s.(now := s.now + ms)
  }

  predicate Legal(s: State, steps: seq<Step>, gap: real)
    decreases |steps|
  {
    steps == [] || (Enabled(s, steps[0]) && Legal(Apply(s, steps[0], gap), steps[1..], gap))
  }

  function Run(s: State, steps: seq<Step>, gap: real): State
    requires Legal(s, steps, gap)
    decreases |steps|
  {
    if steps == [] then s else Run(Apply(s, steps[0], gap), steps[1..], gap)
  }

  // ---- The chain of promises ----

  /** Each call waits on the tail it found, and leaves one that waits on that tail and on itself. */
  ghost predicate Chained(s: State) {
    && |s.promises| == |s.callers| + 1 && s.tail == |s.callers|
    && s.promises[0] == Fulfilled
    && forall k :: 0 <= k < |s.callers| ==> s.promises[k + 1] == Then(k, k) && s.callers[k].previous == k
  }

  /** Every call before the `k`-th has let go of its turn. */
  predicate TurnsBefore(s: State, k: nat) {
    forall j :: 0 <= j < k ==> Released(s, j)
  }

  /** What a call waits on has settled exactly when every earlier call has let go, aborted ones included. */
  lemma {:induction false} ChainResolves(s: State, k: nat)
    requires Chained(s) && k <= |s.callers|
    ensures Resolved(s, k) <==> TurnsBefore(s, k)
  {
    if k > 0 {
      assert s.promises[k] == Then(k - 1, k - 1);
      ChainResolves(s, k - 1);
      assert TurnsBefore(s, k) <==> TurnsBefore(s, k - 1) && Released(s, k - 1);
    }
  }

  lemma StepKeepsChain(s: State, step: Step, gap: real)
    requires Chained(s) && Enabled(s, step)
    ensures Chained(Apply(s, step, gap))
  {}

  // ---- Turns ----

  predicate HasTurn(phase: Phase) { phase.Pacing? || phase.Holding? }

  /** The turn, and every start, came to a call once all the earlier ones had let go, in call order. */
  ghost predicate InTurn(s: State) {
    && (forall k :: 0 <= k < |s.callers| && (HasTurn(s.callers[k].phase) || s.callers[k].phase.Started?) ==> TurnsBefore(s, k))
    && (forall i :: 0 <= i < |s.granted| ==> s.granted[i] < |s.callers| && !s.callers[s.granted[i]].phase.Queued?)
    && (forall i :: 0 <= i < |s.granted| ==> TurnsBefore(s, s.granted[i]))
    && (forall i, j :: 0 <= i < j < |s.granted| ==> s.granted[i] < s.granted[j])
  }

  /** Whatever step is taken, a turn let go of stays let go. */
  lemma ReleasedStays(s: State, step: Step, gap: real, k: nat)
    requires Enabled(s, step)
    ensures TurnsBefore(s, k) ==> TurnsBefore(Apply(s, step, gap), k)
  {
    if TurnsBefore(s, k) {
      forall j | 0 <= j < k ensures Released(Apply(s, step, gap), j) {
        assert Released(s, j);
      }
    }
  }

  /** A call is granted the turn only behind everyone who had it before. */
  lemma GrantKeepsOrder(s: State, k: nat, gap: real)
    requires Chained(s) && InTurn(s) && Enabled(s, Grant(k))
    ensures TurnsBefore(s, k) && forall i :: 0 <= i < |s.granted| ==> s.granted[i] < k
  {
    ChainResolves(s, k);
    forall i | 0 <= i < |s.granted| ensures s.granted[i] < k {
      assert TurnsBefore(s, s.granted[i]);
      assert k < s.granted[i] ==> Released(s, k);
    }
  }

  lemma StepKeepsTurns(s: State, step: Step, gap: real)
    requires Chained(s) && InTurn(s) && Enabled(s, step)
    ensures InTurn(Apply(s, step, gap))
  {
    var t := Apply(s, step, gap);
    if step.Grant? { GrantKeepsOrder(s, step.k, gap); }
    forall k | 0 <= k < |t.callers| && (HasTurn(t.callers[k].phase) || t.callers[k].phase.Started?) ensures TurnsBefore(t, k) {
      ReleasedStays(s, step, gap, k);
    }
    forall i | 0 <= i < |t.granted| ensures TurnsBefore(t, t.granted[i]) {
      ReleasedStays(s, step, gap, t.granted[i]);
    }
  }

  // ---- Starts ----

  /** Starts at least `gap` apart, the last of them `gap` before the next allowed one. */
  ghost predicate Spaced(s: State, gap: real) {
    && (forall i, j :: 0 <= i < j < |s.starts| ==> s.starts[j] - s.starts[i] >= (j - i) as real * gap)
    && s.nextStart == (if s.starts == [] then 0.0 else s.starts[|s.starts| - 1] + gap)
    && (forall i :: 0 <= i < |s.starts| ==> s.starts[i] <= s.now)
    && (forall k :: 0 <= k < |s.callers| && s.callers[k].phase.Holding? ==> s.nextStart <= s.now)
    && s.now >= 0.0
  }

  lemma StartKeepsSpaced(s: State, k: nat, gap: real)
    requires gap > 0.0 && Spaced(s, gap) && InTurn(s) && Enabled(s, Start(k))
    ensures Spaced(Apply(s, Start(k), gap), gap)
  {
    var t, n := Apply(s, Start(k), gap), |s.starts|;
    forall i, j | 0 <= i < j < |t.starts| ensures t.starts[j] - t.starts[i] >= (j - i) as real * gap {
      if j == n && i < n - 1 {
        assert s.starts[n - 1] - s.starts[i] >= (n - 1 - i) as real * gap;
        assert (j - i) as real * gap == (n - 1 - i) as real * gap + gap;
      }
    }
    forall j | 0 <= j < |t.callers| ensures !t.callers[j].phase.Holding? {
      if j < k { assert Released(s, j); }
      if k < j && s.callers[j].phase.Holding? { assert Released(s, k); }
    }
  }

  lemma StepKeepsSpaced(s: State, step: Step, gap: real)
    requires gap > 0.0 && Spaced(s, gap) && InTurn(s) && Enabled(s, step)
    ensures Spaced(Apply(s, step, gap), gap)
  {
    if step.Start? { StartKeepsSpaced(s, step.k, gap); }
  }

  /** The calls among the first `n` that have started, in call order. */
  function StartedOf(s: State, n: nat): seq<nat>
    requires n <= |s.callers|
  {
    if n == 0 then []
    else if s.callers[n - 1].phase.Started? then StartedOf(s, n - 1) + [n - 1]
    else StartedOf(s, n - 1)
  }

  lemma {:induction false} StartedSame(s: State, t: State, m: nat, n: nat)
    requires m <= n <= |t.callers| && m <= |s.callers|
    requires forall j :: 0 <= j < m ==> (s.callers[j].phase.Started? <==> t.callers[j].phase.Started?)
    requires forall j :: m <= j < n ==> !t.callers[j].phase.Started?
    ensures StartedOf(t, n) == StartedOf(s, m)
  {
    if n > m { StartedSame(s, t, m, n - 1); }
    else if n > 0 { StartedSame(s, t, m - 1, n - 1); }
  }

  /** Each start is one started call's, in call order, and there is no other. */
  ghost predicate OneStartEach(s: State) {
    |s.starts| == |s.starters| && s.starters == StartedOf(s, |s.callers|)
  }

  lemma StartKeepsOne(s: State, k: nat, gap: real)
    requires InTurn(s) && OneStartEach(s) && Enabled(s, Start(k))
    ensures OneStartEach(Apply(s, Start(k), gap))
  {
    var t, n := Apply(s, Start(k), gap), |s.callers|;
    forall j | k < j < n ensures !s.callers[j].phase.Started? {
      assert !Released(s, k);
    }
    StartedSame(s, s, k, n);
    StartedSame(s, t, k, k);
    StartedSame(t, t, k + 1, n);
  }

  lemma StepKeepsOne(s: State, step: Step, gap: real)
    requires InTurn(s) && OneStartEach(s) && Enabled(s, step)
    ensures OneStartEach(Apply(s, step, gap))
  {
    if step.Start? {
      StartKeepsOne(s, step.k, gap);
    } else {
      var t := Apply(s, step, gap);
      StartedSame(s, t, |s.callers|, |t.callers|);
    }
  }

  // ---- Runs ----

  ghost predicate Inv(s: State, gap: real) { Chained(s) && InTurn(s) && Spaced(s, gap) && OneStartEach(s) }

  lemma StepKeepsInv(s: State, step: Step, gap: real)
    requires gap > 0.0 && Inv(s, gap) && Enabled(s, step)
    ensures Inv(Apply(s, step, gap), gap)
  {
    StepKeepsChain(s, step, gap);
    StepKeepsTurns(s, step, gap);
    StepKeepsSpaced(s, step, gap);
    StepKeepsOne(s, step, gap);
  }

  lemma {:induction false} RunKeepsInv(s: State, steps: seq<Step>, gap: real)
    requires gap > 0.0 && Inv(s, gap) && Legal(s, steps, gap)
    ensures Inv(Run(s, steps, gap), gap)
    decreases |steps|
  {
    if steps != [] {
      StepKeepsInv(s, steps[0], gap);
      RunKeepsInv(Apply(s, steps[0], gap), steps[1..], gap);
    }
  }

  lemma InitInv(gap: real)
    ensures Inv(Init(), gap)
  {}

  /** Over every run, aborts and failed preparations included: one turn at a time, granted in call order. */
  lemma OneTurnInCallOrder(steps: seq<Step>, gap: real)
    requires gap > 0.0 && Legal(Init(), steps, gap)
    ensures var s := Run(Init(), steps, gap);
            && (forall j, k :: 0 <= j < k < |s.callers| ==> !(HasTurn(s.callers[j].phase) && HasTurn(s.callers[k].phase)))
            && (forall i, j :: 0 <= i < j < |s.granted| ==> s.granted[i] < s.granted[j])
            && (forall k :: 0 <= k < |s.callers| && HasTurn(s.callers[k].phase) ==> TurnsBefore(s, k))
  {
    InitInv(gap);
    RunKeepsInv(Init(), steps, gap);
    var s := Run(Init(), steps, gap);
    forall j, k | 0 <= j < k < |s.callers| ensures !(HasTurn(s.callers[j].phase) && HasTurn(s.callers[k].phase)) {
      if HasTurn(s.callers[k].phase) { assert Released(s, j); }
    }
  }

  /**
   * Over every run the starts are those of the calls that started, one each, in call order, and the next
   * start time follows from the last of them alone: a call abandoned at whatever point consumes no slot.
   */
  lemma SlotsAreStarts(steps: seq<Step>, gap: real)
    requires gap > 0.0 && Legal(Init(), steps, gap)
    ensures var s := Run(Init(), steps, gap);
            && |s.starts| == |s.starters| && s.starters == StartedOf(s, |s.callers|)
            && s.nextStart == (if s.starts == [] then 0.0 else s.starts[|s.starts| - 1] + gap)
  {
    InitInv(gap);
    RunKeepsInv(Init(), steps, gap);
  }

  /** How many starts fall within `width` ms from `from` on. */
  function StartsWithin(starts: seq<real>, from: real, width: real): nat {
    if starts == [] then 0
    else StartsWithin(starts[..|starts| - 1], from, width)
         + (if from <= starts[|starts| - 1] <= from + width then 1 else 0)
  }

  ghost predicate Apart(starts: seq<real>, gap: real) {
    forall i, j :: 0 <= i < j < |starts| ==> starts[j] - starts[i] >= (j - i) as real * gap
  }

  /** Starts within a window are consecutive, so `n` of them span `n - 1` gaps. */
  lemma {:induction false} WindowSpan(starts: seq<real>, from: real, width: real, gap: real) returns (first: nat)
    requires gap > 0.0 && width >= 0.0 && Apart(starts, gap)
    ensures var n := StartsWithin(starts, from, width);
            n > 0 ==> first + n <= |starts| && from <= starts[first] && starts[first + n - 1] <= from + width
    ensures var n := StartsWithin(starts, from, width);
            n > 0 && starts[|starts| - 1] <= from + width ==> first + n == |starts|
  {
    first := 0;
    if starts != [] {
      var init, last := starts[..|starts| - 1], starts[|starts| - 1];
      first := WindowSpan(init, from, width, gap);
      if |init| > 0 {
        var i := |init| - 1;
        assert starts[i] == init[i];
        assert last - starts[i] >= (|init| - i) as real * gap;
      }
      if StartsWithin(init, from, width) == 0 {
        first := |init|;
      } else {
        assert last - starts[first] >= (|init| - first) as real * gap;
      }
    }
  }

  lemma CancelFactor(x: real, y: real, k: real)
    requires k > 0.0 && x * k <= y * k
    ensures x <= y
  {
    assert (y - x) * k == y * k - x * k;
  }

  /** A window is `width * rate / 1000` gaps wide. */
  lemma WidthInGaps(width: real, rate: real)
    requires rate > 0.0
    ensures width * rate / 1000.0 * (1000.0 / rate) == width
  {
    var q, gap := width * rate / 1000.0, 1000.0 / rate;
    assert gap * rate == 1000.0;
    assert q * 1000.0 == width * rate;
    assert q * gap * rate == q * (gap * rate);
    CancelFactor(q * gap, width, rate);
    CancelFactor(width, q * gap, rate);
  }

  lemma GapsInWindow(starts: seq<real>, from: real, width: real, gap: real)
    requires gap > 0.0 && width >= 0.0 && Apart(starts, gap)
    ensures var n := StartsWithin(starts, from, width);
            n > 0 ==> (n - 1) as real * gap <= width
  {
    var first := WindowSpan(starts, from, width, gap);
    var n := StartsWithin(starts, from, width);
    if n > 1 {
      assert starts[first + n - 1] - starts[first] >= (first + n - 1 - first) as real * gap;
    }
  }

  lemma WindowInGaps(steps: seq<Step>, gap: real, q: real, from: real, width: real)
    requires gap > 0.0 && width >= 0.0 && q * gap == width && q >= 0.0 && Legal(Init(), steps, gap)
    ensures StartsWithin(Run(Init(), steps, gap).starts, from, width) <= q.Floor + 1
  {
    InitInv(gap);
    RunKeepsInv(Init(), steps, gap);
    var starts := Run(Init(), steps, gap).starts;
    GapsInWindow(starts, from, width, gap);
    var n := StartsWithin(starts, from, width);
    if n > 0 {
      CancelFactor((n - 1) as real, q, gap);
    }
  }

  /** Any window of `width` ms holds at most `floor(width * rate / 1000) + 1` starts, over every run. */
  lemma PacedWindow(steps: seq<Step>, rate: real, from: real, width: real)
    requires rate > 0.0 && width >= 0.0 && Legal(Init(), steps, 1000.0 / rate)
    ensures StartsWithin(Run(Init(), steps, 1000.0 / rate).starts, from, width) <= (width * rate / 1000.0).Floor + 1
  {
    var gap, q := 1000.0 / rate, width * rate / 1000.0;
    WidthInGaps(width, rate);
    assert gap > 0.0 && q * gap == width;
    assert q >= 0.0 by { CancelFactor(0.0, q, gap); }
    WindowInGaps(steps, gap, q, from, width);
  }

  // ---- Progress ----

  lemma {:induction false} RunOn(s: State, a: seq<Step>, b: seq<Step>, gap: real)
    requires Legal(s, a, gap) && Legal(Run(s, a, gap), b, gap)
    ensures Legal(s, a + b, gap) && Run(s, a + b, gap) == Run(Run(s, a, gap), b, gap)
    decreases |a|
  {
    if a == [] {
      assert a + b == b;
    } else {
      assert (a + b)[1..] == a[1..] + b;
      RunOn(Apply(s, a[0], gap), a[1..], b, gap);
    }
  }

  lemma OneStep(s: State, step: Step, gap: real)
    requires Enabled(s, step)
    ensures Legal(s, [step], gap) && Run(s, [step], gap) == Apply(s, step, gap)
  {
    assert [step][1..] == [];
  }

  /** Only the `k`-th call is elsewhere, and it has started. */
  ghost predicate Brought(s: State, t: State, k: nat) {
    && |t.callers| == |s.callers| && Is(t, k, Started)
    && forall j :: 0 <= j < |s.callers| && j != k ==> t.callers[j] == s.callers[j]
  }

  /** The step a call whose turn it is can take, once enough time has passed. */
  function Next(s: State, k: nat): Step
    requires k < |s.callers| && !Released(s, k)
  {
    match s.callers[k].phase
    case Queued => Grant(k)
    case Pacing => if s.nextStart > s.now then Elapse(s.nextStart - s.now) else Ready(k)
    case Holding => Start(k)
  }

  function StepsLeft(s: State, k: nat): nat
    requires k < |s.callers| && !Released(s, k)
  {
    match s.callers[k].phase
    case Queued => 4
    case Pacing => if s.nextStart > s.now then 3 else 2
    case Holding => 1
  }

  /** A call whose turn it is starts within four steps: the grant, the wait, its end and the start. */
  lemma {:induction false} TurnStarts(s: State, k: nat, gap: real) returns (steps: seq<Step>)
    requires gap > 0.0 && Inv(s, gap) && k < |s.callers| && !Released(s, k) && TurnsBefore(s, k)
    ensures |steps| <= 4 && |steps| <= StepsLeft(s, k) && Legal(s, steps, gap)
    ensures Brought(s, Run(s, steps, gap), k)
    decreases StepsLeft(s, k)
  {
    ChainResolves(s, k);
    var step := Next(s, k);
    var t := Apply(s, step, gap);
    StepKeepsInv(s, step, gap);
    OneStep(s, step, gap);
    if step.Start? {
      steps := [step];
    } else {
      ReleasedStays(s, step, gap, k);
      var rest := TurnStarts(t, k, gap);
      steps := [step] + rest;
      RunOn(s, [step], rest, gap);
    }
  }

  /** No turn is ever lost: every call still waiting can be brought to its start, its predecessors first. */
  lemma {:induction false} EveryCallCanStart(s: State, k: nat, gap: real) returns (steps: seq<Step>)
    requires gap > 0.0 && Inv(s, gap) && k < |s.callers| && !Released(s, k)
    ensures |steps| <= 4 * (k + 1) && Legal(s, steps, gap) && Is(Run(s, steps, gap), k, Started)
  {
    var before := PredecessorsLetGo(s, k, gap);
    var t := Run(s, before, gap);
    RunKeepsInv(s, before, gap);
    var own := TurnStarts(t, k, gap);
    steps := before + own;
    RunOn(s, before, own, gap);
  }

  lemma {:induction false} PredecessorsLetGo(s: State, n: nat, gap: real) returns (steps: seq<Step>)
    requires gap > 0.0 && Inv(s, gap) && n <= |s.callers|
    ensures |steps| <= 4 * n && Legal(s, steps, gap)
    ensures var t := Run(s, steps, gap);
            && TurnsBefore(t, n) && |t.callers| == |s.callers|
            && forall j :: n <= j < |s.callers| ==> t.callers[j] == s.callers[j]
  {
    steps := [];
    if n > 0 {
      steps := PredecessorsLetGo(s, n - 1, gap);
      var t := Run(s, steps, gap);
      RunKeepsInv(s, steps, gap);
      if !Released(t, n - 1) {
        var own := TurnStarts(t, n - 1, gap);
        var u := Run(t, own, gap);
        RunOn(s, steps, own, gap);
        steps := steps + own;
        forall j | 0 <= j < n ensures Released(u, j) {
          if j < n - 1 { assert Released(t, j); }
        }
      }
    }
  }
}
