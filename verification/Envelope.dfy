/** Compiling a reviewed load authorization into a frozen ramp, and verifying a ramp by recompilation. */
module Envelope {
  import opened Prelude

  const MAX_PLAN_STEPS: nat := 100_000

  datatype Dimension = CallsPerSecond | ConcurrentCalls | MediaPacketsPerSecond

  datatype Maximum =
    | Rate(dimension: Dimension)
    | TotalCalls
    | DurationSeconds
    | HoldSeconds
    | CooldownSeconds
    | RecoverySeconds

  const MAXIMUM_KEYS: set<Maximum> :=
    {Rate(CallsPerSecond), Rate(ConcurrentCalls), Rate(MediaPacketsPerSecond), TotalCalls, DurationSeconds, HoldSeconds,
     CooldownSeconds, RecoverySeconds}

  type Maxima = map<Maximum, nat>

  type Reductions = map<Maximum, Option<int>>

  datatype Intensity = Intensity(callsPerSecond: nat, concurrentCalls: nat, mediaPacketsPerSecond: nat) {
    function At(d: Dimension): nat {
      match d
      case CallsPerSecond => callsPerSecond
      case ConcurrentCalls => concurrentCalls
      case MediaPacketsPerSecond => mediaPacketsPerSecond
    }

    function With(d: Dimension, level: nat): (r: Intensity)
      ensures r.At(d) == level
      ensures forall other :: other != d ==> r.At(other) == At(other)
    {
      match d
      case CallsPerSecond => this.(callsPerSecond := level)
      case ConcurrentCalls => this.(concurrentCalls := level)
      case MediaPacketsPerSecond => this.(mediaPacketsPerSecond := level)
    }
  }

  datatype Workload = Workload(intensity: Intensity, callDuration: nat)

  datatype Ramp = Ramp(dimension: Dimension, start: nat, step: nat)

  datatype Manifest = Manifest(name: string, maxima: Maxima, workload: Workload, ramp: Ramp)

  datatype Normalized = Normalized(name: string, source: Maxima, maxima: Maxima, workload: Workload, ramp: Ramp)

  datatype Budget = Budget(calls: nat, mediaPackets: nat, callSeconds: nat, duration: nat)

  const ZERO: Budget := Budget(0, 0, 0, 0)

  datatype Step = Step(index: nat, level: nat, startAt: nat, hold: nat, intensity: Intensity, budget: Budget)

  datatype Reason = AuthorizationCeiling | BudgetExhausted

  datatype Plan = Plan(
    name: string,
    digest: string,
    source: Maxima,
    maxima: Maxima,
    workload: Workload,
    ramp: Ramp,
    totals: Budget,
    totalDuration: nat,
    reason: Reason,
    reached: bool,
    steps: seq<Step>)

  datatype EnvelopeError = BadReduction | BadConstraints | Overflow | NoRoomForTail | TooManyLevels | NothingFits
                         | ExpandsSource | PlanDiffers | DigestDiffers | BadField

  // ----- inputs

  predicate Uints(m: Maxima) {
    m.Keys == MAXIMUM_KEYS && forall k :: k in m ==> 1 <= m[k] <= U64_MAX
  }

  predicate IsUint(n: nat) {
    1 <= n <= U64_MAX
  }

  predicate TypedWork(w: Workload, r: Ramp) {
    && IsUint(w.intensity.callsPerSecond) && IsUint(w.intensity.concurrentCalls)
       && IsUint(w.intensity.mediaPacketsPerSecond)
    && IsUint(w.callDuration) && IsUint(r.start) && IsUint(r.step)
  }

  predicate ConstraintsHold(maxima: Maxima, w: Workload, r: Ramp)
    requires Uints(maxima)
  {
    && w.intensity.callsPerSecond <= maxima[Rate(CallsPerSecond)]
    && w.intensity.concurrentCalls <= maxima[Rate(ConcurrentCalls)]
    && w.intensity.mediaPacketsPerSecond <= maxima[Rate(MediaPacketsPerSecond)]
    && w.callDuration <= maxima[DurationSeconds]
    && w.intensity.At(r.dimension) == r.start
    && r.start <= maxima[Rate(r.dimension)]
  }

  predicate Lowers(m: Maxima, r: Reductions) {
    forall k :: k in r && r[k].Some? ==> k in m && 1 <= r[k].value <= m[k]
  }

  function ApplyReductions(m: Maxima, r: Reductions): Result<Maxima, EnvelopeError> {
    if !Lowers(m, r) then Err(BadReduction)
    else Ok(map k | k in m :: if k in r && r[k].Some? then r[k].value else m[k])
  }

  function AsReductions(m: Maxima): Reductions {
    map k | k in m :: Some(m[k] as int)
  }

  /** Reductions only lower, and lowering to the lowered values is stable. */
  lemma ReductionsSettle(m: Maxima, r: Reductions)
    requires Uints(m) && ApplyReductions(m, r).Ok?
    ensures var low := ApplyReductions(m, r).value;
            && Uints(low) && (forall k :: k in m ==> low[k] <= m[k])
            && ApplyReductions(m, AsReductions(low)) == Ok(low)
  {
    var low := ApplyReductions(m, r).value;
    assert Lowers(m, AsReductions(low));
    assert ApplyReductions(m, AsReductions(low)).value == low;
  }

  predicate Ready(n: Normalized) {
    Uints(n.maxima) && TypedWork(n.workload, n.ramp) && ConstraintsHold(n.maxima, n.workload, n.ramp)
  }

  // ----- the ladder

  function CeilDiv(numerator: nat, denominator: nat): (q: nat)
    requires denominator > 0
    ensures q * denominator >= numerator
    ensures q > 0 ==> (q - 1) * denominator < numerator
    ensures numerator > 0 ==> q > 0
  {
    numerator / denominator + if numerator % denominator != 0 then 1 else 0
  }

  lemma LadderBounds(span: nat, step: nat, i: nat)
    requires step > 0 && i < CeilDiv(span, step)
    ensures i * step < span && (i + 1) * step == i * step + step
  {
  }

  /**
   The levels tried, in order: strictly rising from the start to exactly the maximum, never by more
   than the step. The last element is clamped, which already makes it the maximum, so the
   appending branch is never taken: the count is exactly one more than the rounded-up quotient.
   */
  function Levels(start: nat, step: nat, maximum: nat): (r: Result<seq<nat>, EnvelopeError>)
    requires step > 0 && start <= maximum
    ensures r.Err? <==> CeilDiv(maximum - start, step) + 1 > MAX_PLAN_STEPS
    ensures r.Ok? ==> |r.value| == CeilDiv(maximum - start, step) + 1
    ensures r.Ok? ==> r.value[0] == start && r.value[|r.value| - 1] == maximum
    ensures r.Ok? ==> forall i :: 0 <= i < |r.value| - 1 ==> r.value[i] < r.value[i + 1] <= r.value[i] + step
    ensures r.Ok? ==> forall i :: 0 <= i < |r.value| - 1 ==> r.value[i] == start + i * step
  {
    var count := CeilDiv(maximum - start, step) + 1;
    if count > MAX_PLAN_STEPS then Err(TooManyLevels)
    else
      var raw := seq(count, i requires 0 <= i < count => start + i * step);
      var clamped := raw[count - 1 := Min(raw[count - 1], maximum)];
      assert forall i :: 0 <= i < count - 1 ==> clamped[i] < clamped[i + 1] <= clamped[i] + step by {
        LadderRises(start, step, maximum, raw, clamped);
      }
      assert count == 1 ==> maximum == start;
      Ok(if clamped[count - 1] != maximum then clamped + [maximum] else clamped)
  }

  lemma LadderRises(start: nat, step: nat, maximum: nat, raw: seq<nat>, clamped: seq<nat>)
    requires step > 0 && start <= maximum && |raw| == CeilDiv(maximum - start, step) + 1 == |clamped|
    requires forall i :: 0 <= i < |raw| ==> raw[i] == start + i * step
    requires clamped == raw[|raw| - 1 := Min(raw[|raw| - 1], maximum)]
    ensures forall i :: 0 <= i < |raw| - 1 ==> clamped[i] < clamped[i + 1] <= clamped[i] + step
  {
    forall i | 0 <= i < |raw| - 1 ensures clamped[i] < clamped[i + 1] <= clamped[i] + step {
      LadderBounds(maximum - start, step, i);
    }
  }

  // ----- one step

  function IntensityAt(n: Normalized, level: nat): Intensity {
    n.workload.intensity.With(n.ramp.dimension, level)
  }

  /** The conservative worst case of one hold, over unbounded integers. */
  function WorstCase(i: Intensity, hold: nat, callDuration: nat): Budget
    requires callDuration > 0
  {
    Budget(Max(i.callsPerSecond * hold, i.concurrentCalls * CeilDiv(hold, callDuration)),
           i.mediaPacketsPerSecond * hold, i.concurrentCalls * hold, hold)
  }

  predicate Fits64(b: Budget) {
    b.calls <= U64_MAX && b.mediaPackets <= U64_MAX && b.callSeconds <= U64_MAX && b.duration <= U64_MAX
  }

  /** The checked computation gives the worst case exactly when every product fits 64 bits. */
  function StepBudget(i: Intensity, hold: nat, callDuration: nat): (r: Option<Budget>)
    requires callDuration > 0 && hold <= U64_MAX
    ensures r == if Fits64(WorstCase(i, hold, callDuration)) then Some(WorstCase(i, hold, callDuration)) else None
  {
    match (CheckedMul(i.callsPerSecond, hold), CheckedMul(i.concurrentCalls, CeilDiv(hold, callDuration)),
           CheckedMul(i.mediaPacketsPerSecond, hold), CheckedMul(i.concurrentCalls, hold))
    case (Some(rate), Some(concurrency), Some(media), Some(seconds)) =>
      Some(Budget(Max(rate, concurrency), media, seconds, hold))
    case _ => None
  }

  function StepCost(n: Normalized, level: nat): Budget
    requires Ready(n)
  {
    WorstCase(IntensityAt(n, level), n.maxima[HoldSeconds], n.workload.callDuration)
  }

  function Tail(n: Normalized): nat
    requires Ready(n)
  {
    n.maxima[CooldownSeconds] + n.maxima[RecoverySeconds]
  }

  function Plus(a: Budget, b: Budget): Budget {
    Budget(a.calls + b.calls, a.mediaPackets + b.mediaPackets, a.callSeconds + b.callSeconds, a.duration + b.duration)
  }

  /** Unbounded sum of the first k step budgets. */
  function Spent(n: Normalized, levels: seq<nat>, k: nat): Budget
    requires Ready(n) && k <= |levels|
  {
    if k == 0 then ZERO else Plus(Spent(n, levels, k - 1), StepCost(n, levels[k - 1]))
  }

  // ----- the compiler loop

  datatype Progress = Progress(totals: Budget, steps: seq<Step>, stopped: bool)

  /** One pass of the loop body, with every addition checked in the source's order. */
  function Advance(n: Normalized, p: Progress, level: nat): Result<Progress, EnvelopeError>
    requires Ready(n) && Tail(n) <= U64_MAX
  {
    if p.stopped then Ok(p)
    else
      var hold := n.maxima[HoldSeconds];
      match StepBudget(IntensityAt(n, level), hold, n.workload.callDuration)
      case None => Err(Overflow)
      case Some(budget) =>
        match (CheckedAdd(p.totals.calls, budget.calls), CheckedAdd(p.totals.duration, budget.duration))
        case (Some(calls), Some(duration)) =>
          (match CheckedAdd(duration, Tail(n))
           case None => Err(Overflow)
           case Some(total) =>
             if calls > n.maxima[TotalCalls] || total > n.maxima[DurationSeconds] then Ok(p.(stopped := true))
             else
               match (CheckedAdd(p.totals.mediaPackets, budget.mediaPackets),
                      CheckedAdd(p.totals.callSeconds, budget.callSeconds))
               case (Some(media), Some(seconds)) =>
                 Ok(Progress(Budget(calls, media, seconds, duration),
                             p.steps + [Step(|p.steps| + 1, level, p.totals.duration, hold, IntensityAt(n, level),
                                             budget)],
                             false))
               case _ => Err(Overflow))
        case _ => Err(Overflow)
  }

  function Climb(n: Normalized, levels: seq<nat>): Result<Progress, EnvelopeError>
    requires Ready(n) && Tail(n) <= U64_MAX
  {
    if levels == [] then Ok(Progress(ZERO, [], false))
    else
      match Climb(n, levels[..|levels| - 1])
      case Err(e) => Err(e)
      case Ok(p) => Advance(n, p, levels[|levels| - 1])
  }

  /** The frozen plan, as a function of the normalized manifest. */
  function PlanOf(n: Normalized, digest: string): Result<Plan, EnvelopeError>
    requires Ready(n)
  {
    if Tail(n) > U64_MAX then Err(Overflow)
    else if Tail(n) >= n.maxima[DurationSeconds] then Err(NoRoomForTail)
    else
      match Levels(n.ramp.start, n.ramp.step, n.maxima[Rate(n.ramp.dimension)])
      case Err(e) => Err(e)
      case Ok(levels) =>
        match Climb(n, levels)
        case Err(e) => Err(e)
        case Ok(p) =>
          if p.steps == [] then Err(NothingFits)
          else if p.totals.duration + Tail(n) > U64_MAX then Err(Overflow)
          else
            var reached := p.steps[|p.steps| - 1].level == n.maxima[Rate(n.ramp.dimension)];
            var reason := if p.stopped || !reached then BudgetExhausted else AuthorizationCeiling;
            Ok(Plan(n.name, digest, n.source, n.maxima, n.workload, n.ramp, p.totals, p.totals.duration + Tail(n),
                    reason, reached, p.steps))
  }

  /** The loop body: evaluate one level against what is already committed. */
  method TryLevel(n: Normalized, tail: nat, totals: Budget, steps: seq<Step>, level: nat)
    returns (r: Result<Progress, EnvelopeError>)
    requires Ready(n) && tail == Tail(n) <= U64_MAX
    ensures r == Advance(n, Progress(totals, steps, false), level)
  {
    hide StepBudget, IntensityAt;
    var hold := n.maxima[HoldSeconds];
    var budget := StepBudget(IntensityAt(n, level), hold, n.workload.callDuration);
    if budget.None? {
      return Err(Overflow);
    }
    var calls := CheckedAdd(totals.calls, budget.value.calls);
    var duration := CheckedAdd(totals.duration, budget.value.duration);
    if calls.None? || duration.None? {
      return Err(Overflow);
    }
    var total := CheckedAdd(duration.value, tail);
    if total.None? {
      return Err(Overflow);
    }
    if calls.value > n.maxima[TotalCalls] || total.value > n.maxima[DurationSeconds] {
      return Ok(Progress(totals, steps, true));
    }
    var media := CheckedAdd(totals.mediaPackets, budget.value.mediaPackets);
    var seconds := CheckedAdd(totals.callSeconds, budget.value.callSeconds);
    if media.None? || seconds.None? {
      return Err(Overflow);
    }
    r := Ok(Progress(Budget(calls.value, media.value, seconds.value, duration.value),
                     steps + [Step(|steps| + 1, level, totals.duration, hold, IntensityAt(n, level), budget.value)],
                       false));
  }

  /** Climb the ladder until a level is unaffordable or an addition overflows. */
  method ClimbLadder(n: Normalized, tail: nat, levels: seq<nat>) returns (r: Result<Progress, EnvelopeError>)
    requires Ready(n) && tail == Tail(n) <= U64_MAX
    ensures r == Climb(n, levels)
  {
    hide Ready, Advance, Tail;
    var totals, steps: seq<Step> := ZERO, [];
    for i := 0 to |levels|
      invariant Climb(n, levels[..i]) == Ok(Progress(totals, steps, false))
    {
      assert levels[..i + 1][..i] == levels[..i];
      var next := TryLevel(n, tail, totals, steps, levels[i]);
      if next.Err? {
        FailedClimb(n, levels, i + 1);
        return next;
      }
      if next.value.stopped {
        StoppedClimb(n, levels, i + 1);
        return next;
      }
      totals, steps := next.value.totals, next.value.steps;
      NeverUnstops(n, Progress(totals, steps, false), next.value);
    }
    assert levels[..|levels|] == levels;
    r := Ok(Progress(totals, steps, false));
  }

  lemma NeverUnstops(n: Normalized, p: Progress, q: Progress)
    requires q.totals == p.totals && q.steps == p.steps && q.stopped == p.stopped
    ensures p == q
  {
  }

  method CompileNormalized(n: Normalized, digest: string) returns (r: Result<Plan, EnvelopeError>)
    requires Ready(n)
    ensures r == PlanOf(n, digest)
  {
    hide Climb, Levels;
    var tail := CheckedAdd(n.maxima[CooldownSeconds], n.maxima[RecoverySeconds]);
    if tail.None? {
      return Err(Overflow);
    }
    if tail.value >= n.maxima[DurationSeconds] {
      return Err(NoRoomForTail);
    }
    var ladder := Levels(n.ramp.start, n.ramp.step, n.maxima[Rate(n.ramp.dimension)]);
    if ladder.Err? {
      return Err(ladder.error);
    }
    var climbed := ClimbLadder(n, tail.value, ladder.value);
    if climbed.Err? {
      return Err(climbed.error);
    }
    var totals, steps := climbed.value.totals, climbed.value.steps;
    var reason := if climbed.value.stopped then BudgetExhausted else AuthorizationCeiling;
    if steps == [] {
      return Err(NothingFits);
    }
    var reached := steps[|steps| - 1].level == n.maxima[Rate(n.ramp.dimension)];
    if !reached {
      reason := BudgetExhausted;
    }
    if totals.duration > U64_MAX - tail.value {
      return Err(Overflow);
    }
    r := Ok(Plan(n.name, digest, n.source, n.maxima, n.workload, n.ramp, totals, totals.duration + tail.value, reason,
                 reached, steps));
  }

  lemma {:induction false} FailedClimb(n: Normalized, levels: seq<nat>, k: nat)
    requires Ready(n) && Tail(n) <= U64_MAX && k <= |levels|
    ensures Climb(n, levels[..k]).Err? ==> Climb(n, levels) == Climb(n, levels[..k])
    decreases |levels|
  {
    if k == |levels| {
      assert levels[..k] == levels;
    } else {
      assert levels[..|levels| - 1][..k] == levels[..k];
      FailedClimb(n, levels[..|levels| - 1], k);
    }
  }

  lemma {:induction false} StoppedClimb(n: Normalized, levels: seq<nat>, k: nat)
    requires Ready(n) && Tail(n) <= U64_MAX && k <= |levels|
    requires Climb(n, levels[..k]).Ok? && Climb(n, levels[..k]).value.stopped
    ensures Climb(n, levels) == Climb(n, levels[..k])
    decreases |levels|
  {
    if k == |levels| {
      assert levels[..k] == levels;
    } else {
      assert levels[..|levels| - 1][..k] == levels[..k];
      StoppedClimb(n, levels[..|levels| - 1], k);
    }
  }

  // ----- what the plan is

  /** The first k levels stay inside the call and duration maxima. */
  ghost predicate Affordable(n: Normalized, levels: seq<nat>, k: nat)
    requires Ready(n) && k <= |levels|
  {
    Spent(n, levels, k).calls <= n.maxima[TotalCalls]
      && Spent(n, levels, k).duration + Tail(n) <= n.maxima[DurationSeconds]
  }

  /** Examining level k (the first k being affordable) overflows 64 bits somewhere. */
  ghost predicate OverflowsAt(n: Normalized, levels: seq<nat>, k: nat)
    requires Ready(n) && k < |levels|
  {
    || !Fits64(StepCost(n, levels[k]))
    || Spent(n, levels, k + 1).calls > U64_MAX
    || Spent(n, levels, k + 1).duration + Tail(n) > U64_MAX
    || (Affordable(n, levels, k + 1) && !Fits64(Spent(n, levels, k + 1)))
  }

  ghost predicate PlannedStep(n: Normalized, levels: seq<nat>, i: nat, s: Step)
    requires Ready(n) && i < |levels|
  {
    s == Step(i + 1, levels[i], i * n.maxima[HoldSeconds], n.maxima[HoldSeconds], IntensityAt(n, levels[i]),
              StepCost(n, levels[i]))
  }

  ghost predicate ClimbedTo(n: Normalized, levels: seq<nat>, k: nat, p: Progress)
    requires Ready(n) && k <= |levels|
  {
    && |p.steps| == k && p.totals == Spent(n, levels, k) && Affordable(n, levels, k)
    && forall i :: 0 <= i < k ==> PlannedStep(n, levels, i, p.steps[i]) && !OverflowsAt(n, levels, i)
  }

  lemma {:induction false} SpentDuration(n: Normalized, levels: seq<nat>, k: nat)
    requires Ready(n) && k <= |levels|
    ensures Spent(n, levels, k).duration == k * n.maxima[HoldSeconds]
  {
    if k > 0 {
      SpentDuration(n, levels, k - 1);
    }
  }

  lemma {:induction false} SpentGrows(n: Normalized, levels: seq<nat>, j: nat, k: nat)
    requires Ready(n) && j <= k <= |levels|
    ensures Spent(n, levels, j).calls <= Spent(n, levels, k).calls
            && Spent(n, levels, j).duration <= Spent(n, levels, k).duration
    ensures Affordable(n, levels, k) ==> Affordable(n, levels, j)
  {
    if j < k {
      SpentGrows(n, levels, j, k - 1);
    }
  }

  /** One step of the loop from an affordable prefix: overflow, stop, or one more affordable level. */
  lemma AdvanceOutcome(n: Normalized, levels: seq<nat>, k: nat, p: Progress)
    requires Ready(n) && Tail(n) <= U64_MAX && k < |levels| && ClimbedTo(n, levels, k, p) && !p.stopped
    ensures var r := Advance(n, p, levels[k]);
            if OverflowsAt(n, levels, k) then r == Err(Overflow)
            else if Affordable(n, levels, k + 1) then r.Ok? && !r.value.stopped && ClimbedTo(n, levels, k + 1, r.value)
            else r == Ok(p.(stopped := true))
  {
    SpentDuration(n, levels, k);
    SpentGrows(n, levels, k, k + 1);
    var cost := StepCost(n, levels[k]);
    assert Spent(n, levels, k + 1) == Plus(Spent(n, levels, k), cost);
    var r := Advance(n, p, levels[k]);
    if r.Ok? && !r.value.stopped {
      forall i | 0 <= i < k + 1 ensures PlannedStep(n, levels, i, r.value.steps[i]) && !OverflowsAt(n, levels, i) {
        if i < k {
          assert r.value.steps[i] == p.steps[i];
        }
      }
    }
  }

  lemma NothingClimbed(n: Normalized, levels: seq<nat>)
    requires Ready(n) && Tail(n) < n.maxima[DurationSeconds]
    ensures Climb(n, levels[..0]).Ok? && !Climb(n, levels[..0]).value.stopped && Climb(n, levels[..0]).value.steps == []
    ensures ClimbedTo(n, levels, 0, Climb(n, levels[..0]).value)
  {
    assert levels[..0] == [];
  }

  lemma LastClimbed(n: Normalized, levels: seq<nat>, m: nat)
    requires Ready(n) && Tail(n) < n.maxima[DurationSeconds] && m < |levels|
    ensures var front := Climb(n, levels[..m]);
            Climb(n, levels[..m + 1]) == if front.Err? || front.value.stopped then front
              else Advance(n, front.value, levels[m])
  {
    assert levels[..m + 1][..m] == levels[..m];
    var front := Climb(n, levels[..m]);
    if front.Ok? && front.value.stopped {
      StoppedStays(n, front.value, levels[m]);
    }
    hide Advance;
  }

  lemma StoppedStays(n: Normalized, p: Progress, level: nat)
    requires Ready(n) && Tail(n) <= U64_MAX && p.stopped
    ensures Advance(n, p, level) == Ok(p)
  {
  }

  /** The loop climbs while it can afford to and reports an overflow only at a level it reaches. */
  lemma {:induction false} ClimbOutcome(n: Normalized, levels: seq<nat>, m: nat)
    requires Ready(n) && Tail(n) < n.maxima[DurationSeconds] && m <= |levels|
    ensures var r := Climb(n, levels[..m]);
            if r.Err? then r.error == Overflow && exists k ::
              0 <= k < m && Affordable(n, levels, k) && OverflowsAt(n, levels, k)
            else
              && |r.value.steps| <= m && ClimbedTo(n, levels, |r.value.steps|, r.value)
              && (!r.value.stopped ==> |r.value.steps| == m)
              && (r.value.stopped ==> |r.value.steps| < m && !Affordable(n, levels, |r.value.steps| + 1)
                                      && !OverflowsAt(n, levels, |r.value.steps|))
  {
    if m == 0 {
      NothingClimbed(n, levels);
    } else {
      hide Advance, OverflowsAt, Affordable, PlannedStep, Spent;
      LastClimbed(n, levels, m - 1);
      ClimbOutcome(n, levels, m - 1);
      var front := Climb(n, levels[..m - 1]);
      if front.Ok? && !front.value.stopped {
        AdvanceOutcome(n, levels, m - 1, front.value);
      }
    }
  }

  /**
   The compiled ramp is the longest affordable prefix of the ladder: k steps, each at its ladder
   level and k-th hold, the next level unaffordable or absent, totals the exact sums, and the
   reason is the authorization ceiling exactly when the whole ladder was emitted.
   */
  ghost predicate LongestAffordable(n: Normalized, plan: Plan, levels: seq<nat>)
    requires Ready(n)
  {
    var k := |plan.steps|;
    && 1 <= k <= |levels|
    && (forall i :: 0 <= i < k ==> PlannedStep(n, levels, i, plan.steps[i]))
    && (forall j :: 0 <= j <= k ==> Affordable(n, levels, j))
    && (forall j :: k < j <= |levels| ==> !Affordable(n, levels, j))
    && plan.totals == Spent(n, levels, k) && Fits64(plan.totals)
    && plan.totalDuration == k * n.maxima[HoldSeconds] + Tail(n)
    && (plan.reached <==> k == |levels|)
    && (plan.reason == AuthorizationCeiling <==> k == |levels|)
  }

  lemma SpentNeverOverflows(n: Normalized, levels: seq<nat>, k: nat)
    requires Ready(n) && k <= |levels|
    requires forall i :: 0 <= i < k ==> !OverflowsAt(n, levels, i) && Affordable(n, levels, i + 1)
    ensures Fits64(Spent(n, levels, k))
  {
    if k > 0 {
      assert !OverflowsAt(n, levels, k - 1) && Affordable(n, levels, k);
    }
  }

  lemma PlanIsLongestAffordable(n: Normalized, digest: string)
    requires Ready(n) && PlanOf(n, digest).Ok?
    ensures Levels(n.ramp.start, n.ramp.step, n.maxima[Rate(n.ramp.dimension)]).Ok?
    ensures LongestAffordable(n, PlanOf(n, digest).value,
                              Levels(n.ramp.start, n.ramp.step, n.maxima[Rate(n.ramp.dimension)]).value)
  {
    hide Levels, Climb, ClimbedTo;
    var levels := Levels(n.ramp.start, n.ramp.step, n.maxima[Rate(n.ramp.dimension)]).value;
    ClimbOutcome(n, levels, |levels|);
    assert levels[..|levels|] == levels;
    ClimbIsLongest(n, levels, Climb(n, levels).value, PlanOf(n, digest).value);
  }

  lemma ClimbIsLongest(n: Normalized, levels: seq<nat>, p: Progress, plan: Plan)
    requires Ready(n) && p.steps != [] && |p.steps| <= |levels| && ClimbedTo(n, levels, |p.steps|, p)
    requires !p.stopped ==> |p.steps| == |levels|
    requires p.stopped ==> |p.steps| < |levels| && !Affordable(n, levels, |p.steps| + 1)
    requires forall j :: 0 <= j < |levels| - 1 ==> levels[j] < levels[j + 1]
    requires levels != [] && levels[|levels| - 1] == n.maxima[Rate(n.ramp.dimension)]
    requires plan.steps == p.steps && plan.totals == p.totals && plan.totalDuration == p.totals.duration + Tail(n)
    requires plan.reached <==> p.steps[|p.steps| - 1].level == n.maxima[Rate(n.ramp.dimension)]
    requires plan.reason == if p.stopped || !plan.reached then BudgetExhausted else AuthorizationCeiling
    ensures LongestAffordable(n, plan, levels)
  {
    hide OverflowsAt, StepCost, Spent, Affordable;
    var k := |p.steps|;
    forall j | 0 <= j <= k ensures Affordable(n, levels, j) {
      SpentGrows(n, levels, j, k);
    }
    SpentNeverOverflows(n, levels, k);
    forall j | k < j <= |levels| ensures !Affordable(n, levels, j) {
      SpentGrows(n, levels, k + 1, j);
    }
    SpentDuration(n, levels, k);
    LastLevelOnly(levels, k - 1);
    assert PlannedStep(n, levels, k - 1, p.steps[k - 1]);
  }

  lemma {:induction false} LastLevelOnly(levels: seq<nat>, i: nat)
    requires i < |levels| && forall j :: 0 <= j < |levels| - 1 ==> levels[j] < levels[j + 1]
    ensures levels[i] <= levels[|levels| - 1]
    ensures levels[i] == levels[|levels| - 1] <==> i == |levels| - 1
    decreases |levels| - i
  {
    if i < |levels| - 1 {
      LastLevelOnly(levels, i + 1);
    }
  }

  /** The climb is refused exactly when evaluating some level that is reached overflows. */
  lemma ClimbOverflows(n: Normalized, levels: seq<nat>)
    requires Ready(n) && Tail(n) < n.maxima[DurationSeconds]
    ensures Climb(n, levels).Err? <==>
            exists k :: 0 <= k < |levels| && Affordable(n, levels, k) && OverflowsAt(n, levels, k)
    ensures Climb(n, levels).Err? ==> Climb(n, levels).error == Overflow
  {
    hide Advance, OverflowsAt, Climb;
    ClimbOutcome(n, levels, |levels|);
    assert levels[..|levels|] == levels;
    var r := Climb(n, levels);
    if r.Ok? {
      var k := |r.value.steps|;
      forall j | 0 <= j < |levels| && Affordable(n, levels, j) ensures !OverflowsAt(n, levels, j) {
        if j > k {
          SpentGrows(n, levels, k + 1, j);
        }
      }
    }
  }

  /**
   Compilation succeeds exactly when the tail leaves room, the ladder is short enough, one level fits, and no level
   reached overflows.
   */
  lemma PlanExists(n: Normalized, digest: string)
    requires Ready(n)
    ensures PlanOf(n, digest).Ok? <==>
              && Tail(n) < n.maxima[DurationSeconds]
              && Levels(n.ramp.start, n.ramp.step, n.maxima[Rate(n.ramp.dimension)]).Ok?
              && var levels := Levels(n.ramp.start, n.ramp.step, n.maxima[Rate(n.ramp.dimension)]).value;
                 && Affordable(n, levels, 1)
                 && forall k :: 0 <= k < |levels| && Affordable(n, levels, k) ==> !OverflowsAt(n, levels, k)
  {
    hide Levels, Advance, OverflowsAt, StepCost;
    var ladder := Levels(n.ramp.start, n.ramp.step, n.maxima[Rate(n.ramp.dimension)]);
    if Tail(n) < n.maxima[DurationSeconds] && ladder.Ok? {
      var levels := ladder.value;
      ClimbOverflows(n, levels);
      ClimbOutcome(n, levels, |levels|);
      assert levels[..|levels|] == levels;
      if Climb(n, levels).Ok? {
        var k := |Climb(n, levels).value.steps|;
        SpentGrows(n, levels, Min(k, 1), k);
      }
    }
  }

  // ----- manifests, validation, verification

  function Normalize(m: Manifest, r: Reductions): Result<Normalized, EnvelopeError>
    requires Uints(m.maxima) && TypedWork(m.workload, m.ramp)
  {
    match ApplyReductions(m.maxima, r)
    case Err(e) => Err(e)
    case Ok(low) =>
      ReductionsSettle(m.maxima, r);
      if !ConstraintsHold(low, m.workload, m.ramp) then Err(BadConstraints)
      else Ok(Normalized(m.name, m.maxima, low, m.workload, m.ramp))
  }

  function CompilePlan(m: Manifest, digest: string, r: Reductions): Result<Plan, EnvelopeError>
    requires Uints(m.maxima) && TypedWork(m.workload, m.ramp)
  {
    match Normalize(m, r)
    case Err(e) => Err(e)
    case Ok(n) =>
      ReductionsSettle(m.maxima, r);
      PlanOf(n, digest)
  }

  function NormalizedOf(plan: Plan): Normalized {
    Normalized(plan.name, plan.source, plan.maxima, plan.workload, plan.ramp)
  }

  /** Any plan document: recompute it from its own inputs and compare. */
  function ValidatePlan(plan: Plan): Result<Plan, EnvelopeError> {
    if !Uints(plan.source) || !Uints(plan.maxima) || !TypedWork(plan.workload, plan.ramp) then Err(BadField)
    else if exists k :: k in MAXIMUM_KEYS && plan.maxima[k] > plan.source[k] then Err(ExpandsSource)
    else if !ConstraintsHold(plan.maxima, plan.workload, plan.ramp) then Err(BadConstraints)
    else
      match PlanOf(NormalizedOf(plan), plan.digest)
      case Err(e) => Err(e)
      case Ok(expected) => if expected != plan then Err(PlanDiffers) else Ok(plan)
  }

  /** The plan validates; said through a name, so that assuming it does not unfold the compiler. */
  ghost predicate Validated(plan: Plan) {
    Uints(plan.maxima) && forall p :: p == plan ==> ValidatePlan(p).Ok?
  }

  function VerifyPlan(plan: Plan, m: Manifest, digest: string): Result<Plan, EnvelopeError>
    requires Uints(m.maxima) && TypedWork(m.workload, m.ramp)
  {
    match ValidatePlan(plan)
    case Err(e) => Err(e)
    case Ok(_) =>
      if digest != plan.digest then Err(DigestDiffers)
      else
        match CompilePlan(m, digest, AsReductions(plan.maxima))
        case Err(e) => Err(e)
        case Ok(expected) => if expected != plan then Err(PlanDiffers) else Ok(plan)
  }

  lemma PlanKeepsInputs(n: Normalized, digest: string)
    requires Ready(n) && PlanOf(n, digest).Ok?
    ensures NormalizedOf(PlanOf(n, digest).value) == n && PlanOf(n, digest).value.digest == digest
  {
  }

  /** Every plan the compiler emits, under any lowering, validates and verifies against its manifest. */
  lemma CompiledPlansVerify(m: Manifest, digest: string, r: Reductions)
    requires Uints(m.maxima) && TypedWork(m.workload, m.ramp) && CompilePlan(m, digest, r).Ok?
    ensures var plan := CompilePlan(m, digest, r).value;
            ValidatePlan(plan) == Ok(plan) && VerifyPlan(plan, m, digest) == Ok(plan)
  {
    hide PlanOf;
    ReductionsSettle(m.maxima, r);
    PlanKeepsInputs(Normalize(m, r).value, digest);
  }

  /** A plan is accepted exactly when some lowering of its manifest compiles to it. */
  lemma AcceptedExactly(plan: Plan, m: Manifest, digest: string)
    requires Uints(m.maxima) && TypedWork(m.workload, m.ramp)
    ensures VerifyPlan(plan, m, digest) == Ok(plan) <==> exists r :: CompilePlan(m, digest, r) == Ok(plan)
  {
    if VerifyPlan(plan, m, digest) == Ok(plan) {
      VerifiedPlansAreCompiled(plan, m, digest);
    }
    hide CompilePlan, VerifyPlan;
    forall r | CompilePlan(m, digest, r) == Ok(plan)
      ensures VerifyPlan(plan, m, digest) == Ok(plan)
    {
      CompiledPlansVerify(m, digest, r);
    }
  }

  /**
   An accepted plan is exactly a compilation of the manifest it was checked against, never above the reviewed
   maxima.
   */
  lemma VerifiedPlansAreCompiled(plan: Plan, m: Manifest, digest: string)
    requires Uints(m.maxima) && TypedWork(m.workload, m.ramp) && VerifyPlan(plan, m, digest).Ok?
    ensures CompilePlan(m, digest, AsReductions(plan.maxima)) == Ok(plan)
    ensures plan.source == m.maxima && plan.workload == m.workload && plan.ramp == m.ramp
    ensures forall k :: k in MAXIMUM_KEYS ==> plan.maxima[k] <= m.maxima[k]
  {
    hide PlanOf;
    ReductionsSettle(m.maxima, AsReductions(plan.maxima));
    PlanKeepsInputs(Normalize(m, AsReductions(plan.maxima)).value, digest);
  }

  /** So a validated plan is a longest affordable ramp of its own inputs. */
  lemma ValidatedIsLongest(plan: Plan)
    requires Validated(plan)
    ensures Ready(NormalizedOf(plan)) && Tail(NormalizedOf(plan)) < plan.maxima[DurationSeconds]
    ensures Levels(plan.ramp.start, plan.ramp.step, plan.maxima[Rate(plan.ramp.dimension)]).Ok?
    ensures LongestAffordable(NormalizedOf(plan), plan,
                              Levels(plan.ramp.start, plan.ramp.step, plan.maxima[Rate(plan.ramp.dimension)]).value)
  {
    assert ValidatePlan(plan).Ok?;
    PlanIsLongestAffordable(NormalizedOf(plan), plan.digest);
  }

  const SMALL_MAXIMA: Maxima :=
    map[Rate(CallsPerSecond) := U64_MAX, Rate(ConcurrentCalls) := 1, Rate(MediaPacketsPerSecond) := 1,
        TotalCalls := 2, DurationSeconds := 100, HoldSeconds := 2, CooldownSeconds := 1, RecoverySeconds := 1]

  const STEEP: Normalized :=
    Normalized("steep", SMALL_MAXIMA, SMALL_MAXIMA, Workload(Intensity(1, 1, 1), 1),
               Ramp(CallsPerSecond, 1, U64_MAX - 1))

  lemma SteepLadder()
    ensures Ready(STEEP) && Levels(1, U64_MAX - 1, U64_MAX) == Ok([1, U64_MAX])
  {
    assert CeilDiv(U64_MAX - 1, U64_MAX - 1) == 1;
    assert Levels(1, U64_MAX - 1, U64_MAX).value == [1, U64_MAX];
  }

  lemma SteepCosts()
    requires Ready(STEEP)
    ensures Affordable(STEEP, [1, U64_MAX], 1) && OverflowsAt(STEEP, [1, U64_MAX], 1)
  {
    hide Ready;
    var levels := [1, U64_MAX];
    assert CeilDiv(2, 1) == 2;
    assert StepCost(STEEP, levels[0]) == Budget(2, 2, 2, 2);
    assert Spent(STEEP, levels, 1) == Plus(Spent(STEEP, levels, 0), StepCost(STEEP, levels[0]));
    assert StepCost(STEEP, levels[1]).calls > U64_MAX;
  }

  lemma SteepPlan()
    requires Ready(STEEP) && Levels(1, U64_MAX - 1, U64_MAX) == Ok([1, U64_MAX])
    requires Climb(STEEP, [1, U64_MAX]) == Err(Overflow)
    ensures PlanOf(STEEP, "digest") == Err(Overflow)
  {
    hide Climb, Levels;
  }

  /**
   The documentation says planning stops before the first unfunded level. When evaluating that level
   overflows 64 bits, compilation is refused instead: here the first level is fully funded.
   */
  lemma OverflowInsteadOfExhaustion()
    ensures Ready(STEEP) && PlanOf(STEEP, "digest") == Err(Overflow) && Affordable(STEEP, [1, U64_MAX], 1)
  {
    hide PlanOf, Affordable, OverflowsAt, Levels;
    SteepLadder();
    SteepCosts();
    ClimbOverflows(STEEP, [1, U64_MAX]);
    SteepPlan();
  }
}
