/**
 What a compiled ramp is, told without the compiler: levels, peak budgets, totals, and why it stops where it
 stops.
 */
module RampMeaning {
  import opened Prelude
  import opened Envelope
  import opened LoadBounds

  function Ceiling(n: Normalized): nat
    requires Ready(n)
  {
    n.maxima[Rate(n.ramp.dimension)]
  }

  /** The i-th level: the start raised i times by the step, but never above the ceiling. */
  function LevelAt(n: Normalized, i: nat): nat
    requires Ready(n)
  {
    var raised := n.ramp.start + i * n.ramp.step;
    if raised < Ceiling(n) then raised else Ceiling(n)
  }

  /** There is an i-th level when the one before was still below the ceiling. */
  predicate OnLadder(n: Normalized, i: nat)
    requires Ready(n)
  {
    i == 0 || n.ramp.start + (i - 1) * n.ramp.step < Ceiling(n)
  }

  /** The workload with the ramped dimension at a level. */
  function IntensityFor(n: Normalized, level: nat): Intensity {
    var base := n.workload.intensity;
    match n.ramp.dimension
    case CallsPerSecond => Intensity(level, base.concurrentCalls, base.mediaPacketsPerSecond)
    case ConcurrentCalls => Intensity(base.callsPerSecond, level, base.mediaPacketsPerSecond)
    case MediaPacketsPerSecond => Intensity(base.callsPerSecond, base.concurrentCalls, level)
  }

  ghost predicate PeakAt(n: Normalized, i: nat, b: Budget)
    requires Ready(n)
  {
    Peak(IntensityFor(n, LevelAt(n, i)), n.maxima[HoldSeconds], n.workload.callDuration, b)
  }

  ghost predicate RampStep(n: Normalized, i: nat, s: Step)
    requires Ready(n)
  {
    && OnLadder(n, i) && s.index == i + 1 && s.level == LevelAt(n, i)
    && s.startAt == i * n.maxima[HoldSeconds] && s.hold == n.maxima[HoldSeconds]
    && s.intensity == IntensityFor(n, s.level) && PeakAt(n, i, s.budget)
  }

  ghost predicate RampSteps(n: Normalized, steps: seq<Step>)
    requires Ready(n)
  {
    forall i :: 0 <= i < |steps| ==> RampStep(n, i, steps[i])
  }

  function SumOf(steps: seq<Step>): Budget {
    if steps == [] then Budget(0, 0, 0, 0)
    else
      var before, b := SumOf(steps[..|steps| - 1]), steps[|steps| - 1].budget;
      Budget(before.calls + b.calls, before.mediaPackets + b.mediaPackets, before.callSeconds + b.callSeconds,
             before.duration + b.duration)
  }

  predicate Fits(b: Budget) {
    b.calls <= U64_MAX && b.mediaPackets <= U64_MAX && b.callSeconds <= U64_MAX && b.duration <= U64_MAX
  }

  function Reserved(n: Normalized): nat
    requires Ready(n)
  {
    n.maxima[CooldownSeconds] + n.maxima[RecoverySeconds]
  }

  predicate InMaxima(n: Normalized, totals: Budget)
    requires Ready(n)
  {
    totals.calls <= n.maxima[TotalCalls] && totals.duration + Reserved(n) <= n.maxima[DurationSeconds]
  }

  /** One more step would pass the call or the duration maximum; seeing that takes no number beyond 64 bits. */
  ghost predicate NextTooMuch(n: Normalized, totals: Budget, k: nat)
    requires Ready(n)
  {
    exists b ::
      && PeakAt(n, k, b) && Fits(b)
      && totals.calls + b.calls <= U64_MAX && totals.duration + b.duration + Reserved(n) <= U64_MAX
      && (totals.calls + b.calls > n.maxima[TotalCalls]
          || totals.duration + b.duration + Reserved(n) > n.maxima[DurationSeconds])
  }

  /** Everything a compiled ramp is. */
  ghost predicate RampMeets(n: Normalized, digest: string, plan: Plan)
    requires Ready(n)
  {
    && ForInputs(n, digest, plan)
    && Reserved(n) < n.maxima[DurationSeconds] && !OnLadder(n, 100_000)
    && RampSteps(n, plan.steps) && ClimbsOut(n, plan)
  }

  predicate ForInputs(n: Normalized, digest: string, plan: Plan) {
    && plan.name == n.name && plan.digest == digest && plan.source == n.source && plan.maxima == n.maxima
    && plan.workload == n.workload && plan.ramp == n.ramp
  }

  ghost predicate ClimbsOut(n: Normalized, plan: Plan)
    requires Ready(n)
  {
    var k := |plan.steps|;
    && k >= 1
    && plan.totals == SumOf(plan.steps) && Fits(plan.totals) && InMaxima(n, plan.totals)
    && plan.totalDuration == plan.totals.duration + Reserved(n)
    && (OnLadder(n, k) ==> NextTooMuch(n, plan.totals, k))
    && (plan.reached <==> !OnLadder(n, k))
    && plan.reason == if OnLadder(n, k) then BudgetExhausted else AuthorizationCeiling
  }

  // ----- the ladder

  lemma {:induction false} Multiples(i: nat, j: nat, step: nat)
    requires i <= j
    ensures i * step <= j * step && (step > 0 && i < j ==> i * step + step <= j * step)
    decreases j - i
  {
    if i < j {
      Multiples(i, j - 1, step);
    }
  }

  lemma LadderIs(n: Normalized)
    requires Ready(n)
    ensures Levels(n.ramp.start, n.ramp.step, Ceiling(n)).Ok? <==> !OnLadder(n, 100_000)
    ensures Levels(n.ramp.start, n.ramp.step, Ceiling(n)).Ok? ==>
              var levels := Levels(n.ramp.start, n.ramp.step, Ceiling(n)).value;
              && (forall i: nat :: OnLadder(n, i) <==> i < |levels|)
              && forall i: nat :: i < |levels| ==> levels[i] == LevelAt(n, i)
  {
    var span, step := Ceiling(n) - n.ramp.start, n.ramp.step;
    var q := CeilDiv(span, step);
    forall i: nat ensures OnLadder(n, i) <==> i < q + 1 {
      RungIs(span, step, i);
    }
    var ladder := Levels(n.ramp.start, step, Ceiling(n));
    if ladder.Ok? {
      var levels := ladder.value;
      forall i: nat | i < |levels| ensures levels[i] == LevelAt(n, i) {
        if i < q {
          LadderBounds(span, step, i);
        }
      }
    }
  }

  lemma RungIs(span: nat, step: nat, i: nat)
    requires step > 0
    ensures i == 0 || (i - 1) * step < span <==> i < CeilDiv(span, step) + 1
  {
    var q := CeilDiv(span, step);
    if i > 0 {
      if i - 1 < q {
        LadderBounds(span, step, i - 1);
      } else {
        Multiples(q, i - 1, step);
      }
    }
  }

  ghost predicate Rungs(n: Normalized, levels: seq<nat>)
    requires Ready(n)
  {
    && (forall i: nat :: OnLadder(n, i) <==> i < |levels|)
    && forall i: nat :: i < |levels| ==> levels[i] == LevelAt(n, i)
  }

  // ----- steps and totals

  lemma IntensityIs(n: Normalized, level: nat)
    ensures IntensityAt(n, level) == IntensityFor(n, level)
  {
  }

  lemma CostIs(n: Normalized, levels: seq<nat>, i: nat, b: Budget)
    requires Ready(n) && Rungs(n, levels) && i < |levels|
    ensures PeakAt(n, i, b) <==> b == StepCost(n, levels[i])
  {
    var level, hold, length := levels[i], n.maxima[HoldSeconds], n.workload.callDuration;
    assert level == LevelAt(n, i);
    IntensityIs(n, level);
    WorstIsPeak(IntensityAt(n, level), hold, length);
    hide Peak, WorstCase, Rungs, LevelAt, IntensityAt, IntensityFor;
    if PeakAt(n, i, b) {
      PeakOnce(IntensityAt(n, level), hold, length, b, StepCost(n, level));
    }
  }

  lemma StepIs(n: Normalized, levels: seq<nat>, i: nat, s: Step)
    requires Ready(n) && Rungs(n, levels)
    ensures RampStep(n, i, s) <==> i < |levels| && PlannedStep(n, levels, i, s)
  {
    assert OnLadder(n, i) <==> i < |levels|;
    if i < |levels| {
      assert levels[i] == LevelAt(n, i);
      CostIs(n, levels, i, s.budget);
      IntensityIs(n, levels[i]);
    }
    hide PeakAt, StepCost, IntensityAt, IntensityFor, LevelAt, OnLadder, Rungs;
  }

  ghost predicate Planned(n: Normalized, levels: seq<nat>, steps: seq<Step>)
    requires Ready(n)
  {
    |steps| <= |levels| && forall i :: 0 <= i < |steps| ==> PlannedStep(n, levels, i, steps[i])
  }

  lemma StepsAre(n: Normalized, levels: seq<nat>, steps: seq<Step>)
    requires Ready(n) && Rungs(n, levels)
    ensures RampSteps(n, steps) <==> Planned(n, levels, steps)
  {
    hide RampStep, PlannedStep, Rungs;
    forall i | 0 <= i < |steps|
      ensures RampStep(n, i, steps[i]) <==> i < |levels| && PlannedStep(n, levels, i, steps[i])
    {
      StepIs(n, levels, i, steps[i]);
    }
    if RampSteps(n, steps) && steps != [] {
      assert RampStep(n, |steps| - 1, steps[|steps| - 1]);
    }
  }

  lemma {:induction false} SumIs(n: Normalized, levels: seq<nat>, steps: seq<Step>)
    requires Ready(n) && Planned(n, levels, steps)
    ensures SumOf(steps) == Spent(n, levels, |steps|)
  {
    if steps != [] {
      var k := |steps| - 1;
      hide StepCost, IntensityAt;
      SumIs(n, levels, steps[..k]);
      assert PlannedStep(n, levels, k, steps[k]);
    }
  }

  lemma {:induction false} SpentRises(n: Normalized, levels: seq<nat>, j: nat, k: nat)
    requires Ready(n) && j <= k <= |levels| && Fits64(Spent(n, levels, k))
    ensures Fits64(Spent(n, levels, j)) && (j < k ==> Fits64(StepCost(n, levels[j])))
    decreases k - j
  {
    hide StepCost;
    if j < k {
      SpentRises(n, levels, j + 1, k);
      assert Spent(n, levels, j + 1) == Plus(Spent(n, levels, j), StepCost(n, levels[j]));
    }
  }

  /** One level too many, seen without passing 64 bits. */
  ghost predicate StopsAt(n: Normalized, levels: seq<nat>, k: nat)
    requires Ready(n) && k < |levels|
  {
    !Affordable(n, levels, k + 1) && !OverflowsAt(n, levels, k)
  }

  lemma NextIs(n: Normalized, levels: seq<nat>, k: nat)
    requires Ready(n) && Rungs(n, levels) && k < |levels|
    ensures NextTooMuch(n, Spent(n, levels, k), k) <==> StopsAt(n, levels, k)
  {
    hide StepCost, Rungs, PeakAt;
    var cost := StepCost(n, levels[k]);
    assert Spent(n, levels, k + 1) == Plus(Spent(n, levels, k), cost);
    forall b ensures PeakAt(n, k, b) <==> b == cost {
      CostIs(n, levels, k, b);
    }
    assert PeakAt(n, k, cost);
  }

  // ----- the whole plan

  lemma MeetsIs(n: Normalized, levels: seq<nat>, digest: string, plan: Plan)
    requires Ready(n) && Rungs(n, levels) && !OnLadder(n, 100_000) && Tail(n) < n.maxima[DurationSeconds]
    ensures RampMeets(n, digest, plan) <==>
            && ForInputs(n, digest, plan) && LongestAffordable(n, plan, levels)
            && (|plan.steps| < |levels| ==> StopsAt(n, levels, |plan.steps|))
  {
    StepsAre(n, levels, plan.steps);
    hide OnLadder, Rungs, RampSteps, PlannedStep, Spent, NextTooMuch, StopsAt, SumOf, Affordable, ClimbsOut, ForInputs;
    if Planned(n, levels, plan.steps) {
      ClimbedIs(n, levels, plan);
    }
  }

  lemma ClimbedIs(n: Normalized, levels: seq<nat>, plan: Plan)
    requires Ready(n) && Rungs(n, levels) && Planned(n, levels, plan.steps)
    ensures ClimbsOut(n, plan) <==>
            && LongestAffordable(n, plan, levels)
            && (|plan.steps| < |levels| ==> StopsAt(n, levels, |plan.steps|))
  {
    var k := |plan.steps|;
    assert OnLadder(n, k) <==> k < |levels|;
    hide OnLadder, Rungs, Planned, PlannedStep, StopsAt, SumOf;
    assert InMaxima(n, Spent(n, levels, k)) <==> Affordable(n, levels, k);
    assert forall i :: 0 <= i < k ==> PlannedStep(n, levels, i, plan.steps[i]) by {
      assert Planned(n, levels, plan.steps);
    }
    hide NextTooMuch, InMaxima, Affordable, Spent;
    SumIs(n, levels, plan.steps);
    SpentDuration(n, levels, k);
    if k < |levels| {
      NextIs(n, levels, k);
    }
    LongestIs(n, levels, k);
    assert Fits(Spent(n, levels, k)) <==> Fits64(Spent(n, levels, k));
    assert Reserved(n) == Tail(n);
    hide Ready, Fits, Fits64, Reserved, Tail;
  }

  lemma LongestIs(n: Normalized, levels: seq<nat>, k: nat)
    requires Ready(n) && k <= |levels|
    ensures (forall j :: 0 <= j <= k ==> Affordable(n, levels, j)) <==> Affordable(n, levels, k)
    ensures (forall j :: k < j <= |levels| ==> !Affordable(n, levels, j))
            <==> k == |levels| || !Affordable(n, levels, k + 1)
  {
    forall j | 0 <= j <= k && Affordable(n, levels, k) ensures Affordable(n, levels, j) {
      SpentGrows(n, levels, j, k);
    }
    forall j | k < j <= |levels| && !Affordable(n, levels, k + 1) ensures !Affordable(n, levels, j) {
      SpentGrows(n, levels, k + 1, j);
    }
    hide Affordable;
  }

  lemma LongestOnce(n: Normalized, levels: seq<nat>, digest: string, a: Plan, b: Plan)
    requires Ready(n) && LongestAffordable(n, a, levels) && LongestAffordable(n, b, levels)
    requires ForInputs(n, digest, a) && ForInputs(n, digest, b)
    ensures a == b
  {
    hide Affordable, Spent, Fits64;
    assert |a.steps| == |b.steps| by {
      assert Affordable(n, levels, |a.steps|) && Affordable(n, levels, |b.steps|);
    }
    forall i | 0 <= i < |a.steps| ensures a.steps[i] == b.steps[i] {
      assert PlannedStep(n, levels, i, a.steps[i]) && PlannedStep(n, levels, i, b.steps[i]);
    }
    assert a.steps == b.steps;
  }

  /** Nothing overflows on the way to a ramp whose totals fit and after which the climb stops. */
  lemma NothingOverflows(n: Normalized, levels: seq<nat>, plan: Plan, k: nat)
    requires Ready(n) && LongestAffordable(n, plan, levels) && k < |levels| && Affordable(n, levels, k)
    requires |plan.steps| < |levels| ==> StopsAt(n, levels, |plan.steps|)
    ensures !OverflowsAt(n, levels, k)
  {
    var top := |plan.steps|;
    assert k <= top;
    if k < top {
      SpentRises(n, levels, k, top);
      SpentRises(n, levels, k + 1, top);
      assert Affordable(n, levels, k + 1);
    }
    hide PlannedStep, StepCost, Spent;
  }

  /**
   Compiling gives a plan exactly when the plan is this: as many levels as the call and duration maxima pay for, each
   with the peak of its load for a budget, one hold after another, and the sum of all of it as the totals.
   */
  lemma CompiledRampExactly(n: Normalized, digest: string, plan: Plan)
    requires Ready(n)
    ensures PlanOf(n, digest) == Ok(plan) <==> RampMeets(n, digest, plan)
  {
    LadderIs(n);
    PlanExists(n, digest);
    var ladder := Levels(n.ramp.start, n.ramp.step, n.maxima[Rate(n.ramp.dimension)]);
    hide Levels, PlanOf, OnLadder, Affordable, OverflowsAt, Spent, LevelAt, LongestAffordable;
    if ladder.Ok? && Tail(n) < n.maxima[DurationSeconds] {
      var levels := ladder.value;
      assert Rungs(n, levels);
      MeetsIs(n, levels, digest, plan);
      hide RampMeets;
      if PlanOf(n, digest).Ok? {
        Emitted(n, digest, levels);
        if RampMeets(n, digest, plan) {
          LongestOnce(n, levels, digest, plan, PlanOf(n, digest).value);
        }
      } else if RampMeets(n, digest, plan) {
        Compiles(n, levels, plan);
      }
    }
  }

  lemma Compiles(n: Normalized, levels: seq<nat>, plan: Plan)
    requires Ready(n) && LongestAffordable(n, plan, levels)
    requires |plan.steps| < |levels| ==> StopsAt(n, levels, |plan.steps|)
    ensures Affordable(n, levels, 1)
    ensures forall k :: 0 <= k < |levels| && Affordable(n, levels, k) ==> !OverflowsAt(n, levels, k)
  {
    assert Affordable(n, levels, 1);
    hide Affordable, OverflowsAt, StopsAt;
    forall k | 0 <= k < |levels| && Affordable(n, levels, k) ensures !OverflowsAt(n, levels, k) {
      NothingOverflows(n, levels, plan, k);
    }
  }

  lemma Emitted(n: Normalized, digest: string, levels: seq<nat>)
    requires Ready(n) && PlanOf(n, digest).Ok?
    requires Levels(n.ramp.start, n.ramp.step, n.maxima[Rate(n.ramp.dimension)]) == Ok(levels)
    ensures var plan := PlanOf(n, digest).value;
            && ForInputs(n, digest, plan) && LongestAffordable(n, plan, levels)
            && (|plan.steps| < |levels| ==> StopsAt(n, levels, |plan.steps|))
  {
    PlanExists(n, digest);
    PlanIsLongestAffordable(n, digest);
    PlanKeepsInputs(n, digest);
    hide PlanOf, Levels, Affordable, OverflowsAt, PlannedStep, Spent;
  }

  // ----- from the manifest

  /** Every reduction given lowers a known maximum to a positive value, and nothing else changes. */
  ghost predicate Lowered(reviewed: Maxima, r: Reductions, low: Maxima) {
    && low.Keys == reviewed.Keys
    && (forall k :: k in r && r[k].Some? ==> k in reviewed && 1 <= r[k].value <= reviewed[k])
    && forall k :: k in reviewed ==> low[k] == if k in r && r[k].Some? then r[k].value else reviewed[k]
  }

  predicate LoadWithin(low: Maxima, w: Workload, ramp: Ramp)
    requires low.Keys == MAXIMUM_KEYS
  {
    var i := w.intensity;
    && i.callsPerSecond <= low[Rate(CallsPerSecond)] && i.concurrentCalls <= low[Rate(ConcurrentCalls)]
    && i.mediaPacketsPerSecond <= low[Rate(MediaPacketsPerSecond)] && w.callDuration <= low[DurationSeconds]
    && ramp.start ==
         match ramp.dimension
         case CallsPerSecond => i.callsPerSecond
         case ConcurrentCalls => i.concurrentCalls
         case MediaPacketsPerSecond => i.mediaPacketsPerSecond
  }

  lemma LoadIsWithin(low: Maxima, w: Workload, ramp: Ramp)
    requires Uints(low)
    ensures ConstraintsHold(low, w, ramp) <==> LoadWithin(low, w, ramp)
  {
  }

  lemma LoweredIs(reviewed: Maxima, r: Reductions, low: Maxima)
    ensures ApplyReductions(reviewed, r) == Ok(low) <==> Lowered(reviewed, r, low)
  {
    if Lowered(reviewed, r, low) {
      assert ApplyReductions(reviewed, r).value == low;
    }
  }

  /** The whole of compiling: lower the maxima, keep the reviewed load inside them, and climb. */
  lemma CompiledManifestExactly(m: Manifest, digest: string, r: Reductions, plan: Plan)
    requires Uints(m.maxima) && TypedWork(m.workload, m.ramp)
    ensures CompilePlan(m, digest, r) == Ok(plan) <==>
              && Lowered(m.maxima, r, plan.maxima) && LoadWithin(plan.maxima, m.workload, m.ramp)
              && RampMeets(Normalized(m.name, m.maxima, plan.maxima, m.workload, m.ramp), digest, plan)
  {
    var low := ApplyReductions(m.maxima, r);
    if low.Ok? {
      ReductionsSettle(m.maxima, r);
      LoadIsWithin(low.value, m.workload, m.ramp);
    }
    LoweredIs(m.maxima, r, plan.maxima);
    hide PlanOf, ApplyReductions, ConstraintsHold, LoadWithin, Lowered;
    if Normalize(m, r).Ok? {
      CompiledRampExactly(Normalize(m, r).value, digest, plan);
    }
  }
}
