/** The ramp controller: an event loop over planned steps and timed pause, resume and stop commands. */
module EnvelopeController {
  import opened Prelude
  import opened Envelope

  datatype Command = Pause | Resume | Stop

  datatype TimedCommand = TimedCommand(at: nat, command: Command)

  datatype Group = Group(at: nat, commands: seq<Command>)

  datatype Phase = Running | Paused | Stopped | Completed

  datatype What = Started | StopControl | PauseControl | ResumeControl | StepStarted(step: Step)
                | CompletedAll(reason: Reason) | BudgetStopped

  datatype Event = Event(sequence: nat, at: nat, what: What, phase: Phase)

  datatype ControlError = InvalidPlan | UnorderedControls | IllegalResume | ClockOverflow

  datatype Control = Control(
    phase: Phase,
    nextGroup: nat,
    nextStep: nat,
    nextStart: Option<nat>,
    consumed: Budget,
    events: seq<Event>)

  // ----- commands

  ghost predicate Ordered(commands: seq<TimedCommand>) {
    forall i, j :: 0 <= i < j < |commands| ==> commands[i].at <= commands[j].at
  }

  ghost predicate Rising(groups: seq<Group>) {
    && (forall i, j :: 0 <= i < j < |groups| ==> groups[i].at < groups[j].at)
    && forall i :: 0 <= i < |groups| ==> groups[i].commands != []
  }

  function Flatten(groups: seq<Group>): seq<TimedCommand> {
    if groups == [] then []
    else
      var last := groups[|groups| - 1];
      Flatten(groups[..|groups| - 1])
      + seq(|last.commands|, i requires 0 <= i < |last.commands| => TimedCommand(last.at, last.commands[i]))
  }

  /** File one command: into the last group when it shares its second, else into a new group. */
  function File(groups: seq<Group>, c: TimedCommand): seq<Group> {
    var n := |groups| - 1;
    if groups != [] && groups[n].at == c.at then groups[..n] + [Group(c.at, groups[n].commands + [c.command])]
    else groups + [Group(c.at, [c.command])]
  }

  lemma Filed(groups: seq<Group>, c: TimedCommand)
    requires Rising(groups) && (groups != [] ==> groups[|groups| - 1].at <= c.at)
    ensures Rising(File(groups, c))
    ensures File(groups, c) != [] && File(groups, c)[|File(groups, c)| - 1].at == c.at
  {
  }

  lemma FiledLossless(groups: seq<Group>, c: TimedCommand)
    ensures Flatten(File(groups, c)) == Flatten(groups) + [c]
  {
  }

  function GroupsOf(commands: seq<TimedCommand>): seq<Group> {
    if commands == [] then [] else File(GroupsOf(commands[..|commands| - 1]), commands[|commands| - 1])
  }

  /** The grouping is a strictly rising, lossless regrouping. */
  lemma {:induction false} GroupsFacts(commands: seq<TimedCommand>)
    requires Ordered(commands)
    ensures Rising(GroupsOf(commands)) && Flatten(GroupsOf(commands)) == commands
    ensures commands != [] ==>
                GroupsOf(commands) != []
                  && GroupsOf(commands)[|GroupsOf(commands)| - 1].at == commands[|commands| - 1].at
  {
    hide File, Flatten, Rising;
    if commands == [] {
      EmptyGroups();
    } else {
      var n := |commands| - 1;
      GroupsFacts(commands[..n]);
      Filed(GroupsOf(commands[..n]), commands[n]);
      FiledLossless(GroupsOf(commands[..n]), commands[n]);
      assert commands == commands[..n] + [commands[n]];
    }
  }

  method GroupCommands(commands: seq<TimedCommand>) returns (r: Result<seq<Group>, ControlError>)
    ensures r == if Ordered(commands) then Ok(GroupsOf(commands)) else Err(UnorderedControls)
  {
    hide File;
    var groups: seq<Group> := [];
    for i := 0 to |commands|
      invariant forall j, k :: 0 <= j < k < i ==> commands[j].at <= commands[k].at
      invariant groups == GroupsOf(commands[..i])
    {
      if i > 0 && commands[i].at < commands[i - 1].at {
        return Err(UnorderedControls);
      }
      assert commands[..i + 1][..i] == commands[..i];
      groups := File(groups, commands[i]);
    }
    assert commands[..|commands|] == commands;
    r := Ok(groups);
  }

  lemma EmptyGroups()
    ensures Rising([]) && Flatten([]) == []
  {
  }

  // ----- one turn of the loop

  predicate Terminal(phase: Phase) {
    phase == Stopped || phase == Completed
  }

  function Emit(c: Control, at: nat, what: What, phase: Phase): Control {
    c.(phase := phase, events := c.events + [Event(|c.events| + 1, at, what, phase)])
  }

  function Initial(): Control {
    Control(Running, 0, 0, Some(0), ZERO, [Event(1, 0, Started, Running)])
  }

  predicate Idle(groups: seq<Group>, c: Control) {
    c.nextGroup >= |groups| && c.nextStart.None?
  }

  /** The time of the next happening: a control or a scheduled start, whichever is first. */
  function Now(groups: seq<Group>, c: Control): nat
    requires !Idle(groups, c)
  {
    if c.nextGroup >= |groups| then c.nextStart.value
    else if c.nextStart.None? then groups[c.nextGroup].at
    else Min(groups[c.nextGroup].at, c.nextStart.value)
  }

  predicate ControlDue(groups: seq<Group>, c: Control)
    requires !Idle(groups, c)
  {
    c.nextGroup < |groups| && groups[c.nextGroup].at == Now(groups, c)
  }

  /** Stop beats pause beats resume. */
  function ApplyControl(c: Control, group: Group): Result<Control, ControlError> {
    var next := c.(nextGroup := c.nextGroup + 1);
    if Stop in group.commands then Ok(Emit(next, group.at, StopControl, Stopped))
    else if Pause in group.commands then Ok(Emit(next, group.at, PauseControl, Paused).(nextStart := None))
    else if Resume in group.commands then
      if c.phase != Paused then Err(IllegalResume)
      else Ok(Emit(next, group.at, ResumeControl, Running).(nextStart := Some(group.at)))
    else Ok(next)
  }

  predicate OverBudget(plan: Plan, c: Control, now: nat, step: Step)
    requires Uints(plan.maxima)
  {
    var tail := plan.maxima[CooldownSeconds] + plan.maxima[RecoverySeconds];
    || c.consumed.calls + step.budget.calls > plan.maxima[TotalCalls]
    || c.consumed.duration + step.hold + tail > plan.maxima[DurationSeconds]
    || now + step.hold + tail > plan.maxima[DurationSeconds]
  }

  /** The additions checked before a step may start, and those that record its budget if it does. */
  predicate Overflowing(plan: Plan, c: Control, now: nat, step: Step)
    requires Uints(plan.maxima)
  {
    var tail := plan.maxima[CooldownSeconds] + plan.maxima[RecoverySeconds];
    || c.consumed.calls + step.budget.calls > U64_MAX
    || c.consumed.duration + step.hold > U64_MAX
    || now + step.hold + tail > U64_MAX
    || (c.consumed.calls + step.budget.calls <= plan.maxima[TotalCalls]
        && c.consumed.duration + step.hold + tail > U64_MAX)
    || (!OverBudget(plan, c, now, step) && !Fits64(Plus(c.consumed, step.budget)))
  }

  function StartNext(plan: Plan, c: Control, now: nat): Result<Control, ControlError>
    requires Uints(plan.maxima)
  {
    if c.nextStep >= |plan.steps| then Ok(Emit(c, now, CompletedAll(plan.reason), Completed))
    else
      var step := plan.steps[c.nextStep];
      if Overflowing(plan, c, now, step) then Err(ClockOverflow)
      else if OverBudget(plan, c, now, step) then Ok(Emit(c, now, BudgetStopped, Stopped))
      else
        Ok(Emit(c, now, StepStarted(step), c.phase).(consumed := Plus(c.consumed, step.budget),
                                                     nextStep := c.nextStep + 1,
                                                     nextStart := Some(now + step.hold)))
  }

  function Next(plan: Plan, groups: seq<Group>, c: Control): Result<Control, ControlError>
    requires Uints(plan.maxima) && !Idle(groups, c)
  {
    if ControlDue(groups, c) then ApplyControl(c, groups[c.nextGroup]) else StartNext(plan, c, Now(groups, c))
  }

  // ----- the invariant every turn keeps

  ghost function LadderOf(plan: Plan): seq<nat>
    requires Validated(plan)
  {
    ValidatedIsLongest(plan);
    Levels(plan.ramp.start, plan.ramp.step, plan.maxima[Rate(plan.ramp.dimension)]).value
  }

  ghost function StartedOf(events: seq<Event>): seq<Step> {
    if events == [] then []
    else
      var last := events[|events| - 1];
      StartedOf(events[..|events| - 1]) + if last.what.StepStarted? then [last.what.step] else []
  }

  ghost predicate TimesRise(events: seq<Event>) {
    forall i, j :: 0 <= i < j < |events| ==> events[i].at <= events[j].at
  }

  predicate IsControl(what: What) {
    what == StopControl || what == PauseControl || what == ResumeControl
  }

  /** What one event may follow: nothing after the end, and only a control while paused. */
  ghost predicate MayFollow(before: Event, after: Event) {
    && !Terminal(before.phase)
    && (after.what.StepStarted? ==> before.phase == Running && after.phase == Running)
    && (after.what.CompletedAll? ==> before.phase == Running && after.phase == Completed)
    && (after.what.BudgetStopped? ==> before.phase == Running && after.phase == Stopped)
    && (after.what.ResumeControl? ==> before.phase == Paused && after.phase == Running)
    && (after.what.PauseControl? ==> after.phase == Paused)
    && (after.what.StopControl? ==> after.phase == Stopped)
    && after.what != Started
  }

  ghost predicate Legal(plan: Plan, events: seq<Event>)
    requires Uints(plan.maxima)
  {
    && events != [] && events[0] == Event(1, 0, Started, Running)
    && TimesRise(events) && Numbered(events) && Followed(events) && ControlsFirst(events)
    && forall i :: 0 <= i < |events| ==> WithinClock(plan, events[i])
  }

  ghost predicate Numbered(events: seq<Event>) {
    forall i :: 0 <= i < |events| ==> events[i].sequence == i + 1
  }

  ghost predicate Followed(events: seq<Event>) {
    forall i :: 1 <= i < |events| ==> MayFollow(events[i - 1], events[i])
  }

  /** At one second, a control is obeyed before a step is started. */
  ghost predicate ControlsFirst(events: seq<Event>) {
    forall i, j :: 0 <= i < j < |events| && events[i].what.StepStarted? && IsControl(events[j].what) ==>
      events[i].at < events[j].at
  }

  /**
   Every started hold, with the reserved cooldown and recovery, ends inside the authorized duration,
   and a budget stop is always the wall clock's doing.
   */
  ghost predicate WithinClock(plan: Plan, e: Event)
    requires Uints(plan.maxima)
  {
    && (e.what.StepStarted? ==>
          e.at + e.what.step.hold + plan.maxima[CooldownSeconds] + plan.maxima[RecoverySeconds]
            <= plan.maxima[DurationSeconds])
    && (e.what.BudgetStopped? ==>
          e.at + plan.maxima[HoldSeconds] + plan.maxima[CooldownSeconds] + plan.maxima[RecoverySeconds]
            > plan.maxima[DurationSeconds])
  }

  /** Nothing still scheduled lies in the past, and only a running controller has a next start. */
  ghost predicate Scheduled(groups: seq<Group>, c: Control) {
    && c.events != []
    && (c.phase == Running ==> c.nextStart.Some?)
    && (c.phase == Paused ==> c.nextStart.None?)
    && c.nextGroup <= |groups|
    && (c.nextGroup < |groups| ==> c.events[|c.events| - 1].at <= groups[c.nextGroup].at)
    && (c.nextStart.Some? && !Terminal(c.phase) ==> c.events[|c.events| - 1].at <= c.nextStart.value)
    && (c.nextGroup < |groups| ==> StepsBefore(c.events, groups[c.nextGroup].at))
  }

  ghost predicate StepsBefore(events: seq<Event>, at: nat) {
    forall i :: 0 <= i < |events| && events[i].what.StepStarted? ==> events[i].at < at
  }

  ghost function TotalOf(steps: seq<Step>): Budget {
    if steps == [] then ZERO else Plus(TotalOf(steps[..|steps| - 1]), steps[|steps| - 1].budget)
  }

  /** The started steps are a prefix of the plan and consumption is the exact sum of their budgets. */
  ghost predicate Accounted(plan: Plan, c: Control) {
    && c.nextStep <= |plan.steps| && StartedOf(c.events) == plan.steps[..c.nextStep]
    && c.consumed == TotalOf(plan.steps[..c.nextStep])
  }

  ghost predicate Inv(plan: Plan, groups: seq<Group>, c: Control)
    requires Uints(plan.maxima)
  {
    && Legal(plan, c.events) && c.events[|c.events| - 1].phase == c.phase
    && Scheduled(groups, c)
    && Accounted(plan, c)
  }

  lemma EmitLegal(plan: Plan, c: Control, at: nat, what: What, phase: Phase)
    requires Uints(plan.maxima) && Legal(plan, c.events)
    requires c.events[|c.events| - 1].at <= at
    requires MayFollow(c.events[|c.events| - 1], Event(|c.events| + 1, at, what, phase))
    requires IsControl(what) ==> StepsBefore(c.events, at)
    requires WithinClock(plan, Event(|c.events| + 1, at, what, phase))
    ensures Legal(plan, Emit(c, at, what, phase).events)
    ensures StartedOf(Emit(c, at, what, phase).events) == StartedOf(c.events) + if what.StepStarted? then [what.step]
            else []
  {
  }

  /** For a validated plan only the wall clock can refuse or overflow a step. */
  lemma OnlyTheClock(plan: Plan, c: Control, now: nat)
    requires Validated(plan) && c.nextStep < |plan.steps| && c.consumed == TotalOf(plan.steps[..c.nextStep])
    ensures var step := plan.steps[c.nextStep];
            var tail := plan.maxima[CooldownSeconds] + plan.maxima[RecoverySeconds];
            && step.hold == plan.maxima[HoldSeconds]
            && (OverBudget(plan, c, now, step) <==> now + step.hold + tail > plan.maxima[DurationSeconds])
            && (Overflowing(plan, c, now, step) <==> now + step.hold + tail > U64_MAX)
            && Plus(c.consumed, step.budget) == TotalOf(plan.steps[..c.nextStep + 1])
  {
    var n, levels, k := NormalizedOf(plan), LadderOf(plan), c.nextStep;
    PlannedFacts(plan, k);
    StepAdds(n, levels, k);
    TotalIsSpent(plan, k);
    TotalIsSpent(plan, k + 1);
    TotalGrows(plan.steps, k);
    TotalFits(plan, k + 1);
    hide LadderOf, Validated, StepCost, Spent, TotalOf;
  }

  lemma {:induction false} TotalAtMost(steps: seq<Step>, k: nat)
    requires k <= |steps|
    ensures Fits64(TotalOf(steps)) ==> Fits64(TotalOf(steps[..k]))
  {
    if k == |steps| {
      assert steps[..k] == steps;
    } else {
      var front := steps[..|steps| - 1];
      assert front[..k] == steps[..k];
      TotalAtMost(front, k);
    }
  }

  /** No prefix of a validated plan costs more than 64 bits can count. */
  lemma TotalFits(plan: Plan, k: nat)
    requires Validated(plan) && k <= |plan.steps|
    ensures Fits64(TotalOf(plan.steps[..k]))
  {
    ValidatedIsLongest(plan);
    TotalIsSpent(plan, |plan.steps|);
    assert plan.steps[..|plan.steps|] == plan.steps;
    hide Validated, Levels, Spent, TotalOf;
    TotalAtMost(plan.steps, k);
  }

  lemma TotalGrows(steps: seq<Step>, k: nat)
    requires k < |steps|
    ensures TotalOf(steps[..k + 1]) == Plus(TotalOf(steps[..k]), steps[k].budget)
  {
    assert steps[..k + 1][..k] == steps[..k];
  }

  /** The budgets of the first steps add up to the unbounded sum the compiler kept inside the maxima. */
  lemma {:induction false} TotalIsSpent(plan: Plan, k: nat)
    requires Validated(plan) && k <= |plan.steps|
    ensures Ready(NormalizedOf(plan)) && k <= |LadderOf(plan)|
    ensures TotalOf(plan.steps[..k]) == Spent(NormalizedOf(plan), LadderOf(plan), k)
  {
    LongestLength(plan);
    if k > 0 {
      TotalIsSpent(plan, k - 1);
      TotalGrows(plan.steps, k - 1);
      PlannedFacts(plan, k - 1);
      StepAdds(NormalizedOf(plan), LadderOf(plan), k - 1);
      hide LadderOf, Validated, StepCost, Spent, TotalOf;
    }
  }

  lemma PlannedFacts(plan: Plan, k: nat)
    requires Validated(plan) && k < |plan.steps|
    ensures Ready(NormalizedOf(plan)) && k < |LadderOf(plan)| && Uints(plan.maxima)
    ensures plan.steps[k].hold == plan.maxima[HoldSeconds] && plan.steps[k].startAt == k * plan.maxima[HoldSeconds]
    ensures plan.steps[k].budget == StepCost(NormalizedOf(plan), LadderOf(plan)[k])
    ensures Affordable(NormalizedOf(plan), LadderOf(plan), k + 1)
  {
    ValidatedIsLongest(plan);
    hide Validated, Levels, Affordable, StepCost;
    assert PlannedStep(NormalizedOf(plan), LadderOf(plan), k, plan.steps[k]);
  }

  lemma StepAdds(n: Normalized, levels: seq<nat>, k: nat)
    requires Ready(n) && k < |levels|
    ensures Spent(n, levels, k + 1) == Plus(Spent(n, levels, k), StepCost(n, levels[k]))
    ensures StepCost(n, levels[k]).duration == n.maxima[HoldSeconds]
  {
  }

  lemma ControlLegal(plan: Plan, c: Control, group: Group)
    requires Uints(plan.maxima) && Legal(plan, c.events) && c.events[|c.events| - 1].phase == c.phase
    requires !Terminal(c.phase) && c.events[|c.events| - 1].at <= group.at && group.commands != []
    requires StepsBefore(c.events, group.at)
    ensures var r := ApplyControl(c, group);
            if r.Err? then c.phase == Running && r.error == IllegalResume
            else
              && Legal(plan, r.value.events) && r.value.events[|r.value.events| - 1].phase == r.value.phase
              && StartedOf(r.value.events) == StartedOf(c.events)
  {
    hide Legal, StartedOf;
    var next := c.(nextGroup := c.nextGroup + 1);
    assert c.events != [] by {
      LegalNonEmpty(plan, c.events);
    }
    AnyCommand(group);
    if Stop in group.commands {
      EmitLegal(plan, next, group.at, StopControl, Stopped);
    } else if Pause in group.commands {
      EmitLegal(plan, next, group.at, PauseControl, Paused);
    } else if c.phase == Paused {
      EmitLegal(plan, next, group.at, ResumeControl, Running);
    }
  }

  lemma LegalNonEmpty(plan: Plan, events: seq<Event>)
    requires Uints(plan.maxima) && Legal(plan, events)
    ensures events != []
  {
  }

  lemma ControlScheduled(groups: seq<Group>, c: Control)
    requires Rising(groups) && Scheduled(groups, c) && !Terminal(c.phase) && c.nextGroup < |groups|
    ensures var r := ApplyControl(c, groups[c.nextGroup]);
            r.Ok? ==> Scheduled(groups, r.value) && r.value.consumed == c.consumed
                      && r.value.nextGroup == c.nextGroup + 1 && r.value.nextStep == c.nextStep
  {
  }

  lemma ControlKeepsInv(plan: Plan, groups: seq<Group>, c: Control)
    requires Validated(plan) && Rising(groups) && Inv(plan, groups, c) && !Terminal(c.phase) && c.nextGroup < |groups|
    ensures var r := ApplyControl(c, groups[c.nextGroup]);
            if r.Err? then c.phase == Running && r.error == IllegalResume
            else Inv(plan, groups, r.value) && r.value.nextGroup == c.nextGroup + 1 && r.value.nextStep == c.nextStep
  {
    hide Legal, LadderOf, Spent, ApplyControl, StartedOf, PlanOf;
    ControlLegal(plan, c, groups[c.nextGroup]);
    ControlScheduled(groups, c);
  }

  lemma AnyCommand(group: Group)
    requires group.commands != []
    ensures Stop in group.commands || Pause in group.commands || Resume in group.commands
  {
    var first := group.commands[0];
    assert first in group.commands;
    assert first == Stop || first == Pause || first == Resume;
  }

  lemma StartOutcome(plan: Plan, groups: seq<Group>, c: Control)
    requires Validated(plan) && Uints(plan.maxima) && Inv(plan, groups, c) && c.phase == Running
    requires c.nextGroup < |groups| ==> c.nextStart.value < groups[c.nextGroup].at
    requires c.nextStep < |plan.steps|
    ensures var now := c.nextStart.value;
            var deadline :=
              now + plan.maxima[HoldSeconds] + plan.maxima[CooldownSeconds] + plan.maxima[RecoverySeconds];
            var r := StartNext(plan, c, now);
            if deadline > U64_MAX then r == Err(ClockOverflow)
            else
              && r.Ok? && Inv(plan, groups, r.value) && r.value.nextGroup == c.nextGroup
              && if deadline > plan.maxima[DurationSeconds] then r.value == Emit(c, now, BudgetStopped, Stopped)
                 else r.value.phase == Running && r.value.nextStep == c.nextStep + 1
                      && r.value.nextStart == Some(now + plan.maxima[HoldSeconds])
                      && r.value.events == Emit(c, now, StepStarted(plan.steps[c.nextStep]), Running).events
  {
    hide Legal, LadderOf, Spent, Validated, OverBudget, Overflowing, StartedOf, TotalOf, Plus;
    var now := c.nextStart.value;
    var step := plan.steps[c.nextStep];
    OnlyTheClock(plan, c, now);
    if now + step.hold + plan.maxima[CooldownSeconds] + plan.maxima[RecoverySeconds] > plan.maxima[DurationSeconds] {
      EmitLegal(plan, c, now, BudgetStopped, Stopped);
    } else {
      EmitLegal(plan, c, now, StepStarted(step), Running);
      assert plan.steps[..c.nextStep + 1] == plan.steps[..c.nextStep] + [step];
    }
  }

  lemma FinishOutcome(plan: Plan, groups: seq<Group>, c: Control)
    requires Validated(plan) && Uints(plan.maxima) && Inv(plan, groups, c) && c.phase == Running
    requires c.nextGroup < |groups| ==> c.nextStart.value < groups[c.nextGroup].at
    requires c.nextStep >= |plan.steps|
    ensures var now := c.nextStart.value;
            var done := Emit(c, now, CompletedAll(plan.reason), Completed);
            StartNext(plan, c, now) == Ok(done) && Inv(plan, groups, done)
  {
    hide Legal, LadderOf, Spent, Validated, StartedOf;
    EmitLegal(plan, c, c.nextStart.value, CompletedAll(plan.reason), Completed);
  }

  lemma StartKeepsInv(plan: Plan, groups: seq<Group>, c: Control)
    requires Validated(plan) && Inv(plan, groups, c) && c.phase == Running && c.nextStart.Some?
    requires c.nextGroup < |groups| ==> c.nextStart.value < groups[c.nextGroup].at
    ensures Uints(plan.maxima)
    ensures var now := c.nextStart.value;
            var r := StartNext(plan, c, now);
            if r.Err? then
              && r.error == ClockOverflow && c.nextStep < |plan.steps|
              && now + plan.maxima[HoldSeconds] + plan.maxima[CooldownSeconds] + plan.maxima[RecoverySeconds] > U64_MAX
            else
              && Inv(plan, groups, r.value) && r.value.nextGroup == c.nextGroup && r.value.nextStep >= c.nextStep
              && (!Terminal(r.value.phase) ==> r.value.nextStep == c.nextStep + 1)
  {
    ValidatedIsLongest(plan);
    LongestLength(plan);
    hide Inv, LadderOf, Validated, LongestAffordable, StartNext, Levels;
    if c.nextStep >= |plan.steps| {
      FinishOutcome(plan, groups, c);
    } else {
      StartOutcome(plan, groups, c);
    }
  }

  lemma LongestLength(plan: Plan)
    requires Validated(plan)
    ensures 1 <= |plan.steps| <= |LadderOf(plan)| && Ready(NormalizedOf(plan)) && Uints(plan.maxima)
  {
    hide Validated, Levels;
    ValidatedIsLongest(plan);
  }

  /** Every turn from a legal state is a legal state, or stops with one of exactly two errors. */
  lemma NextKeepsInv(plan: Plan, groups: seq<Group>, c: Control)
    requires Validated(plan) && Rising(groups) && Inv(plan, groups, c) && !Terminal(c.phase) && !Idle(groups, c)
    ensures Uints(plan.maxima)
    ensures var r := Next(plan, groups, c);
            if r.Err? then
              || (r.error == IllegalResume && c.phase == Running)
              || (r.error == ClockOverflow && c.phase == Running && c.nextStep < |plan.steps|
                  && Now(groups, c) + plan.maxima[HoldSeconds] + plan.maxima[CooldownSeconds]
                     + plan.maxima[RecoverySeconds] > U64_MAX)
            else
              && Inv(plan, groups, r.value)
              && (Terminal(r.value.phase) || r.value.nextGroup + r.value.nextStep > c.nextGroup + c.nextStep)
              && r.value.nextGroup >= c.nextGroup && r.value.nextStep >= c.nextStep
  {
    ValidatedIsLongest(plan);
    hide Validated, Inv, ApplyControl, StartNext;
    assert c.phase == Running || c.phase == Paused;
    PhaseSchedule(plan, groups, c);
    if ControlDue(groups, c) {
      ControlKeepsInv(plan, groups, c);
    } else {
      StartKeepsInv(plan, groups, c);
    }
  }

  lemma PhaseSchedule(plan: Plan, groups: seq<Group>, c: Control)
    requires Validated(plan) && Inv(plan, groups, c)
    ensures c.phase == Running ==> c.nextStart.Some?
    ensures c.phase == Paused ==> c.nextStart.None?
    ensures c.nextGroup <= |groups| && c.nextStep <= |plan.steps|
  {
  }

  lemma InitialInv(plan: Plan, groups: seq<Group>)
    requires Validated(plan)
    ensures Inv(plan, groups, Initial())
  {
    ValidatedIsLongest(plan);
    var events := Initial().events;
    assert events[..0] == [];
    assert StartedOf(events) == [];
  }

  // ----- whole runs

  /** Everything the loop does from a legal state to its end. */
  ghost function Drive(plan: Plan, groups: seq<Group>, c: Control): Result<Control, ControlError>
    requires Validated(plan) && Rising(groups) && Inv(plan, groups, c)
    decreases if Terminal(c.phase) then 0 else 1 + |groups| + |plan.steps| - c.nextGroup - c.nextStep
  {
    InvBounds(plan, groups, c);
    if Terminal(c.phase) || Idle(groups, c) then Ok(c)
    else
      NextKeepsInv(plan, groups, c);
      match Next(plan, groups, c)
      case Err(e) => Err(e)
      case Ok(d) =>
        InvBounds(plan, groups, d);
        Drive(plan, groups, d)
  }

  lemma InvBounds(plan: Plan, groups: seq<Group>, c: Control)
    requires Validated(plan) && Inv(plan, groups, c)
    ensures c.nextGroup <= |groups| && c.nextStep <= |plan.steps|
  {
  }

  ghost function SimulationOf(plan: Plan, commands: seq<TimedCommand>): Result<Control, ControlError> {
    if ValidatePlan(plan).Err? then Err(InvalidPlan)
    else if !Ordered(commands) then Err(UnorderedControls)
    else
      GroupsFacts(commands);
      InitialInv(plan, GroupsOf(commands));
      Drive(plan, GroupsOf(commands), Initial())
  }

  lemma {:induction false} DriveKeepsInv(plan: Plan, groups: seq<Group>, c: Control)
    requires Validated(plan) && Rising(groups) && Inv(plan, groups, c)
    ensures var r := Drive(plan, groups, c);
            if r.Err? then r.error in {IllegalResume, ClockOverflow}
            else Inv(plan, groups, r.value) && (Terminal(r.value.phase) || Idle(groups, r.value))
    decreases if Terminal(c.phase) then 0 else 1 + |groups| + |plan.steps| - c.nextGroup - c.nextStep
  {
    hide Inv, Next, Validated, Rising;
    InvBounds(plan, groups, c);
    if !Terminal(c.phase) && !Idle(groups, c) {
      NextKeepsInv(plan, groups, c);
      if Next(plan, groups, c).Ok? {
        InvBounds(plan, groups, Next(plan, groups, c).value);
        DriveKeepsInv(plan, groups, Next(plan, groups, c).value);
      }
    }
  }

  ghost predicate SafeOutcome(plan: Plan, groups: seq<Group>, c: Control)
    requires Uints(plan.maxima)
  {
    && Legal(plan, c.events)
    && c.nextStep <= |plan.steps| && StartedOf(c.events) == plan.steps[..c.nextStep]
    && c.consumed == TotalOf(plan.steps[..c.nextStep])
    && c.consumed.calls <= plan.maxima[TotalCalls]
    && c.consumed.duration + plan.maxima[CooldownSeconds] + plan.maxima[RecoverySeconds] <= plan.maxima[DurationSeconds]
    && c.phase in {Stopped, Completed, Paused}
    && (c.phase == Paused ==> c.nextGroup == |groups|)
  }

  lemma InvIsSafe(plan: Plan, groups: seq<Group>, c: Control)
    requires Validated(plan) && Uints(plan.maxima) && Inv(plan, groups, c) && (Terminal(c.phase) || Idle(groups, c))
    ensures SafeOutcome(plan, groups, c)
  {
    hide Validated, Legal, Spent, LadderOf, TotalOf;
    SpentAffordable(plan, c.nextStep);
    TotalIsSpent(plan, c.nextStep);
  }

  /**
   Safety of every run under every control schedule: the event log is legal, the started steps are
   a prefix of the plan, consumption is their exact sum and inside the maxima, and the run ends
   stopped, completed, or paused with no command left. The only other endings are the two errors.
   */
  lemma EveryRunIsSafe(plan: Plan, commands: seq<TimedCommand>)
    requires Validated(plan) && Ordered(commands)
    ensures Uints(plan.maxima)
    ensures match SimulationOf(plan, commands)
            case Ok(c) => SafeOutcome(plan, GroupsOf(commands), c)
            case Err(e) => e in {IllegalResume, ClockOverflow}
  {
    LongestLength(plan);
    hide Drive, Validated, Inv, SafeOutcome, Rising, GroupsOf, SimulationOf;
    var groups := GroupsOf(commands);
    SimulationDrives(plan, commands);
    DriveKeepsInv(plan, groups, Initial());
    if SimulationOf(plan, commands).Ok? {
      InvIsSafe(plan, groups, SimulationOf(plan, commands).value);
    }
  }

  lemma SimulationDrives(plan: Plan, commands: seq<TimedCommand>)
    requires Validated(plan) && Ordered(commands)
    ensures Rising(GroupsOf(commands)) && Inv(plan, GroupsOf(commands), Initial())
    ensures SimulationOf(plan, commands) == Drive(plan, GroupsOf(commands), Initial())
  {
    assert ValidatePlan(plan).Ok?;
    hide ValidatePlan, Drive, Inv, Rising, GroupsOf, Ordered;
    GroupsFacts(commands);
    InitialInv(plan, GroupsOf(commands));
  }

  lemma SpentAffordable(plan: Plan, k: nat)
    requires Validated(plan) && k <= |plan.steps|
    ensures k <= |LadderOf(plan)| && Ready(NormalizedOf(plan)) && Affordable(NormalizedOf(plan), LadderOf(plan), k)
  {
    ValidatedIsLongest(plan);
    hide Validated, Spent, Levels, Affordable;
  }

  lemma StepHold(plan: Plan, k: nat)
    requires Validated(plan) && k < |plan.steps|
    ensures Uints(plan.maxima) && plan.steps[k].hold == plan.maxima[HoldSeconds]
  {
    ValidatedIsLongest(plan);
    hide Validated, Levels;
    assert PlannedStep(NormalizedOf(plan), LadderOf(plan), k, plan.steps[k]);
  }

  // ----- without controls the run is the plan

  ghost function PlainEvents(plan: Plan, k: nat): seq<Event>
    requires k <= |plan.steps|
  {
    if k == 0 then [Event(1, 0, Started, Running)]
    else PlainEvents(plan, k - 1) + [Event(k + 1, plan.steps[k - 1].startAt, StepStarted(plan.steps[k - 1]), Running)]
  }

  lemma {:induction false} PlainLength(plan: Plan, k: nat)
    requires k <= |plan.steps|
    ensures |PlainEvents(plan, k)| == k + 1
  {
    if k > 0 {
      PlainLength(plan, k - 1);
    }
  }

  ghost function Plain(plan: Plan, k: nat): Control
    requires Uints(plan.maxima) && k <= |plan.steps|
  {
    Control(Running, 0, k, Some(k * plan.maxima[HoldSeconds]), TotalOf(plan.steps[..k]), PlainEvents(plan, k))
  }

  lemma PlainFacts(plan: Plan, k: nat)
    requires Validated(plan) && k < |plan.steps| && Inv(plan, [], Plain(plan, k)) && Uints(plan.maxima)
    ensures plan.steps[k].startAt == k * plan.maxima[HoldSeconds]
    ensures k * plan.maxima[HoldSeconds] + plan.maxima[HoldSeconds] == (k + 1) * plan.maxima[HoldSeconds]
    ensures (k + 1) * plan.maxima[HoldSeconds] + plan.maxima[CooldownSeconds] + plan.maxima[RecoverySeconds]
         <= plan.maxima[DurationSeconds]
  {
    PlannedFacts(plan, k);
    SpentDuration(NormalizedOf(plan), LadderOf(plan), k + 1);
    NextMultiple(k, plan.maxima[HoldSeconds]);
    hide LadderOf, Validated, Inv, Spent, StepCost;
  }

  lemma NextMultiple(k: nat, hold: nat)
    ensures k * hold + hold == (k + 1) * hold
  {
  }

  lemma PlainNext(plan: Plan, k: nat)
    requires Validated(plan) && k < |plan.steps| && Inv(plan, [], Plain(plan, k)) && Uints(plan.maxima)
    ensures Next(plan, [], Plain(plan, k)) == Ok(Plain(plan, k + 1)) && Inv(plan, [], Plain(plan, k + 1))
  {
    PlainFacts(plan, k);
    PlainLength(plan, k);
    SpentAffordable(plan, k);
    SpentAffordable(plan, k + 1);
    StartOutcomePlain(plan, k);
  }

  lemma StartOutcomePlain(plan: Plan, k: nat)
    requires Validated(plan) && k < |plan.steps| && Inv(plan, [], Plain(plan, k)) && Uints(plan.maxima)
    requires |PlainEvents(plan, k)| == k + 1
    ensures Next(plan, [], Plain(plan, k)) == Ok(Plain(plan, k + 1)) && Inv(plan, [], Plain(plan, k + 1))
  {
    hide Validated, Inv, Spent, OverBudget, Overflowing, LadderOf;
    PlainFacts(plan, k);
    LongestLength(plan);
    var c := Plain(plan, k);
    StepHold(plan, k);
    AccountedOf(plan, c);
    OnlyTheClock(plan, c, c.nextStart.value);
    StartOutcome(plan, [], c);
  }

  lemma AccountedOf(plan: Plan, c: Control)
    requires Validated(plan) && Inv(plan, [], c)
    ensures Accounted(plan, c)
  {
  }

  lemma {:induction false} PlainDrive(plan: Plan, k: nat)
    requires Validated(plan) && k <= |plan.steps| && Inv(plan, [], Plain(plan, k)) && Uints(plan.maxima)
    ensures Drive(plan, [], Plain(plan, k)) ==
            Ok(Emit(Plain(plan, |plan.steps|), |plan.steps| * plan.maxima[HoldSeconds], CompletedAll(plan.reason),
                    Completed))
    decreases |plan.steps| - k
  {
    hide Validated, Inv;
    if k < |plan.steps| {
      PlainNext(plan, k);
      PlainDrive(plan, k + 1);
    } else {
      FinishOutcome(plan, [], Plain(plan, k));
    }
  }

  /**
   With no controls the controller carries out the compiled plan: every planned step starts at its
   planned second, the run completes at the end of the last hold, and consumption is the plan's totals.
   */
  lemma NoControlsRunsThePlan(plan: Plan)
    requires Validated(plan)
    ensures Uints(plan.maxima) && SimulationOf(plan, []).Ok?
    ensures var c := SimulationOf(plan, []).value;
            && c.phase == Completed && c.nextStep == |plan.steps| && c.consumed == plan.totals
            && c.events == PlainEvents(plan, |plan.steps|)
                           + [Event(|plan.steps| + 2, plan.totals.duration, CompletedAll(plan.reason), Completed)]
  {
    PlainRun(plan);
    PlanTotals(plan);
    hide Validated, Inv, Drive, PlainEvents, SimulationOf, TotalOf;
    assert plan.steps[..|plan.steps|] == plan.steps;
    PlainDrive(plan, 0);
    PlainLength(plan, |plan.steps|);
  }

  lemma PlainRun(plan: Plan)
    requires Validated(plan)
    ensures Rising([]) && Inv(plan, [], Plain(plan, 0)) && SimulationOf(plan, []) == Drive(plan, [], Plain(plan, 0))
  {
    SimulationDrives(plan, []);
    assert GroupsOf([]) == [];
    assert plan.steps[..0] == [];
    assert Plain(plan, 0) == Initial();
    hide Validated, Inv, Drive, SimulationOf;
  }

  lemma PlanTotals(plan: Plan)
    requires Validated(plan)
    ensures plan.totals == TotalOf(plan.steps)
    ensures plan.totals.duration == |plan.steps| * plan.maxima[HoldSeconds]
  {
    ValidatedIsLongest(plan);
    TotalIsSpent(plan, |plan.steps|);
    assert plan.steps[..|plan.steps|] == plan.steps;
    hide Validated, Levels, Spent, TotalOf;
    SpentDuration(NormalizedOf(plan), LadderOf(plan), |plan.steps|);
  }

  // ----- the loop itself

  lemma DriveStep(plan: Plan, groups: seq<Group>, c: Control)
    requires Validated(plan) && Rising(groups) && Inv(plan, groups, c) && !Terminal(c.phase) && !Idle(groups, c)
    ensures Uints(plan.maxima)
    ensures Next(plan, groups, c).Err? ==> Drive(plan, groups, c) == Err(Next(plan, groups, c).error)
    ensures Next(plan, groups, c).Ok? ==> Inv(plan, groups, Next(plan, groups, c).value)
                                          && Drive(plan, groups, c) == Drive(plan, groups, Next(plan, groups, c).value)
  {
    hide Inv, Next, Validated, Rising;
    NextKeepsInv(plan, groups, c);
  }

  /** One turn: obey the due control group, or complete, refuse or start the next step. */
  method Turn(plan: Plan, groups: seq<Group>, c: Control) returns (r: Result<Control, ControlError>)
    requires Uints(plan.maxima) && !Idle(groups, c)
    ensures r == Next(plan, groups, c)
  {
    var phase, nextGroup, nextStep, nextStart, events := c.phase, c.nextGroup, c.nextStep, c.nextStart, c.events;
    var now := if nextGroup >= |groups| then nextStart.value
               else if nextStart.None? then groups[nextGroup].at
               else Min(groups[nextGroup].at, nextStart.value);
    if nextGroup < |groups| && groups[nextGroup].at == now {
      var group := groups[nextGroup];
      nextGroup := nextGroup + 1;
      if Stop in group.commands {
        phase := Stopped;
        events := events + [Event(|events| + 1, now, StopControl, phase)];
      } else if Pause in group.commands {
        phase := Paused;
        nextStart := None;
        events := events + [Event(|events| + 1, now, PauseControl, phase)];
      } else if Resume in group.commands {
        if phase != Paused {
          return Err(IllegalResume);
        }
        phase := Running;
        nextStart := Some(now);
        events := events + [Event(|events| + 1, now, ResumeControl, phase)];
      }
      return Ok(Control(phase, nextGroup, nextStep, nextStart, c.consumed, events));
    }
    if nextStep >= |plan.steps| {
      phase := Completed;
      events := events + [Event(|events| + 1, now, CompletedAll(plan.reason), phase)];
      return Ok(Control(phase, nextGroup, nextStep, nextStart, c.consumed, events));
    }
    var step := plan.steps[nextStep];
    if Overflowing(plan, c, now, step) {
      return Err(ClockOverflow);
    }
    if OverBudget(plan, c, now, step) {
      phase := Stopped;
      events := events + [Event(|events| + 1, now, BudgetStopped, phase)];
      return Ok(Control(phase, nextGroup, nextStep, nextStart, c.consumed, events));
    }
    events := events + [Event(|events| + 1, now, StepStarted(step), phase)];
    nextStep := nextStep + 1;
    nextStart := Some(now + step.hold);
    r := Ok(Control(phase, nextGroup, nextStep, nextStart, Plus(c.consumed, step.budget), events));
  }

  /** Run the ramp state machine until it ends or nothing is scheduled. */
  method Simulate(plan: Plan, commands: seq<TimedCommand>) returns (r: Result<Control, ControlError>)
    ensures r == SimulationOf(plan, commands)
  {
    var validated := ValidatePlan(plan);
    if validated.Err? {
      return Err(InvalidPlan);
    }
    var grouped := GroupCommands(commands);
    if grouped.Err? {
      return Err(grouped.error);
    }
    var groups := grouped.value;
    GroupsFacts(commands);
    InitialInv(plan, groups);
    hide Validated, Inv, Rising, Drive, Next, GroupsOf, Ordered;
    var c := Initial();
    while !Terminal(c.phase) && !Idle(groups, c)
      invariant Inv(plan, groups, c)
      invariant Drive(plan, groups, c) == SimulationOf(plan, commands)
      decreases if Terminal(c.phase) then 0 else 1 + |groups| + |plan.steps| - c.nextGroup - c.nextStep
    {
      InvBounds(plan, groups, c);
      NextKeepsInv(plan, groups, c);
      DriveStep(plan, groups, c);
      var next := Turn(plan, groups, c);
      if next.Err? {
        return next;
      }
      InvBounds(plan, groups, next.value);
      c := next.value;
    }
    DriveEnds(plan, groups, c);
    r := Ok(c);
  }

  lemma DriveEnds(plan: Plan, groups: seq<Group>, c: Control)
    requires Validated(plan) && Rising(groups) && Inv(plan, groups, c) && (Terminal(c.phase) || Idle(groups, c))
    ensures Drive(plan, groups, c) == Ok(c)
  {
    hide Inv, Validated, Rising;
  }
}
