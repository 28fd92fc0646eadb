/** How a controlled ramp can fail: an exact account, one command group at a time instead of one turn at a time. */
module ControllerOutcomes {
  import opened Prelude
  import opened Envelope
  import opened EnvelopeController

  datatype Fate = Finishes | ClockFails | ResumeFails

  /** What a whole group of commands at one second amounts to. */
  function Effective(group: Group): Command {
    if Stop in group.commands then Stop else if Pause in group.commands then Pause else Resume
  }

  function Reserve(plan: Plan): nat
    requires Uints(plan.maxima)
  {
    plan.maxima[CooldownSeconds] + plan.maxima[RecoverySeconds]
  }

  // ----- one stretch of running, from a start to the next command

  /** How many full holds, one after the other from `from`, end with the reserve inside the authorized duration. */
  function HoldsThatFit(plan: Plan, from: nat): nat
    requires Uints(plan.maxima)
  {
    if from + Reserve(plan) <= plan.maxima[DurationSeconds]
    then (plan.maxima[DurationSeconds] - Reserve(plan) - from) / plan.maxima[HoldSeconds]
    else 0
  }

  /** How many starts, a hold apart from `from`, lie before `to`. */
  function StartsBefore(plan: Plan, from: nat, to: nat): nat
    requires Uints(plan.maxima)
  {
    if to <= from then 0 else CeilDiv(to - from, plan.maxima[HoldSeconds])
  }

  /** The first start that does not fit the duration is made, before the next command, and does not fit the clock. */
  predicate TooLate(plan: Plan, groups: seq<Group>, i: nat, from: nat, begun: nat)
    requires Uints(plan.maxima)
  {
    var fit := HoldsThatFit(plan, from);
    && begun + fit < |plan.steps|
    && (i < |groups| ==> from + fit * plan.maxima[HoldSeconds] < groups[i].at)
    && from + (fit + 1) * plan.maxima[HoldSeconds] + Reserve(plan) > U64_MAX
  }

  /** Every start before the next command has a step to start and fits. */
  predicate Passes(plan: Plan, groups: seq<Group>, i: nat, from: nat, begun: nat)
    requires Uints(plan.maxima) && i < |groups|
  {
    var starts := StartsBefore(plan, from, groups[i].at);
    begun + starts <= |plan.steps| && starts <= HoldsThatFit(plan, from)
  }

  lemma FitAfterOne(plan: Plan, from: nat)
    requires Uints(plan.maxima) && from + plan.maxima[HoldSeconds] + Reserve(plan) <= plan.maxima[DurationSeconds]
    ensures HoldsThatFit(plan, from) == HoldsThatFit(plan, from + plan.maxima[HoldSeconds]) + 1
  {
    var h := plan.maxima[HoldSeconds];
    DivLess(plan.maxima[DurationSeconds] - Reserve(plan) - from, h);
  }

  lemma DivLess(a: nat, h: nat)
    requires a >= h > 0
    ensures a / h == (a - h) / h + 1
  {
    var q := (a - h) / h;
    assert a - h == h * q + (a - h) % h;
    assert a == h * (q + 1) + (a - h) % h;
    Quotient(a, h, q + 1);
  }

  lemma Quotient(a: nat, h: nat, q: nat)
    requires h > 0 && h * q <= a < h * q + h
    ensures a / h == q
  {
    var p := a / h;
    assert a == h * p + a % h;
    TimesAtMost(p + 1, q, h);
    TimesAtMost(q + 1, p, h);
  }

  lemma TimesAtMost(a: nat, b: nat, h: nat)
    ensures a <= b ==> h * a <= h * b
  {
    if a <= b {
      assert h * b == h * a + h * (b - a);
    }
  }

  lemma StartsAfterOne(plan: Plan, from: nat, to: nat)
    requires Uints(plan.maxima) && from < to
    ensures StartsBefore(plan, from, to) == StartsBefore(plan, from + plan.maxima[HoldSeconds], to) + 1
  {
    var h := plan.maxima[HoldSeconds];
    CeilDivLess(to - from, h);
  }

  lemma CeilDivLess(a: nat, h: nat)
    requires a > 0 && h > 0
    ensures CeilDiv(a, h) == (if a <= h then 0 else CeilDiv(a - h, h)) + 1
  {
    if a >= h {
      DivLess(a, h);
    }
  }

  lemma NothingFits(plan: Plan, from: nat)
    requires Uints(plan.maxima) && from + plan.maxima[HoldSeconds] + Reserve(plan) > plan.maxima[DurationSeconds]
    ensures HoldsThatFit(plan, from) == 0
  {
  }

  lemma Distribute(a: nat, f: nat, h: nat)
    ensures a + h + f * h == a + (f + 1) * h
  {
  }

  // ----- one command group at a time

  function FateFrom(plan: Plan, groups: seq<Group>, i: nat, from: Option<nat>, begun: nat): Fate
    requires Uints(plan.maxima) && i <= |groups|
    decreases |groups| - i
  {
    if from.Some? && TooLate(plan, groups, i, from.value, begun) then ClockFails
    else if i == |groups| || (from.Some? && !Passes(plan, groups, i, from.value, begun)) then Finishes
    else
      var after := begun + if from.Some? then StartsBefore(plan, from.value, groups[i].at) else 0;
      match Effective(groups[i])
      case Stop => Finishes
      case Pause => FateFrom(plan, groups, i + 1, None, after)
      case Resume => if from.Some? then ResumeFails else FateFrom(plan, groups, i + 1, Some(groups[i].at), after)
  }

  /** Starting a step that fits moves nothing in the account of its stretch. */
  lemma FateAfterStart(plan: Plan, groups: seq<Group>, i: nat, from: nat, begun: nat)
    requires Uints(plan.maxima) && i <= |groups| && begun < |plan.steps|
    requires i < |groups| ==> from < groups[i].at
    requires from + plan.maxima[HoldSeconds] + Reserve(plan) <= plan.maxima[DurationSeconds]
    ensures FateFrom(plan, groups, i, Some(from), begun)
         == FateFrom(plan, groups, i, Some(from + plan.maxima[HoldSeconds]), begun + 1)
  {
    var h := plan.maxima[HoldSeconds];
    FitAfterOne(plan, from);
    var fit := HoldsThatFit(plan, from + h);
    Distribute(from, fit, h);
    Distribute(from, fit + 1, h);
    if i < |groups| {
      StartsAfterOne(plan, from, groups[i].at);
    }
    hide HoldsThatFit, StartsBefore, Effective;
  }

  lemma FateWithoutStart(plan: Plan, groups: seq<Group>, i: nat, from: nat, begun: nat)
    requires Uints(plan.maxima) && i <= |groups| && begun <= |plan.steps|
    requires i < |groups| ==> from < groups[i].at
    requires begun == |plan.steps| || from + plan.maxima[HoldSeconds] + Reserve(plan) > plan.maxima[DurationSeconds]
    ensures FateFrom(plan, groups, i, Some(from), begun)
         == if begun < |plan.steps| && from + plan.maxima[HoldSeconds] + Reserve(plan) > U64_MAX then ClockFails
           else Finishes
  {
    if begun < |plan.steps| {
      NothingFits(plan, from);
    }
    hide HoldsThatFit, Effective, CeilDiv;
  }

  lemma FateAtControl(plan: Plan, groups: seq<Group>, i: nat, from: Option<nat>, begun: nat)
    requires Uints(plan.maxima) && i < |groups| && begun <= |plan.steps|
    requires from.Some? ==> groups[i].at <= from.value
    ensures FateFrom(plan, groups, i, from, begun)
         == match Effective(groups[i])
            case Stop => Finishes
            case Pause => FateFrom(plan, groups, i + 1, None, begun)
            case Resume => if from.Some? then ResumeFails else FateFrom(plan, groups, i + 1, Some(groups[i].at), begun)
  {
    hide HoldsThatFit, Effective;
  }

  function FateOf(r: Result<Control, ControlError>): Fate {
    if r.Ok? then Finishes else if r.error == ClockOverflow then ClockFails else ResumeFails
  }

  /** What a legal controller that has not ended is heading for. */
  ghost function Heading(plan: Plan, groups: seq<Group>, c: Control): Fate
    requires Uints(plan.maxima) && c.nextGroup <= |groups|
  {
    if Terminal(c.phase) then Finishes else FateFrom(plan, groups, c.nextGroup, c.nextStart, c.nextStep)
  }

  lemma ControlHeads(plan: Plan, groups: seq<Group>, c: Control)
    requires Uints(plan.maxima) && c.nextGroup < |groups| && !Terminal(c.phase) && c.nextStep <= |plan.steps|
    requires groups[c.nextGroup].commands != []
    requires c.phase == Running <==> c.nextStart.Some?
    requires c.nextStart.Some? ==> groups[c.nextGroup].at <= c.nextStart.value
    ensures var r := ApplyControl(c, groups[c.nextGroup]);
            if r.Err? then r.error == IllegalResume && Heading(plan, groups, c) == ResumeFails
            else Heading(plan, groups, c) == Heading(plan, groups, r.value)
  {
    AnyCommand(groups[c.nextGroup]);
    FateAtControl(plan, groups, c.nextGroup, c.nextStart, c.nextStep);
    hide FateFrom;
  }

  lemma StartHeads(plan: Plan, groups: seq<Group>, c: Control)
    requires Validated(plan) && Uints(plan.maxima) && Inv(plan, groups, c) && c.phase == Running
    requires c.nextStart.Some? && c.nextGroup <= |groups| && c.nextStep <= |plan.steps|
    requires c.nextGroup < |groups| ==> c.nextStart.value < groups[c.nextGroup].at
    ensures var r := StartNext(plan, c, c.nextStart.value);
            if r.Err? then r.error == ClockOverflow && Heading(plan, groups, c) == ClockFails
            else r.value.nextGroup == c.nextGroup && Heading(plan, groups, c) == Heading(plan, groups, r.value)
  {
    hide Validated, Inv, StartNext, FateFrom;
    var now := c.nextStart.value;
    if c.nextStep >= |plan.steps| {
      FinishOutcome(plan, groups, c);
      FateWithoutStart(plan, groups, c.nextGroup, now, c.nextStep);
    } else {
      StartOutcome(plan, groups, c);
      if now + plan.maxima[HoldSeconds] + Reserve(plan) > plan.maxima[DurationSeconds] {
        FateWithoutStart(plan, groups, c.nextGroup, now, c.nextStep);
      } else {
        FateAfterStart(plan, groups, c.nextGroup, now, c.nextStep);
      }
    }
  }

  lemma NextHeads(plan: Plan, groups: seq<Group>, c: Control)
    requires Validated(plan) && Rising(groups) && Inv(plan, groups, c) && !Terminal(c.phase) && !Idle(groups, c)
    ensures Uints(plan.maxima) && c.nextGroup <= |groups|
    ensures var r := Next(plan, groups, c);
            if r.Err? then FateOf(r) == Heading(plan, groups, c)
            else r.value.nextGroup <= |groups| && Heading(plan, groups, c) == Heading(plan, groups, r.value)
  {
    PhaseSchedule(plan, groups, c);
    LongestLength(plan);
    hide Validated, Inv, ApplyControl, StartNext, FateFrom, LadderOf;
    if ControlDue(groups, c) {
      ControlHeads(plan, groups, c);
      ControlScheduledGroup(c, groups[c.nextGroup]);
    } else {
      StartHeads(plan, groups, c);
    }
  }

  lemma ControlScheduledGroup(c: Control, group: Group)
    ensures ApplyControl(c, group).Ok? ==> ApplyControl(c, group).value.nextGroup == c.nextGroup + 1
  {
  }

  /** The event loop ends as the account by command groups says. */
  lemma {:induction false} DriveHeads(plan: Plan, groups: seq<Group>, c: Control)
    requires Validated(plan) && Rising(groups) && Inv(plan, groups, c) && Uints(plan.maxima) && c.nextGroup <= |groups|
    ensures FateOf(Drive(plan, groups, c)) == Heading(plan, groups, c)
    decreases if Terminal(c.phase) then 0 else 1 + |groups| + |plan.steps| - c.nextGroup - c.nextStep
  {
    hide Inv, Next, Validated, Rising, Heading;
    InvBounds(plan, groups, c);
    if Terminal(c.phase) || Idle(groups, c) {
      DriveEnds(plan, groups, c);
      HeadingAtEnd(plan, groups, c);
    } else {
      NextKeepsInv(plan, groups, c);
      NextHeads(plan, groups, c);
      DriveStep(plan, groups, c);
      if Next(plan, groups, c).Ok? {
        InvBounds(plan, groups, Next(plan, groups, c).value);
        DriveHeads(plan, groups, Next(plan, groups, c).value);
      }
    }
  }

  lemma HeadingAtEnd(plan: Plan, groups: seq<Group>, c: Control)
    requires Uints(plan.maxima) && c.nextGroup <= |groups| && (Terminal(c.phase) || Idle(groups, c))
    ensures Heading(plan, groups, c) == Finishes
  {
  }

  // ----- the account written out

  /** After the first `i` groups, all obeyed, the controller runs. */
  predicate RunsAfter(groups: seq<Group>, i: nat)
    requires i <= |groups|
  {
    i == 0 || Effective(groups[i - 1]) == Resume
  }

  function StartAfter(groups: seq<Group>, i: nat): nat
    requires i <= |groups|
  {
    if i == 0 then 0 else groups[i - 1].at
  }

  /** The steps begun before the first `i` groups are all obeyed. */
  function Begun(plan: Plan, groups: seq<Group>, i: nat): nat
    requires Uints(plan.maxima) && i <= |groups|
  {
    if i == 0 then 0
    else Begun(plan, groups, i - 1)
         + if RunsAfter(groups, i - 1) then StartsBefore(plan, StartAfter(groups, i - 1), groups[i - 1].at) else 0
  }

  /** None of the first `i` groups stops the run or resumes a running controller, and the run lives to see each. */
  ghost predicate Obeyed(plan: Plan, groups: seq<Group>, i: nat)
    requires Uints(plan.maxima) && i <= |groups|
  {
    forall j :: 0 <= j < i ==> Lives(plan, groups, j) && Effective(groups[j]) != Stop
                               && (RunsAfter(groups, j) ==> Effective(groups[j]) != Resume)
  }

  ghost predicate Lives(plan: Plan, groups: seq<Group>, j: nat)
    requires Uints(plan.maxima) && j < |groups|
  {
    RunsAfter(groups, j) ==> Passes(plan, groups, j, StartAfter(groups, j), Begun(plan, groups, j))
  }

  /** The run started by group `i - 1`, or at zero, makes a start past the end of the 64-bit clock. */
  ghost predicate ClockFailsAfter(plan: Plan, groups: seq<Group>, i: nat)
    requires Uints(plan.maxima) && i <= |groups|
  {
    && Obeyed(plan, groups, i) && RunsAfter(groups, i)
    && TooLate(plan, groups, i, StartAfter(groups, i), Begun(plan, groups, i))
  }

  /** Group `i` resumes a controller that lives to see it, and runs. */
  ghost predicate ResumeFailsAt(plan: Plan, groups: seq<Group>, i: nat)
    requires Uints(plan.maxima) && i < |groups|
  {
    Obeyed(plan, groups, i) && RunsAfter(groups, i) && Lives(plan, groups, i) && Effective(groups[i]) == Resume
  }

  ghost function FateAfter(plan: Plan, groups: seq<Group>, i: nat): Fate
    requires Uints(plan.maxima) && i <= |groups|
  {
    FateFrom(plan, groups, i, if RunsAfter(groups, i) then Some(StartAfter(groups, i)) else None,
             Begun(plan, groups, i))
  }

  lemma FateMoves(plan: Plan, groups: seq<Group>, i: nat)
    requires Uints(plan.maxima) && i <= |groups| && Obeyed(plan, groups, i)
    ensures ClockFailsAfter(plan, groups, i) ==> FateAfter(plan, groups, i) == ClockFails
    ensures !ClockFailsAfter(plan, groups, i) && i < |groups| && Obeyed(plan, groups, i + 1)
            ==> FateAfter(plan, groups, i) == FateAfter(plan, groups, i + 1)
    ensures !ClockFailsAfter(plan, groups, i) && (i == |groups| || !Obeyed(plan, groups, i + 1))
            ==> FateAfter(plan, groups, i) == if i < |groups| && ResumeFailsAt(plan, groups, i) then ResumeFails
              else Finishes
  {
    hide TooLate, Passes, Effective, StartsBefore, HoldsThatFit;
  }

  lemma LateDoesNotPass(plan: Plan, groups: seq<Group>, i: nat, from: nat, begun: nat)
    requires Uints(plan.maxima) && i < |groups| && TooLate(plan, groups, i, from, begun)
    ensures !Passes(plan, groups, i, from, begun)
  {
    var h, starts, fit := plan.maxima[HoldSeconds], StartsBefore(plan, from, groups[i].at), HoldsThatFit(plan, from);
    assert starts * h >= groups[i].at - from;
    TimesAtMost(starts, fit, h);
  }

  lemma ObeyedBefore(plan: Plan, groups: seq<Group>, i: nat, j: nat)
    requires Uints(plan.maxima) && i < j <= |groups| && Obeyed(plan, groups, j)
    ensures Obeyed(plan, groups, i + 1) && !ClockFailsAfter(plan, groups, i) && !ResumeFailsAt(plan, groups, i)
  {
    assert Lives(plan, groups, i);
    if ClockFailsAfter(plan, groups, i) {
      LateDoesNotPass(plan, groups, i, StartAfter(groups, i), Begun(plan, groups, i));
    }
    hide TooLate, Passes, Effective, Begun;
  }

  lemma FailuresAreObeyed(plan: Plan, groups: seq<Group>)
    requires Uints(plan.maxima)
    ensures forall j :: 0 <= j <= |groups| && ClockFailsAfter(plan, groups, j) ==> Obeyed(plan, groups, j)
    ensures forall j :: 0 <= j < |groups| && ResumeFailsAt(plan, groups, j)
                        ==> Obeyed(plan, groups, j) && (j < |groups| ==> !ClockFailsAfter(plan, groups, j))
  {
    hide TooLate, Passes, Effective, Begun;
    forall j | 0 <= j < |groups| && ResumeFailsAt(plan, groups, j)
      ensures !ClockFailsAfter(plan, groups, j)
    {
      if ClockFailsAfter(plan, groups, j) {
        LateDoesNotPass(plan, groups, j, StartAfter(groups, j), Begun(plan, groups, j));
      }
    }
  }

  lemma {:induction false} FateWrittenOut(plan: Plan, groups: seq<Group>, i: nat)
    requires Uints(plan.maxima) && i <= |groups| && Obeyed(plan, groups, i)
    ensures FateAfter(plan, groups, i) == ClockFails <==>
            exists j :: i <= j <= |groups| && ClockFailsAfter(plan, groups, j)
    ensures FateAfter(plan, groups, i) == ResumeFails <==>
            exists j :: i <= j < |groups| && ResumeFailsAt(plan, groups, j)
    decreases |groups| - i
  {
    hide *;
    FateMoves(plan, groups, i);
    forall j | i < j <= |groups| && Obeyed(plan, groups, j)
      ensures Obeyed(plan, groups, i + 1) && !ClockFailsAfter(plan, groups, i) && !ResumeFailsAt(plan, groups, i)
    {
      ObeyedBefore(plan, groups, i, j);
    }
    FailuresAreObeyed(plan, groups);
    if i < |groups| && Obeyed(plan, groups, i + 1) {
      FateWrittenOut(plan, groups, i + 1);
    }
  }

  /**
   Exactly when a run of a validated plan fails, and how. A run that fails neither way ends as
   `EveryRunIsSafe` says.
   */
  lemma FailuresAreExact(plan: Plan, commands: seq<TimedCommand>)
    requires Validated(plan) && Ordered(commands)
    ensures Uints(plan.maxima)
    ensures var groups := GroupsOf(commands);
            && (SimulationOf(plan, commands) == Err(ClockOverflow) <==>
                exists i :: 0 <= i <= |groups| && ClockFailsAfter(plan, groups, i))
            && (SimulationOf(plan, commands) == Err(IllegalResume) <==>
                exists i :: 0 <= i < |groups| && ResumeFailsAt(plan, groups, i))
  {
    var groups := GroupsOf(commands);
    EveryRunIsSafe(plan, commands);
    SimulationDrives(plan, commands);
    DriveHeads(plan, groups, Initial());
    InitialHeading(plan, groups);
    hide *;
    FateWrittenOut(plan, groups, 0);
  }

  lemma InitialHeading(plan: Plan, groups: seq<Group>)
    requires Uints(plan.maxima)
    ensures Obeyed(plan, groups, 0) && Heading(plan, groups, Initial()) == FateAfter(plan, groups, 0)
  {
    hide FateFrom;
  }

  /** Every effective resume directly follows an effective pause. */
  ghost predicate WellPaired(groups: seq<Group>) {
    forall i :: 0 <= i < |groups| && Effective(groups[i]) == Resume ==> i > 0 && Effective(groups[i - 1]) == Pause
  }

  /** Every time a step can start at leaves room on the 64-bit clock. */
  ghost predicate ClockRoom(plan: Plan, groups: seq<Group>)
    requires Uints(plan.maxima)
  {
    && (forall i :: 0 <= i < |groups| ==> groups[i].at + plan.maxima[HoldSeconds] + Reserve(plan) <= U64_MAX)
    && plan.maxima[DurationSeconds] + plan.maxima[HoldSeconds] <= U64_MAX
  }

  /**
   A start that is too late is a first start past the clock, or a later one when the duration itself reaches the
   end of the clock.
   */
  lemma TooLateNeeds(plan: Plan, groups: seq<Group>, i: nat, from: nat, begun: nat)
    requires Uints(plan.maxima) && TooLate(plan, groups, i, from, begun)
    ensures || from + plan.maxima[HoldSeconds] + Reserve(plan) > U64_MAX
            || (plan.maxima[DurationSeconds] + plan.maxima[HoldSeconds] > U64_MAX
                && from + |plan.steps| * plan.maxima[HoldSeconds] + Reserve(plan) > U64_MAX)
  {
    hide HoldsThatFit;
    var h, fit := plan.maxima[HoldSeconds], HoldsThatFit(plan, from);
    if fit > 0 {
      FitEndsInTime(plan, from);
    }
    Distribute(from, fit, h);
    TimesAtMost(fit + 1, |plan.steps|, h);
  }

  lemma FitEndsInTime(plan: Plan, from: nat)
    requires Uints(plan.maxima) && HoldsThatFit(plan, from) > 0
    ensures from + HoldsThatFit(plan, from) * plan.maxima[HoldSeconds] + Reserve(plan) <= plan.maxima[DurationSeconds]
  {
    var room, h := plan.maxima[DurationSeconds] - Reserve(plan) - from, plan.maxima[HoldSeconds];
    assert room == h * (room / h) + room % h;
  }

  /** Alternating controls at times that leave room on the clock never make a run fail. */
  lemma WellFormedControlsSucceed(plan: Plan, commands: seq<TimedCommand>)
    requires Validated(plan) && Ordered(commands) && Uints(plan.maxima)
    requires WellPaired(GroupsOf(commands)) && ClockRoom(plan, GroupsOf(commands))
    ensures SimulationOf(plan, commands).Ok?
  {
    hide SimulationOf, GroupsOf, Validated, TooLate, Obeyed;
    var groups := GroupsOf(commands);
    FailuresAreExact(plan, commands);
    EveryRunIsSafe(plan, commands);
    PlanFits(plan);
    forall i | 0 <= i <= |groups| && ClockFailsAfter(plan, groups, i)
      ensures false
    {
      TooLateNeeds(plan, groups, i, StartAfter(groups, i), Begun(plan, groups, i));
    }
  }

  lemma PlanFits(plan: Plan)
    requires Validated(plan)
    ensures Uints(plan.maxima) && |plan.steps| >= 1
    ensures |plan.steps| * plan.maxima[HoldSeconds] + Reserve(plan) <= plan.maxima[DurationSeconds]
    ensures plan.maxima[HoldSeconds] <= |plan.steps| * plan.maxima[HoldSeconds]
  {
    LongestLength(plan);
    SpentAffordable(plan, |plan.steps|);
    SpentDuration(NormalizedOf(plan), LadderOf(plan), |plan.steps|);
    TimesAtMost(1, |plan.steps|, plan.maxima[HoldSeconds]);
    hide Validated, LadderOf, Spent, Ready;
  }

  // ----- when a start is made

  /** When the next step is due after an event, if nothing else happens. */
  function DueAfter(e: Event): Option<nat> {
    match e.what
    case Started => Some(e.at)
    case ResumeControl => Some(e.at)
    case StepStarted(step) => Some(e.at + step.hold)
    case _ => None
  }

  predicate IsStart(what: What) {
    what.StepStarted? || what.CompletedAll? || what.BudgetStopped?
  }

  /** Every start, completion or budget stop comes at the second due after the event just before it. */
  ghost predicate Paced(events: seq<Event>) {
    forall i :: 1 <= i < |events| && IsStart(events[i].what) ==> DueAfter(events[i - 1]) == Some(events[i].at)
  }

  ghost predicate OnSchedule(c: Control) {
    c.events != [] && Paced(c.events) && (c.phase == Running ==> c.nextStart == DueAfter(c.events[|c.events| - 1]))
  }

  lemma ControlStaysOnSchedule(c: Control, group: Group)
    requires OnSchedule(c) && group.commands != []
    ensures ApplyControl(c, group).Ok? ==> OnSchedule(ApplyControl(c, group).value)
  {
    AnyCommand(group);
  }

  lemma StartStaysOnSchedule(plan: Plan, c: Control)
    requires Uints(plan.maxima) && OnSchedule(c) && c.phase == Running && c.nextStart.Some?
    ensures StartNext(plan, c, c.nextStart.value).Ok? ==> OnSchedule(StartNext(plan, c, c.nextStart.value).value)
  {
    hide Overflowing, OverBudget;
  }

  lemma NextStaysOnSchedule(plan: Plan, groups: seq<Group>, c: Control)
    requires Validated(plan) && Rising(groups) && Inv(plan, groups, c) && !Terminal(c.phase) && !Idle(groups, c)
             && OnSchedule(c)
    ensures Uints(plan.maxima) && (Next(plan, groups, c).Ok? ==> OnSchedule(Next(plan, groups, c).value))
  {
    LongestLength(plan);
    PhaseSchedule(plan, groups, c);
    hide Validated, Inv, ApplyControl, StartNext, OnSchedule, LadderOf;
    if ControlDue(groups, c) {
      ControlStaysOnSchedule(c, groups[c.nextGroup]);
    } else {
      StartStaysOnSchedule(plan, c);
    }
  }

  lemma {:induction false} DriveStaysOnSchedule(plan: Plan, groups: seq<Group>, c: Control)
    requires Validated(plan) && Rising(groups) && Inv(plan, groups, c) && OnSchedule(c)
    ensures Drive(plan, groups, c).Ok? ==> OnSchedule(Drive(plan, groups, c).value)
    decreases if Terminal(c.phase) then 0 else 1 + |groups| + |plan.steps| - c.nextGroup - c.nextStep
  {
    hide Inv, Next, Validated, Rising, OnSchedule;
    InvBounds(plan, groups, c);
    if Terminal(c.phase) || Idle(groups, c) {
      DriveEnds(plan, groups, c);
    } else {
      NextKeepsInv(plan, groups, c);
      NextStaysOnSchedule(plan, groups, c);
      DriveStep(plan, groups, c);
      if Next(plan, groups, c).Ok? {
        InvBounds(plan, groups, Next(plan, groups, c).value);
        DriveStaysOnSchedule(plan, groups, Next(plan, groups, c).value);
      }
    }
  }

  /**
   In every run a step starts at the second of the resume just before it, or one full hold after
   the step just before it; so does the completion or budget stop.
   */
  lemma RunsArePaced(plan: Plan, commands: seq<TimedCommand>)
    requires Validated(plan) && Ordered(commands)
    ensures SimulationOf(plan, commands).Ok? ==> Paced(SimulationOf(plan, commands).value.events)
  {
    hide Validated, Inv, Drive, SimulationOf, GroupsOf, Rising;
    SimulationDrives(plan, commands);
    assert OnSchedule(Initial());
    DriveStaysOnSchedule(plan, GroupsOf(commands), Initial());
  }

  /** An obeyed resume starts the next step, not the interrupted one, at its own second and for a full hold. */
  lemma ResumeStartsNextStep(plan: Plan, groups: seq<Group>, c: Control)
    requires Validated(plan) && Rising(groups) && Inv(plan, groups, c) && c.phase == Paused && Uints(plan.maxima)
    requires c.nextGroup < |groups| && Effective(groups[c.nextGroup]) == Resume && c.nextStep < |plan.steps|
    requires groups[c.nextGroup].at + plan.maxima[HoldSeconds] + Reserve(plan) <= plan.maxima[DurationSeconds]
    ensures !Idle(groups, c) && Next(plan, groups, c).Ok?
    ensures var at, n, step, resumed :=
            groups[c.nextGroup].at, |c.events|, plan.steps[c.nextStep], Next(plan, groups, c).value;
            && !Idle(groups, resumed) && Next(plan, groups, resumed).Ok?
            && var started := Next(plan, groups, resumed).value;
               && started.events
                  == c.events + [Event(n + 1, at, ResumeControl, Running), Event(n + 2, at, StepStarted(step), Running)]
               && started.nextStep == c.nextStep + 1 && started.nextStart == Some(at + step.hold)
                  && step.hold == plan.maxima[HoldSeconds]
  {
    hide Validated, Inv, StartNext, LadderOf, FateFrom;
    PhaseSchedule(plan, groups, c);
    NextKeepsInv(plan, groups, c);
    AnyCommand(groups[c.nextGroup]);
    StepHold(plan, c.nextStep);
    StartOutcome(plan, groups, Next(plan, groups, c).value);
  }

  // ----- how late is too late

  /** Pause at once and resume at `at`. */
  function PauseUntil(at: nat): seq<TimedCommand> {
    [TimedCommand(0, Pause), TimedCommand(at, Resume)]
  }

  lemma PauseUntilGroups(at: nat)
    requires at > 0
    ensures Ordered(PauseUntil(at)) && GroupsOf(PauseUntil(at)) == [Group(0, [Pause]), Group(at, [Resume])]
  {
    var commands := PauseUntil(at);
    assert commands[..1] == [commands[0]] && commands[..1][..0] == [];
    assert GroupsOf(commands[..1]) == [Group(0, [Pause])];
  }

  lemma PauseUntilFails(plan: Plan, at: nat)
    requires Validated(plan) && Uints(plan.maxima) && at > 0
    requires HoldsThatFit(plan, at) < |plan.steps|
    requires at + (HoldsThatFit(plan, at) + 1) * plan.maxima[HoldSeconds] + Reserve(plan) > U64_MAX
    ensures Ordered(PauseUntil(at)) && SimulationOf(plan, PauseUntil(at)) == Err(ClockOverflow)
  {
    hide SimulationOf, GroupsOf, Validated, HoldsThatFit, CeilDiv;
    PauseUntilGroups(at);
    FailuresAreExact(plan, PauseUntil(at));
    var groups := [Group(0, [Pause]), Group(at, [Resume])];
    assert Begun(plan, groups, 1) == 0 && Begun(plan, groups, 2) == 0;
    assert Effective(groups[0]) == Pause && Effective(groups[1]) == Resume;
    assert ClockFailsAfter(plan, groups, 2);
  }

  /** Commands no later than `latest` can drive the clock past 64 bits. */
  predicate ClockInReach(plan: Plan, latest: nat)
    requires Uints(plan.maxima)
  {
    || latest + plan.maxima[HoldSeconds] + Reserve(plan) > U64_MAX
    || (plan.maxima[DurationSeconds] + plan.maxima[HoldSeconds] > U64_MAX
        && latest + |plan.steps| * plan.maxima[HoldSeconds] + Reserve(plan) > U64_MAX)
  }

  ghost predicate NoLaterThan(commands: seq<TimedCommand>, latest: nat) {
    forall i :: 0 <= i < |commands| ==> commands[i].at <= latest
  }

  lemma FitIs(plan: Plan, from: nat, fit: nat)
    requires Uints(plan.maxima)
    requires from + fit * plan.maxima[HoldSeconds] + Reserve(plan) <= plan.maxima[DurationSeconds]
    requires from + (fit + 1) * plan.maxima[HoldSeconds] + Reserve(plan) > plan.maxima[DurationSeconds]
    ensures HoldsThatFit(plan, from) == fit
  {
    var h := plan.maxima[HoldSeconds];
    Distribute(from, fit, h);
    Quotient(plan.maxima[DurationSeconds] - Reserve(plan) - from, h, fit);
  }

  lemma FirstStartTooLate(plan: Plan, at: nat)
    requires Validated(plan) && Uints(plan.maxima) && at + plan.maxima[HoldSeconds] + Reserve(plan) > U64_MAX
             && |plan.steps| > 0
    requires at > 0
    ensures Ordered(PauseUntil(at)) && SimulationOf(plan, PauseUntil(at)) == Err(ClockOverflow)
  {
    hide SimulationOf, Validated, HoldsThatFit, Ordered;
    NothingFits(plan, at);
    PauseUntilFails(plan, at);
  }

  lemma SomeScheduleFails(plan: Plan, latest: nat)
    returns (at: nat)
    requires Validated(plan) && Uints(plan.maxima) && ClockInReach(plan, latest)
    ensures 0 < at <= latest && SimulationOf(plan, PauseUntil(at)) == Err(ClockOverflow) && Ordered(PauseUntil(at))
  {
    hide SimulationOf, Validated, HoldsThatFit;
    PlanFits(plan);
    var h, d, n := plan.maxima[HoldSeconds], plan.maxima[DurationSeconds], |plan.steps|;
    Distribute(0, n - 1, h);
    if latest + h + Reserve(plan) > U64_MAX {
      at := latest;
      FirstStartTooLate(plan, at);
    } else {
      at := Min(latest, d - (n - 1) * h - Reserve(plan));
      FitIs(plan, at, n - 1);
      PauseUntilFails(plan, at);
    }
  }

  /**
   The exact bound on command times: some schedule with no later command fails on the clock exactly when it is in
   reach.
   */
  lemma ClockBound(plan: Plan, latest: nat)
    requires Validated(plan)
    ensures Uints(plan.maxima)
    ensures ClockInReach(plan, latest) <==>
            exists commands ::
              Ordered(commands) && NoLaterThan(commands, latest) && SimulationOf(plan, commands) == Err(ClockOverflow)
  {
    hide SimulationOf, Validated, Ordered, HoldsThatFit;
    PlanFits(plan);
    forall commands | Ordered(commands) && NoLaterThan(commands, latest)
      && SimulationOf(plan, commands) == Err(ClockOverflow)
      ensures ClockInReach(plan, latest)
    {
      EarlyCommandsReach(plan, commands, latest);
    }
    if ClockInReach(plan, latest) {
      var at := SomeScheduleFails(plan, latest);
      assert NoLaterThan(PauseUntil(at), latest);
    }
  }

  lemma EarlyCommandsReach(plan: Plan, commands: seq<TimedCommand>, latest: nat)
    requires Validated(plan) && Ordered(commands) && NoLaterThan(commands, latest) && Uints(plan.maxima)
    requires SimulationOf(plan, commands) == Err(ClockOverflow)
    ensures ClockInReach(plan, latest)
  {
    hide SimulationOf, Validated, GroupsOf, Obeyed, TooLate;
    var groups := GroupsOf(commands);
    FailuresAreExact(plan, commands);
    PlanFits(plan);
    GroupTimes(commands, latest);
    var i :| 0 <= i <= |groups| && ClockFailsAfter(plan, groups, i);
    TooLateNeeds(plan, groups, i, StartAfter(groups, i), Begun(plan, groups, i));
  }

  lemma {:induction false} GroupTimes(commands: seq<TimedCommand>, latest: nat)
    requires NoLaterThan(commands, latest)
    ensures forall i :: 0 <= i < |GroupsOf(commands)| ==> GroupsOf(commands)[i].at <= latest
  {
    if commands != [] {
      GroupTimes(commands[..|commands| - 1], latest);
    }
  }

  const LATE: seq<TimedCommand> := [TimedCommand(0, Pause), TimedCommand(U64_MAX, Resume)]

  /** In particular a legal pause and resume, late enough, makes every validated plan fail. */
  lemma LateResumeOverflows(plan: Plan)
    requires Validated(plan)
    ensures SimulationOf(plan, LATE) == Err(ClockOverflow)
  {
    hide SimulationOf, Validated, HoldsThatFit, Ordered;
    PlanFits(plan);
    FirstStartTooLate(plan, U64_MAX);
    assert LATE == PauseUntil(U64_MAX);
  }
}
