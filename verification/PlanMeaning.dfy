/**
 What a compiled plan says about its manifest, told without the compiler: an exact account of targets, steps and
 totals.
 */
module PlanMeaning {
  import opened Prelude
  import opened Sorting
  import opened Subsequences
  import opened Constraints
  import opened ActionTraces
  import opened CampaignPlan

  // ----- addresses

  predicate Earlier(x: Address, y: Address) {
    x.version < y.version || (x.version == y.version && x.number < y.number)
  }

  /** The literal, or what the resolver answered: each address once, in ascending order. */
  ghost predicate Answered(resolver: Resolver, host: Host, addresses: seq<Address>) {
    match host
    case Literal(address) => addresses == [address]
    case Name(name) =>
      && resolver(name).Ok?
      && (forall a :: a in addresses <==> a in resolver(name).value)
      && forall i, j :: 0 <= i < j < |addresses| ==> Earlier(addresses[i], addresses[j])
  }

  lemma {:induction false} RisingUnique(a: seq<Address>, b: seq<Address>)
    requires forall i, j :: 0 <= i < j < |a| ==> Earlier(a[i], a[j])
    requires forall i, j :: 0 <= i < j < |b| ==> Earlier(b[i], b[j])
    requires forall x :: x in a <==> x in b
    ensures a == b
  {
    if a == [] {
      HeadIn(b);
    } else {
      assert a[0] in b && b != [] && b[0] in a;
      var i :| 0 <= i < |b| && b[i] == a[0];
      var j :| 0 <= j < |a| && a[j] == b[0];
      assert a[0] == b[0];
      forall x ensures x in a[1..] <==> x in b[1..] {
        RestMembers(a, x);
        RestMembers(b, x);
      }
      RisingUnique(a[1..], b[1..]);
      assert a == [a[0]] + a[1..] && b == [b[0]] + b[1..];
    }
  }

  lemma HeadIn<T>(s: seq<T>)
    ensures s == [] || s[0] in s
  {
  }

  lemma RestMembers(s: seq<Address>, x: Address)
    requires s != [] && forall i, j :: 0 <= i < j < |s| ==> Earlier(s[i], s[j])
    ensures x in s[1..] <==> x in s && x != s[0]
  {
    if x in s && x != s[0] {
      var i :| 0 <= i < |s| && s[i] == x;
      assert s[1..][i - 1] == x;
    }
    if x in s[1..] {
      var i :| 0 <= i < |s| - 1 && s[1..][i] == x;
      assert s[i + 1] == x && Earlier(s[0], s[i + 1]);
    }
  }

  lemma AnswersRise(raw: seq<Address>)
    ensures forall i, j :: 0 <= i < j < |Answers(raw)| ==> Earlier(Answers(raw)[i], Answers(raw)[j])
    ensures forall a :: a in Answers(raw) <==> a in raw
  {
    var once := Dedup(raw);
    DedupDistinct(raw);
    SortMembers(AddressLe, once);
    SortPermutes(AddressLe, once);
    SortSorted(AddressLe, once);
    PermutedDistinct(once, Sort(AddressLe, once));
    var sorted := Answers(raw);
    forall i, j | 0 <= i < j < |sorted| ensures Earlier(sorted[i], sorted[j]) {
      assert AddressLe(sorted[i], sorted[j]) && sorted[i] != sorted[j];
    }
  }

  lemma LookedUp(resolver: Resolver, host: Host, addresses: seq<Address>)
    ensures Lookup(resolver, host) == Ok(addresses) <==> Answered(resolver, host, addresses)
  {
    if host.Name? && resolver(host.name).Ok? {
      var raw := resolver(host.name).value;
      AnswersRise(raw);
      if Answered(resolver, host, addresses) {
        RisingUnique(addresses, Answers(raw));
      }
    }
  }

  // ----- targets

  /** The target as it was asked for, at approved addresses only, with nothing that is not authorized. */
  ghost predicate Granted(m: Manifest, t: Target, r: Resolved) {
    && r.name == t.name && r.transport == t.transport && r.port == t.port && r.credential == t.credential
    && r.addresses != [] && (forall a :: a in r.addresses ==> m.approved(a))
    && t.transport in m.transports && t.port in m.ports
    && (t.credential.Some? ==> t.credential.value in m.credentials)
  }

  ghost predicate NamesDiffer(targets: seq<Target>) {
    forall i, j :: 0 <= i < j < |targets| ==> targets[i].name != targets[j].name
  }

  ghost predicate TargetsGranted(m: Manifest, resolver: Resolver, targets: seq<Target>, resolved: seq<Resolved>) {
    && |resolved| == |targets| && NamesDiffer(targets)
    && forall i :: 0 <= i < |targets| ==>
         Granted(m, targets[i], resolved[i]) && Answered(resolver, targets[i].host, resolved[i].addresses)
  }

  /** Every name asked for is pinned to the addresses it was given, and nothing else is pinned. */
  ghost predicate PinsKept(targets: seq<Target>, resolved: seq<Resolved>, pins: map<string, seq<Address>>)
    requires |resolved| == |targets|
  {
    && (forall h :: h in pins ==> exists i :: 0 <= i < |targets| && targets[i].host == Name(h))
    && forall i :: 0 <= i < |targets| && targets[i].host.Name? ==>
         targets[i].host.name in pins && pins[targets[i].host.name] == resolved[i].addresses
  }

  ghost predicate Resolution(m: Manifest, resolver: Resolver, targets: seq<Target>, net: Network) {
    TargetsGranted(m, resolver, targets, net.targets) && PinsKept(targets, net.targets, net.pins)
  }

  /** Nothing but what the manifest authorizes is asked for, and every answer is approved. */
  ghost predicate Allowed(m: Manifest, resolver: Resolver, t: Target) {
    && t.transport in m.transports && t.port in m.ports
    && (t.credential.Some? ==> t.credential.value in m.credentials)
    && match t.host
       case Literal(address) => m.approved(address)
       case Name(name) =>
         resolver(name).Ok? && resolver(name).value != [] && forall a :: a in resolver(name).value ==> m.approved(a)
  }

  ghost predicate CanResolve(m: Manifest, resolver: Resolver, targets: seq<Target>) {
    NamesDiffer(targets) && forall i :: 0 <= i < |targets| ==> Allowed(m, resolver, targets[i])
  }

  lemma SomeAnswer(resolver: Resolver, host: Host, addresses: seq<Address>)
    requires Answered(resolver, host, addresses)
    ensures addresses != [] <==> host.Literal? || resolver(host.name).value != []
  {
    HeadIn(addresses);
    if host.Name? {
      HeadIn(resolver(host.name).value);
    }
  }

  lemma Approved(m: Manifest, resolver: Resolver, t: Target)
    ensures Allowed(m, resolver, t) <==>
            && t.transport in m.transports && t.port in m.ports
            && (t.credential.Some? ==> t.credential.value in m.credentials)
            && Lookup(resolver, t.host).Ok? && Lookup(resolver, t.host).value != []
            && forall i :: 0 <= i < |Lookup(resolver, t.host).value| ==> m.approved(Lookup(resolver, t.host).value[i])
    ensures Lookup(resolver, t.host).Ok? ==>
              forall a :: a in Lookup(resolver, t.host).value ==>
                exists i :: 0 <= i < |Lookup(resolver, t.host).value| && Lookup(resolver, t.host).value[i] == a
  {
    var found := Lookup(resolver, t.host);
    if found.Ok? {
      LookedUp(resolver, t.host, found.value);
      SomeAnswer(resolver, t.host, found.value);
      if t.host.Name? {
        hide Lookup;
        if forall i :: 0 <= i < |found.value| ==> m.approved(found.value[i]) {
          forall a | a in resolver(t.host.name).value ensures m.approved(a) {
            assert a in found.value;
          }
        }
      } else {
        assert found.value[0] == t.host.address;
      }
    }
  }

  /** One target is resolved exactly when it is allowed and new; and then as granted. */
  lemma OneResolved(m: Manifest, resolver: Resolver, net: Network, t: Target)
    ensures var r := ResolveOne(m, resolver, net, t);
            && (r.Ok? <==>
                (forall i :: 0 <= i < |net.targets| ==> net.targets[i].name != t.name) && Allowed(m, resolver, t))
            && (r.Ok? ==>
                  && |r.value.targets| == |net.targets| + 1 && r.value.targets[..|net.targets|] == net.targets
                  && var last := r.value.targets[|net.targets|];
                     && Granted(m, t, last) && Answered(resolver, t.host, last.addresses)
                     && r.value.pins == if t.host.Name? then net.pins[t.host.name := last.addresses] else net.pins)
  {
    Approved(m, resolver, t);
    if Lookup(resolver, t.host).Ok? {
      LookedUp(resolver, t.host, Lookup(resolver, t.host).value);
    }
    hide Answered, Lookup, Allowed;
  }

  lemma LastAllowed(m: Manifest, resolver: Resolver, targets: seq<Target>)
    requires targets != []
    ensures var n := |targets| - 1;
            CanResolve(m, resolver, targets) <==>
            && CanResolve(m, resolver, targets[..n]) && Allowed(m, resolver, targets[n])
            && forall i :: 0 <= i < n ==> targets[i].name != targets[n].name
  {
    hide Allowed;
  }

  lemma LastPinned(m: Manifest, resolver: Resolver, targets: seq<Target>, before: Network, net: Network)
    requires targets != [] && Resolution(m, resolver, targets[..|targets| - 1], before)
    requires |net.targets| == |targets| && net.targets[..|targets| - 1] == before.targets
    requires var t, last := targets[|targets| - 1], net.targets[|targets| - 1];
             && Granted(m, t, last) && Answered(resolver, t.host, last.addresses)
             && net.pins == (if t.host.Name? then before.pins[t.host.name := last.addresses] else before.pins)
    requires NamesDiffer(targets)
    ensures Resolution(m, resolver, targets, net)
  {
    hide Granted;
    var n := |targets| - 1;
    var t, front := targets[n], targets[..n];
    forall i | 0 <= i < |targets|
      ensures Granted(m, targets[i], net.targets[i]) && Answered(resolver, targets[i].host, net.targets[i].addresses)
    {
      if i < n {
        assert net.targets[i] == before.targets[i] && front[i] == targets[i];
      }
    }
    forall i | 0 <= i < |targets| && targets[i].host.Name?
      ensures targets[i].host.name in net.pins && net.pins[targets[i].host.name] == net.targets[i].addresses
    {
      if i < n {
        assert front[i].host.name in before.pins && before.pins[front[i].host.name] == before.targets[i].addresses;
        if targets[i].host == t.host {
          RisingUnique(net.targets[i].addresses, net.targets[n].addresses);
        }
      }
    }
    forall h | h in net.pins ensures exists i :: 0 <= i < |targets| && targets[i].host == Name(h) {
      if h in before.pins {
        var i :| 0 <= i < n && front[i].host == Name(h);
        assert targets[i].host == Name(h);
      } else {
        assert targets[n].host == Name(h);
      }
    }
  }

  lemma {:induction false} ResolvesSo(m: Manifest, resolver: Resolver, targets: seq<Target>)
    ensures ResolveAll(m, resolver, targets).Ok? <==> CanResolve(m, resolver, targets)
    ensures ResolveAll(m, resolver, targets).Ok? ==>
                Resolution(m, resolver, targets, ResolveAll(m, resolver, targets).value)
  {
    hide ResolveOne, Allowed, Granted, Answered, PinsKept;
    if targets == [] {
      NoTargets(m, resolver);
    } else {
      var n := |targets| - 1;
      ResolvesSo(m, resolver, targets[..n]);
      LastAllowed(m, resolver, targets);
      var before := ResolveAll(m, resolver, targets[..n]);
      if before.Ok? {
        OneResolved(m, resolver, before.value, targets[n]);
        SameNames(m, resolver, targets[..n], before.value);
        if ResolveAll(m, resolver, targets).Ok? {
          LastPinned(m, resolver, targets, before.value, ResolveAll(m, resolver, targets).value);
        }
      }
    }
  }

  lemma NoTargets(m: Manifest, resolver: Resolver)
    ensures CanResolve(m, resolver, []) && Resolution(m, resolver, [], Network([], map[]))
  {
  }

  lemma SameNames(m: Manifest, resolver: Resolver, targets: seq<Target>, net: Network)
    requires Resolution(m, resolver, targets, net)
    ensures |net.targets| == |targets| && forall i :: 0 <= i < |targets| ==> net.targets[i].name == targets[i].name
  {
    hide Answered;
    forall i | 0 <= i < |targets| ensures net.targets[i].name == targets[i].name {
      assert Granted(m, targets[i], net.targets[i]);
    }
  }

  lemma GrantedAllowed(m: Manifest, resolver: Resolver, t: Target, r: Resolved)
    requires Granted(m, t, r) && Answered(resolver, t.host, r.addresses)
    ensures Allowed(m, resolver, t)
  {
    SomeAnswer(resolver, t.host, r.addresses);
  }

  lemma ResolutionUnique(m: Manifest, resolver: Resolver, targets: seq<Target>, a: Network, b: Network)
    requires Resolution(m, resolver, targets, a) && Resolution(m, resolver, targets, b)
    ensures a == b
  {
    forall i | 0 <= i < |targets| ensures a.targets[i] == b.targets[i] {
      assert Granted(m, targets[i], a.targets[i]) && Granted(m, targets[i], b.targets[i]);
      if targets[i].host.Name? {
        RisingUnique(a.targets[i].addresses, b.targets[i].addresses);
      }
    }
    hide Granted, Answered;
    assert a.targets == b.targets;
    forall h ensures h in a.pins <==> h in b.pins {
    }
    assert a.pins == b.pins;
  }

  /**
   Resolution succeeds exactly when every target is allowed and names differ, and its result is then the one
   network in which every target is granted as asked and every name pinned to its answers.
   */
  lemma ResolvedExactly(m: Manifest, resolver: Resolver, targets: seq<Target>, net: Network)
    ensures ResolveAll(m, resolver, targets).Ok? <==> CanResolve(m, resolver, targets)
    ensures ResolveAll(m, resolver, targets) == Ok(net) <==> Resolution(m, resolver, targets, net)
  {
    ResolvesSo(m, resolver, targets);
    if Resolution(m, resolver, targets, net) {
      forall i | 0 <= i < |targets| ensures Allowed(m, resolver, targets[i]) {
        GrantedAllowed(m, resolver, targets[i], net.targets[i]);
      }
      hide Resolution, Granted, Answered, Allowed, PinsKept;
      ResolutionUnique(m, resolver, targets, net, ResolveAll(m, resolver, targets).value);
    }
  }

  // ----- cases and steps

  function StepsIn(cases: seq<Case>): nat {
    if cases == [] then 0 else StepsIn(cases[..|cases| - 1]) + cases[|cases| - 1].count
  }

  function CostOf(cases: seq<Case>): Budget {
    if cases == [] then Budget(0, 0, 0, 0)
    else
      var before, c := CostOf(cases[..|cases| - 1]), cases[|cases| - 1];
      Budget(before.calls + if c.kind == Call then c.count else 0, before.packets + Times(c.count, c.packets),
             before.bytes + Times(c.count, c.bytes), before.duration + Times(c.count, c.duration))
  }

  function Times(a: nat, b: nat): nat {
    a * b
  }

  predicate Fits64(b: Budget) {
    b.calls <= U64_MAX && b.packets <= U64_MAX && b.bytes <= U64_MAX && b.duration <= U64_MAX
  }

  /** A generated case runs a valid row and a valid call, at a target of the row's transport and address family. */
  ghost predicate GeneratedFits(matrix: Option<Matrix>, g: Generated, target: Resolved) {
    && matrix.Some? && ValidRow(matrix.value, g.factors) && ValidCall(g.actions)
    && "transport" in g.factors && g.factors["transport"] == Text(target.transport)
    && "addressFamily" in g.factors
    && forall a :: a in target.addresses ==>
         if a.version == 4 then g.factors["addressFamily"] == Text("ipv4")
         else g.factors["addressFamily"] == Text("ipv6")
  }

  ghost predicate AimedAt(c: Case, matrix: Option<Matrix>, target: Resolved) {
    target.name == c.target && (c.generated.Some? ==> GeneratedFits(matrix, c.generated.value, target))
  }

  /** The numbers of a case are positive and fit 64 bits, and it is aimed at a target. */
  ghost predicate CaseFits(c: Case, matrix: Option<Matrix>, targets: seq<Resolved>) {
    && 1 <= c.count <= U64_MAX && 1 <= c.packets <= U64_MAX && 1 <= c.bytes <= U64_MAX && 1 <= c.duration <= U64_MAX
    && exists target :: target in targets && AimedAt(c, matrix, target)
  }

  ghost predicate IdsDiffer(cases: seq<Case>) {
    forall i, j :: 0 <= i < j < |cases| ==> cases[i].id != cases[j].id
  }

  ghost predicate AllFit(matrix: Option<Matrix>, targets: seq<Resolved>, cases: seq<Case>) {
    forall i :: 0 <= i < |cases| ==> CaseFits(cases[i], matrix, targets)
  }

  ghost predicate CasesFit(packets: nat, matrix: Option<Matrix>, targets: seq<Resolved>, cases: seq<Case>) {
    && IdsDiffer(cases) && AllFit(matrix, targets, cases)
    && StepsIn(cases) <= packets && StepsIn(cases) <= 100_000 && Fits64(CostOf(cases))
  }

  /** One run of a case: numbered through the plan and through the case, at its target, for the budget of one run. */
  ghost predicate RunOf(c: Case, before: nat, run: nat, targets: seq<Resolved>, s: Step) {
    && s.index == before + run + 1 && s.sequence == run + 1 && s.caseId == c.id && s.kind == c.kind
    && s.target in targets && s.target.name == c.target
    && s.budget == Budget(if c.kind == Call then 1 else 0, c.packets, c.bytes, c.duration)
    && s.generated == c.generated
  }

  ghost predicate StepsRun(cases: seq<Case>, targets: seq<Resolved>, steps: seq<Step>) {
    && |steps| == StepsIn(cases)
    && forall k, run :: 0 <= k < |cases| && 0 <= run < cases[k].count ==> RunAt(cases, k, run, targets, steps)
  }

  ghost predicate RunAt(cases: seq<Case>, k: nat, run: nat, targets: seq<Resolved>, steps: seq<Step>)
    requires k < |cases|
  {
    var at := StepsIn(cases[..k]) + run;
    at < |steps| && RunOf(cases[k], StepsIn(cases[..k]), run, targets, steps[at])
  }

  ghost predicate Tallied(cases: seq<Case>, targets: seq<Resolved>, tally: Tally) {
    && tally.count == StepsIn(cases) && tally.totals == CostOf(cases) && StepsRun(cases, targets, tally.steps)
    && forall id :: id in tally.seen <==> exists i :: 0 <= i < |cases| && cases[i].id == id
  }

  ghost predicate ResolvedDiffer(targets: seq<Resolved>) {
    forall i, j :: 0 <= i < j < |targets| ==> targets[i].name != targets[j].name
  }

  lemma {:induction false} Found(targets: seq<Resolved>, name: string)
    requires ResolvedDiffer(targets)
    ensures FindTarget(targets, name).None? <==> forall t :: t in targets ==> t.name != name
    ensures forall t :: t in targets && t.name == name ==> FindTarget(targets, name) == Some(t)
    ensures FindTarget(targets, name).Some? ==>
              FindTarget(targets, name).value in targets && FindTarget(targets, name).value.name == name
  {
    if targets != [] {
      Found(targets[1..], name);
      assert targets == [targets[0]] + targets[1..];
    }
  }

  lemma GeneratedSame(matrix: Option<Matrix>, g: Generated, target: Resolved)
    requires matrix.Some? ==> WellTyped(matrix.value)
    ensures GeneratedOk(g, matrix, target) <==> GeneratedFits(matrix, g, target)
  {
    if matrix.Some? {
      NoneViolated(matrix.value.constraints, g.factors);
      CompletesIsValid(matrix.value, map[], g.factors);
      hide ValidCall, WellTyped, Violated;
    }
  }

  /** A case is added exactly when it fits and is new, and the sums still fit. */
  lemma OneTallied(ceilings: Ceilings, targets: seq<Resolved>, matrix: Option<Matrix>, tally: Tally, c: Case)
    requires ceilings.Keys == COUNTERS && ResolvedDiffer(targets) && (matrix.Some? ==> WellTyped(matrix.value))
    requires tally.count <= MAX_PLAN_STEPS && Fits64(tally.totals)
    ensures var r := AddCase(ceilings, targets, matrix, tally, c);
            var totals := Budget(tally.totals.calls + if c.kind == Call then c.count else 0,
                                 tally.totals.packets + Times(c.count, c.packets),
                                 tally.totals.bytes + Times(c.count, c.bytes),
                                 tally.totals.duration + Times(c.count, c.duration));
            && (r.Ok? <==> && c.id !in tally.seen && CaseFits(c, matrix, targets) && Fits64(totals)
                           && tally.count + c.count <= ceilings[Packets] && tally.count + c.count <= 100_000)
            && (r.Ok? ==>
                  && r.value.count == tally.count + c.count && r.value.totals == totals
                  && r.value.seen == tally.seen + {c.id}
                  && exists target :: target in targets && target.name == c.target
                                      && r.value.steps == tally.steps + StepsOf(c, target, |tally.steps| + 1))
  {
    Found(targets, c.target);
    var found := FindTarget(targets, c.target);
    if found.Some? && c.generated.Some? {
      GeneratedSame(matrix, c.generated.value, found.value);
    }
    AimFound(c, matrix, targets);
    TimesChecked(c);
    hide Times, Scale, Countable;
    hide GeneratedOk, GeneratedFits, FindTarget, StepsOf, AimedAt, ResolvedDiffer, WellTyped, Accepted;
  }

  lemma TimesChecked(c: Case)
    ensures Countable(c) <==> 1 <= c.count <= U64_MAX && 1 <= c.packets <= U64_MAX && 1 <= c.bytes <= U64_MAX
                              && 1 <= c.duration <= U64_MAX
    ensures var cost :=
            Budget(if c.kind == Call then c.count else 0, Times(c.count, c.packets), Times(c.count, c.bytes),
                               Times(c.count, c.duration));
            Scale(c.count, PerRun(c)) == if Fits64(cost) then Some(cost) else None
  {
  }

  lemma AimFound(c: Case, matrix: Option<Matrix>, targets: seq<Resolved>)
    requires ResolvedDiffer(targets)
    ensures (exists target :: target in targets && AimedAt(c, matrix, target)) <==>
            && FindTarget(targets, c.target).Some?
            && (c.generated.Some? ==> GeneratedFits(matrix, c.generated.value, FindTarget(targets, c.target).value))
  {
    Found(targets, c.target);
    hide GeneratedFits, FindTarget;
    if FindTarget(targets, c.target).Some? && c.generated.Some?
       && GeneratedFits(matrix, c.generated.value, FindTarget(targets, c.target).value) {
      assert AimedAt(c, matrix, FindTarget(targets, c.target).value);
    } else if FindTarget(targets, c.target).Some? && c.generated.None? {
      assert AimedAt(c, matrix, FindTarget(targets, c.target).value);
    }
  }

  lemma LastFits(packets: nat, matrix: Option<Matrix>, targets: seq<Resolved>, cases: seq<Case>)
    requires cases != []
    ensures var n := |cases| - 1;
            CasesFit(packets, matrix, targets, cases) <==>
            && CasesFit(packets, matrix, targets, cases[..n]) && CaseFits(cases[n], matrix, targets)
            && (forall i :: 0 <= i < n ==> cases[i].id != cases[n].id)
            && StepsIn(cases) <= packets && StepsIn(cases) <= 100_000 && Fits64(CostOf(cases))
  {
    CostGrows(cases);
    LastDiffers(cases);
    LastOfAll(matrix, targets, cases);
    hide CaseFits, CostOf, StepsIn, IdsDiffer, AllFit, Fits64;
  }

  lemma LastOfAll(matrix: Option<Matrix>, targets: seq<Resolved>, cases: seq<Case>)
    requires cases != []
    ensures var n := |cases| - 1;
            AllFit(matrix, targets, cases) <==>
              AllFit(matrix, targets, cases[..n]) && CaseFits(cases[n], matrix, targets)
  {
    hide CaseFits;
  }

  lemma LastDiffers(cases: seq<Case>)
    requires cases != []
    ensures var n := |cases| - 1;
            IdsDiffer(cases) <==> IdsDiffer(cases[..n]) && forall i :: 0 <= i < n ==> cases[i].id != cases[n].id
  {
  }

  lemma CostGrows(cases: seq<Case>)
    requires cases != []
    ensures var n := |cases| - 1;
            StepsIn(cases[..n]) <= StepsIn(cases) && (Fits64(CostOf(cases)) ==> Fits64(CostOf(cases[..n])))
  {
    hide Times;
  }

  lemma RunsKept(cases: seq<Case>, targets: seq<Resolved>, steps: seq<Step>, more: seq<Step>, k: nat, run: nat)
    requires cases != [] && k < |cases| - 1 && RunAt(cases[..|cases| - 1], k, run, targets, steps) && steps <= more
    ensures RunAt(cases, k, run, targets, more)
  {
    assert cases[..|cases| - 1][..k] == cases[..k];
    hide RunOf;
  }

  lemma LastRuns(cases: seq<Case>, targets: seq<Resolved>, steps: seq<Step>, target: Resolved)
    requires cases != [] && StepsRun(cases[..|cases| - 1], targets, steps)
    requires target in targets && target.name == cases[|cases| - 1].target
    ensures StepsRun(cases, targets, steps + StepsOf(cases[|cases| - 1], target, |steps| + 1))
  {
    var n := |cases| - 1;
    var added := StepsOf(cases[n], target, |steps| + 1);
    var all := steps + added;
    forall k, run | 0 <= k < |cases| && 0 <= run < cases[k].count ensures RunAt(cases, k, run, targets, all) {
      if k < n {
        RunsKept(cases, targets, steps, all, k, run);
      } else {
        assert all[|steps| + run] == added[run];
      }
    }
  }

  lemma {:induction false} CasesSo(ceilings: Ceilings, targets: seq<Resolved>, matrix: Option<Matrix>, cases: seq<Case>)
    requires ceilings.Keys == COUNTERS && ResolvedDiffer(targets) && (matrix.Some? ==> WellTyped(matrix.value))
    ensures AddCases(ceilings, targets, matrix, cases).Ok? <==> CasesFit(ceilings[Packets], matrix, targets, cases)
    ensures AddCases(ceilings, targets, matrix, cases).Ok? ==>
              Tallied(cases, targets, AddCases(ceilings, targets, matrix, cases).value)
  {
    hide AddCase, CaseFits, StepsRun, ResolvedDiffer, WellTyped;
    if cases == [] {
      NoCases(ceilings[Packets], matrix, targets);
    } else {
      var n := |cases| - 1;
      CasesSo(ceilings, targets, matrix, cases[..n]);
      LastFits(ceilings[Packets], matrix, targets, cases);
      var before := AddCases(ceilings, targets, matrix, cases[..n]);
      if before.Ok? {
        OneTallied(ceilings, targets, matrix, before.value, cases[n]);
        IdsSeen(cases, targets, before.value);
        var r := AddCase(ceilings, targets, matrix, before.value, cases[n]);
        if r.Ok? {
          hide CasesFit;
          var target :| target in targets && target.name == cases[n].target
                        && r.value.steps
                           == before.value.steps + StepsOf(cases[n], target, |before.value.steps| + 1);
          LastRuns(cases, targets, before.value.steps, target);
        }
      }
    }
  }

  lemma IdsSeen(cases: seq<Case>, targets: seq<Resolved>, before: Tally)
    requires cases != [] && Tallied(cases[..|cases| - 1], targets, before)
    ensures var n := |cases| - 1;
            && (cases[n].id in before.seen <==> exists i :: 0 <= i < n && cases[i].id == cases[n].id)
            && forall id :: id in before.seen + {cases[n].id} <==> exists i :: 0 <= i < |cases| && cases[i].id == id
  {
    hide StepsRun;
    var n := |cases| - 1;
    var front := cases[..n];
    assert forall i :: 0 <= i < n ==> front[i] == cases[i];
    forall id ensures id in before.seen + {cases[n].id} <==> exists i :: 0 <= i < |cases| && cases[i].id == id {
      if id in before.seen {
        var i :| 0 <= i < |front| && front[i].id == id;
        assert cases[i].id == id;
      }
      if id == cases[n].id {
        assert 0 <= n < |cases|;
      }
    }
  }

  lemma NoCases(packets: nat, matrix: Option<Matrix>, targets: seq<Resolved>)
    ensures CasesFit(packets, matrix, targets, []) && Tallied([], targets, NOTHING)
  {
  }

  lemma {:induction false} WhichCase(cases: seq<Case>, at: nat) returns (k: nat, run: nat)
    requires at < StepsIn(cases)
    ensures k < |cases| && run < cases[k].count && at == StepsIn(cases[..k]) + run
  {
    var n := |cases| - 1;
    if at < StepsIn(cases[..n]) {
      k, run := WhichCase(cases[..n], at);
      assert cases[..n][..k] == cases[..k];
    } else {
      k, run := n, at - StepsIn(cases[..n]);
    }
  }

  lemma StepsUnique(cases: seq<Case>, targets: seq<Resolved>, a: seq<Step>, b: seq<Step>)
    requires ResolvedDiffer(targets) && StepsRun(cases, targets, a) && StepsRun(cases, targets, b)
    ensures a == b
  {
    forall at | 0 <= at < |a| ensures a[at] == b[at] {
      var k, run := WhichCase(cases, at);
      assert RunAt(cases, k, run, targets, a) && RunAt(cases, k, run, targets, b);
    }
  }

  // ----- the whole plan

  /** The ceilings of the plan: lowered where a reduction says so, and never raised. */
  ghost predicate LoweredBy(source: Ceilings, reductions: Reductions, ceilings: Ceilings) {
    && ceilings.Keys == source.Keys
    && (forall k :: k in reductions && reductions[k].Some? ==>
          k in source && 1 <= reductions[k].value <= source[k] && reductions[k].value <= U64_MAX)
    && forall k :: k in source ==>
         ceilings[k] == if k in reductions && reductions[k].Some? then reductions[k].value else source[k]
  }

  /** The matrix asks only for authorized transports, and validation accepts it. */
  ghost predicate MatrixFits(m: Manifest) {
    m.matrix.Some? ==>
      && Accepted(m.matrix.value)
      && forall d, v :: d in m.matrix.value.domains && d.factor == "transport" && v in d.values ==>
           v.Text? && v.text in m.transports
  }

  /** Everything a compiled plan is, in terms of its manifest. */
  ghost predicate PlanMeets(m: Manifest, digest: string, resolver: Resolver, reductions: Reductions, plan: Plan) {
    && MatrixFits(m) && plan.name == m.name && plan.digest == digest
    && LoweredBy(m.ceilings, reductions, plan.ceilings) && plan.ceilings.Keys == COUNTERS
    && TargetsGranted(m, resolver, m.targets, plan.targets) && PinsKept(m.targets, plan.targets, plan.pins)
    && CasesFit(plan.ceilings[Packets], m.matrix, plan.targets, m.cases)
    && StepsRun(m.cases, plan.targets, plan.steps) && plan.totals == CostOf(m.cases)
    && plan.totals.calls <= plan.ceilings[Calls] && plan.totals.packets <= plan.ceilings[Packets]
    && plan.totals.bytes <= plan.ceilings[Bytes] && plan.totals.duration <= plan.ceilings[DurationSeconds]
  }

  lemma Reduced(source: Ceilings, reductions: Reductions, ceilings: Ceilings)
    ensures ApplyReductions(source, reductions) == Ok(ceilings) <==> LoweredBy(source, reductions, ceilings)
  {
    if LoweredBy(source, reductions, ceilings) {
      assert Lowers(source, reductions);
      assert ApplyReductions(source, reductions).value == ceilings;
    }
  }

  lemma MatrixSame(m: Manifest)
    ensures MatrixFits(m) <==> MatrixAuthorized(m) && (m.matrix.Some? ==> Accepted(m.matrix.value))
  {
    hide Accepted;
    if m.matrix.Some? && MatrixAuthorized(m) {
      var domains := m.matrix.value.domains;
      forall d, v | d in domains && d.factor == "transport" && v in d.values ensures v.Text? && v.text in m.transports {
        var i :| 0 <= i < |domains| && domains[i] == d;
        var k :| 0 <= k < |d.values| && d.values[k] == v;
        assert domains[i].values[k] == v;
      }
    }
  }

  lemma GrantedDiffer(m: Manifest, resolver: Resolver, targets: seq<Target>, resolved: seq<Resolved>)
    requires TargetsGranted(m, resolver, targets, resolved)
    ensures ResolvedDiffer(resolved)
  {
    hide Answered;
    forall i, j | 0 <= i < j < |resolved| ensures resolved[i].name != resolved[j].name {
      assert Granted(m, targets[i], resolved[i]) && Granted(m, targets[j], resolved[j]);
    }
  }

  lemma PlanIsMet(m: Manifest, digest: string, resolver: Resolver, reductions: Reductions)
    requires Authorized(m.ceilings) && (m.matrix.Some? ==> WellTyped(m.matrix.value))
    requires PlanOf(m, digest, resolver, reductions).Ok?
    ensures PlanMeets(m, digest, resolver, reductions, PlanOf(m, digest, resolver, reductions).value)
  {
    var plan := PlanOf(m, digest, resolver, reductions).value;
    MatrixSame(m);
    Reduced(m.ceilings, reductions, plan.ceilings);
    ResolvedExactly(m, resolver, m.targets, Network(plan.targets, plan.pins));
    GrantedDiffer(m, resolver, m.targets, plan.targets);
    CasesSo(plan.ceilings, plan.targets, m.matrix, m.cases);
    hide MatrixFits, MatrixAuthorized, Accepted, ApplyReductions, ResolveAll, AddCases, TargetsGranted, PinsKept,
      CasesFit,
      StepsRun, CostOf, WellTyped, ResolvedDiffer;
  }

  lemma MetIsPlanned(m: Manifest, digest: string, resolver: Resolver, reductions: Reductions, plan: Plan)
    requires Authorized(m.ceilings) && (m.matrix.Some? ==> WellTyped(m.matrix.value))
    requires PlanMeets(m, digest, resolver, reductions, plan)
    ensures PlanOf(m, digest, resolver, reductions) == Ok(plan)
  {
    MatrixSame(m);
    Reduced(m.ceilings, reductions, plan.ceilings);
    ResolvedExactly(m, resolver, m.targets, Network(plan.targets, plan.pins));
    GrantedDiffer(m, resolver, m.targets, plan.targets);
    CasesSo(plan.ceilings, plan.targets, m.matrix, m.cases);
    StepsUnique(m.cases, plan.targets, plan.steps,
                AddCases(plan.ceilings, plan.targets, m.matrix, m.cases).value.steps);
    hide MatrixFits, MatrixAuthorized, Accepted, ApplyReductions, ResolveAll, AddCases, TargetsGranted, PinsKept,
      CasesFit,
      StepsRun, CostOf, WellTyped, ResolvedDiffer;
  }

  /**
   The compiler gives exactly the plans that meet their manifest, and at most one. So every destination of a plan is
   approved, every step aims at one, and every refusal has a cause in the manifest, the resolver or the reductions.
   */
  lemma CompiledExactly(m: Manifest, digest: string, resolver: Resolver, reductions: Reductions, plan: Plan)
    requires Authorized(m.ceilings) && (m.matrix.Some? ==> WellTyped(m.matrix.value))
    ensures PlanOf(m, digest, resolver, reductions) == Ok(plan) <==> PlanMeets(m, digest, resolver, reductions, plan)
  {
    hide PlanOf, PlanMeets;
    if PlanOf(m, digest, resolver, reductions) == Ok(plan) {
      PlanIsMet(m, digest, resolver, reductions);
    }
    if PlanMeets(m, digest, resolver, reductions, plan) {
      MetIsPlanned(m, digest, resolver, reductions, plan);
    }
  }

  lemma {:induction false} UnitSteps(cases: seq<Case>, k: nat)
    requires k <= |cases| && forall i :: 0 <= i < |cases| ==> cases[i].count == 1
    ensures StepsIn(cases[..k]) == k
  {
    if k > 0 {
      UnitSteps(cases, k - 1);
      assert cases[..k][..k - 1] == cases[..k - 1];
    }
  }

  /** Every step aims at a target its case fits. */
  lemma StepAims(m: Manifest, digest: string, resolver: Resolver, reductions: Reductions, plan: Plan, k: nat, run: nat)
    requires PlanMeets(m, digest, resolver, reductions, plan) && k < |m.cases| && run < m.cases[k].count
    ensures var before := StepsIn(m.cases[..k]);
            && before + run < |plan.steps| && RunOf(m.cases[k], before, run, plan.targets, plan.steps[before + run])
            && AimedAt(m.cases[k], m.matrix, plan.steps[before + run].target)
  {
    GrantedDiffer(m, resolver, m.targets, plan.targets);
    hide MatrixFits, LoweredBy, TargetsGranted, PinsKept, GeneratedFits, CostOf, StepsIn;
    assert RunAt(m.cases, k, run, plan.targets, plan.steps);
    assert CaseFits(m.cases[k], m.matrix, plan.targets);
    var target :| target in plan.targets && AimedAt(m.cases[k], m.matrix, target);
    assert target == plan.steps[StepsIn(m.cases[..k]) + run].target;
  }

  /** With one run a case, step k is the run of case k. */
  lemma UnitRun(m: Manifest, digest: string, resolver: Resolver, reductions: Reductions, plan: Plan, k: nat)
    requires Authorized(m.ceilings) && (m.matrix.Some? ==> WellTyped(m.matrix.value))
    requires PlanOf(m, digest, resolver, reductions) == Ok(plan) && k < |m.cases|
    requires forall i :: 0 <= i < |m.cases| ==> m.cases[i].count == 1
    ensures k < |plan.steps| && RunOf(m.cases[k], k, 0, plan.targets, plan.steps[k])
    ensures AimedAt(m.cases[k], m.matrix, plan.steps[k].target)
  {
    hide PlanOf, PlanMeets, WellTyped, RunOf, AimedAt, Authorized;
    PlanIsMet(m, digest, resolver, reductions);
    UnitSteps(m.cases, k);
    StepAims(m, digest, resolver, reductions, plan, k, 0);
  }
}
