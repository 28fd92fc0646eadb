/** Compiling a campaign manifest into a frozen plan, and verifying a frozen plan by recompilation. */
module CampaignPlan {
  import opened Prelude
  import opened Sorting
  import opened Subsequences
  import opened Constraints
  import opened ActionTraces

  const MAX_PLAN_STEPS: nat := 100_000

  datatype Counter = Calls | Packets | Bytes | DurationSeconds | ConcurrentCalls | PacketsPerSecond | CallsPerSecond

  const COUNTERS: set<Counter> :=
    {Calls, Packets, Bytes, DurationSeconds, ConcurrentCalls, PacketsPerSecond, CallsPerSecond}

  type Ceilings = map<Counter, nat>

  type Reductions = map<Counter, Option<int>>

  datatype Address = Address(version: nat, number: nat)

  datatype Host = Literal(address: Address) | Name(name: string)

  datatype Target = Target(name: string, host: Host, transport: string, port: nat, credential: Option<string>)

  datatype CaseKind = Options | Call

  datatype Budget = Budget(calls: nat, packets: nat, bytes: nat, duration: nat)

  datatype Generated = Generated(row: nat, sequence: nat, factors: Assignment, actions: Trace)

  datatype Case = Case(id: string, kind: CaseKind, target: string, count: nat,
                       packets: nat, bytes: nat, duration: nat, generated: Option<Generated>)

  /** The reviewed manifest, field types already checked; `approved` is network membership. */
  datatype Manifest = Manifest(
    name: string,
    approved: Address -> bool,
    transports: set<string>,
    ports: set<nat>,
    credentials: set<string>,
    ceilings: Ceilings,
    targets: seq<Target>,
    cases: seq<Case>,
    matrix: Option<Matrix>)

  datatype Resolved = Resolved(name: string, addresses: seq<Address>, transport: string, port: nat,
                               credential: Option<string>)

  datatype Step = Step(index: nat, caseId: string, sequence: nat, kind: CaseKind, target: Resolved,
                       budget: Budget, generated: Option<Generated>)

  datatype Plan = Plan(
    name: string,
    digest: string,
    ceilings: Ceilings,
    targets: seq<Resolved>,
    pins: map<string, seq<Address>>,
    totals: Budget,
    steps: seq<Step>)

  datatype PlanError = UnauthorizedMatrix | MatrixRefused | BadReduction | BadTarget | Unresolved | BadCase
                     | TooManySteps | Overflow
                     | OverCeiling
                     | DigestDiffers | PlanDiffers

  type Resolver = string -> Result<seq<Address>, PlanError>

  // ----- lowering the ceilings

  predicate Authorized(c: Ceilings) {
    c.Keys == COUNTERS && forall k :: k in c ==> 1 <= c[k] <= U64_MAX
  }

  predicate Lowers(c: Ceilings, r: Reductions) {
    forall k :: k in r && r[k].Some? ==> k in c && 1 <= r[k].value <= c[k] && r[k].value <= U64_MAX
  }

  function ApplyReductions(c: Ceilings, r: Reductions): Result<Ceilings, PlanError> {
    if !Lowers(c, r) then Err(BadReduction)
    else Ok(map k | k in c :: if k in r && r[k].Some? then r[k].value else c[k])
  }

  function AsReductions(c: Ceilings): Reductions {
    map k | k in c :: Some(c[k] as int)
  }

  /** Lowering to values already lowered changes nothing more; lowering never raises. */
  lemma ReductionsSettle(c: Ceilings, r: Reductions)
    requires Authorized(c) && ApplyReductions(c, r).Ok?
    ensures var low := ApplyReductions(c, r).value;
            && Authorized(low)
            && (forall k :: k in c ==> low[k] <= c[k])
            && ApplyReductions(c, AsReductions(low)) == Ok(low)
  {
    var low := ApplyReductions(c, r).value;
    assert Lowers(c, AsReductions(low));
    assert ApplyReductions(c, AsReductions(low)).value == low;
  }

  // ----- targets

  predicate AddressLe(x: Address, y: Address) {
    x.version < y.version || (x.version == y.version && x.number <= y.number)
  }

  function Dedup<T(==)>(s: seq<T>): seq<T> {
    if s == [] then []
    else if s[0] in s[1..] then Dedup(s[1..])
    else [s[0]] + Dedup(s[1..])
  }

  lemma {:induction false} DedupDistinct<T>(s: seq<T>)
    ensures Distinct(Dedup(s))
    ensures forall x :: x in Dedup(s) <==> x in s
  {
    if s != [] {
      DedupDistinct(s[1..]);
      assert s == [s[0]] + s[1..];
    }
  }

  lemma {:induction false} DedupFixed<T>(s: seq<T>)
    requires Distinct(s)
    ensures Dedup(s) == s
  {
    if s != [] {
      DedupFixed(s[1..]);
      assert s[0] !in s[1..];
    }
  }

  /** The distinct answers in address order. */
  function Answers(raw: seq<Address>): seq<Address> {
    Sort(AddressLe, Dedup(raw))
  }

  lemma AnswersSettle(raw: seq<Address>)
    ensures Answers(Answers(raw)) == Answers(raw)
    ensures forall a :: a in Answers(raw) <==> a in raw
  {
    var once := Dedup(raw);
    DedupDistinct(raw);
    SortMembers(AddressLe, once);
    SortPermutes(AddressLe, once);
    SortSorted(AddressLe, once);
    PermutedDistinct(once, Sort(AddressLe, once));
    DedupFixed(Sort(AddressLe, once));
    SortFixed(AddressLe, Sort(AddressLe, once));
  }

  lemma {:induction false} CountAtMostOnce<T>(s: seq<T>, x: T)
    requires Distinct(s)
    ensures multiset(s)[x] <= 1
  {
    if s != [] {
      CountAtMostOnce(s[1..], x);
      assert s == [s[0]] + s[1..];
      assert s[0] !in s[1..];
    }
  }

  lemma PermutedDistinct<T>(a: seq<T>, b: seq<T>)
    requires Distinct(a) && multiset(a) == multiset(b)
    ensures Distinct(b)
  {
    forall i, j | 0 <= i < j < |b| ensures b[i] != b[j] {
      CountAtMostOnce(a, b[i]);
      if b[i] == b[j] {
        TwiceCounts(b, i, j);
      }
    }
  }

  datatype Network = Network(targets: seq<Resolved>, pins: map<string, seq<Address>>)

  function Lookup(resolver: Resolver, host: Host): Result<seq<Address>, PlanError> {
    match host
    case Literal(address) => Ok([address])
    case Name(name) =>
      match resolver(name)
      case Ok(raw) => Ok(Answers(raw))
      case Err(e) => Err(e)
  }

  function ResolveOne(m: Manifest, resolver: Resolver, net: Network, t: Target): Result<Network, PlanError> {
    if exists i :: 0 <= i < |net.targets| && net.targets[i].name == t.name then Err(BadTarget)
    else
      match Lookup(resolver, t.host)
      case Err(e) => Err(e)
      case Ok(addresses) =>
        if addresses == [] then Err(Unresolved)
        else if exists i :: 0 <= i < |addresses| && !m.approved(addresses[i]) then Err(BadTarget)
        else if t.transport !in m.transports || t.port !in m.ports then Err(BadTarget)
        else if t.credential.Some? && t.credential.value !in m.credentials then Err(BadTarget)
        else Ok(Network(
                  net.targets + [Resolved(t.name, addresses, t.transport, t.port, t.credential)],
                  if t.host.Name? then net.pins[t.host.name := addresses] else net.pins))
  }

  function ResolveAll(m: Manifest, resolver: Resolver, targets: seq<Target>): Result<Network, PlanError> {
    if targets == [] then Ok(Network([], map[]))
    else
      match ResolveAll(m, resolver, targets[..|targets| - 1])
      case Err(e) => Err(e)
      case Ok(net) => ResolveOne(m, resolver, net, targets[|targets| - 1])
  }

  method ResolveTargets(m: Manifest, resolver: Resolver) returns (r: Result<Network, PlanError>)
    ensures r == ResolveAll(m, resolver, m.targets)
  {
    var net := Network([], map[]);
    for i := 0 to |m.targets|
      invariant ResolveAll(m, resolver, m.targets[..i]) == Ok(net)
    {
      assert m.targets[..i + 1][..i] == m.targets[..i];
      var next := ResolveOne(m, resolver, net, m.targets[i]);
      if next.Err? {
        FailedPrefix(m, resolver, m.targets, i + 1);
        return next;
      }
      net := next.value;
    }
    assert m.targets[..|m.targets|] == m.targets;
    r := Ok(net);
  }

  lemma {:induction false} FailedPrefix(m: Manifest, resolver: Resolver, targets: seq<Target>, n: nat)
    requires n <= |targets| && ResolveAll(m, resolver, targets[..n]).Err?
    ensures ResolveAll(m, resolver, targets) == ResolveAll(m, resolver, targets[..n])
    decreases |targets|
  {
    if n == |targets| {
      assert targets[..n] == targets;
    } else {
      var front := targets[..|targets| - 1];
      assert front[..n] == targets[..n];
      FailedPrefix(m, resolver, front, n);
    }
  }

  /** A resolver that answers only from recorded pins. */
  function PinResolver(pins: map<string, seq<Address>>): Resolver {
    host => if host in pins && pins[host] != [] then Ok(pins[host]) else Err(Unresolved)
  }

  /** What the first resolution recorded. */
  ghost predicate PinsFrom(resolver: Resolver, pins: map<string, seq<Address>>) {
    forall host :: host in pins ==>
      resolver(host).Ok? && pins[host] == Answers(resolver(host).value) && pins[host] != []
  }

  lemma {:induction false} PinsRecorded(m: Manifest, resolver: Resolver, targets: seq<Target>)
    requires ResolveAll(m, resolver, targets).Ok?
    ensures PinsFrom(resolver, ResolveAll(m, resolver, targets).value.pins)
    ensures forall t :: t in targets && t.host.Name? ==> t.host.name in ResolveAll(m, resolver, targets).value.pins
  {
    if targets != [] {
      var n := |targets| - 1;
      PinsRecorded(m, resolver, targets[..n]);
      assert targets == targets[..n] + [targets[n]];
    }
  }

  /** Resolving again from any pins that agree with the first resolution gives the same network. */
  lemma {:induction false} PinsReplay(m: Manifest, resolver: Resolver, pins: map<string, seq<Address>>,
                                      targets: seq<Target>)
    requires PinsFrom(resolver, pins)
    requires forall t :: t in targets && t.host.Name? ==> t.host.name in pins
    ensures ResolveAll(m, PinResolver(pins), targets) == ResolveAll(m, resolver, targets)
  {
    if targets != [] {
      var n := |targets| - 1;
      PinsReplay(m, resolver, pins, targets[..n]);
      var t := targets[n];
      assert t in targets;
      assert Lookup(PinResolver(pins), t.host) == Lookup(resolver, t.host) by {
        if t.host.Name? {
          AnswersSettle(resolver(t.host.name).value);
          assert PinResolver(pins)(t.host.name) == Ok(pins[t.host.name]);
        }
      }
    }
  }

  // ----- cases

  datatype Tally = Tally(count: nat, totals: Budget, steps: seq<Step>, seen: set<string>)

  const NOTHING: Tally := Tally(0, Budget(0, 0, 0, 0), [], {})

  function PerRun(c: Case): Budget {
    Budget(if c.kind == Call then 1 else 0, c.packets, c.bytes, c.duration)
  }

  function Scale(count: nat, b: Budget): Option<Budget> {
    match (CheckedMul(count, b.calls), CheckedMul(count, b.packets), CheckedMul(count, b.bytes),
           CheckedMul(count, b.duration))
    case (Some(calls), Some(packets), Some(bytes), Some(duration)) => Some(Budget(calls, packets, bytes, duration))
    case _ => None
  }

  function Add(a: Budget, b: Budget): Option<Budget> {
    if b.calls > U64_MAX || b.packets > U64_MAX || b.bytes > U64_MAX || b.duration > U64_MAX then None
    else
      match (CheckedAdd(a.calls, b.calls), CheckedAdd(a.packets, b.packets), CheckedAdd(a.bytes, b.bytes),
             CheckedAdd(a.duration, b.duration))
      case (Some(calls), Some(packets), Some(bytes), Some(duration)) => Some(Budget(calls, packets, bytes, duration))
      case _ => None
  }

  predicate Within(b: Budget, c: Ceilings)
    requires c.Keys == COUNTERS
  {
    b.calls <= c[Calls] && b.packets <= c[Packets] && b.bytes <= c[Bytes] && b.duration <= c[DurationSeconds]
  }

  function FindTarget(targets: seq<Resolved>, name: string): Option<Resolved> {
    if targets == [] then None
    else if targets[0].name == name then Some(targets[0])
    else FindTarget(targets[1..], name)
  }

  function Family(a: Address): Scalar {
    Text(if a.version == 4 then "ipv4" else "ipv6")
  }

  /** A generated case must be a valid row and a valid call, and fit the target it runs against. */
  ghost predicate GeneratedOk(g: Generated, matrix: Option<Matrix>, target: Resolved) {
    && matrix.Some?
    && g.factors.Keys == Factors(matrix.value.domains)
    && (forall d :: d in matrix.value.domains ==> g.factors[d.factor] in d.values)
    && Violated(matrix.value.constraints, g.factors) == []
    && ValidCall(g.actions)
    && "transport" in g.factors && g.factors["transport"] == Text(target.transport)
    && "addressFamily" in g.factors
    && forall a :: a in target.addresses ==> Family(a) == g.factors["addressFamily"]
  }

  function StepsOf(c: Case, target: Resolved, first: nat): (steps: seq<Step>)
    ensures |steps| == c.count
    ensures forall i :: 0 <= i < |steps| ==>
              && steps[i].index == first + i && steps[i].sequence == i + 1
              && steps[i].caseId == c.id && steps[i].target == target && steps[i].budget == PerRun(c)
  {
    seq(c.count, i requires 0 <= i < c.count => Step(first + i, c.id, i + 1, c.kind, target, PerRun(c), c.generated))
  }

  predicate Countable(c: Case) {
    && 1 <= c.count <= U64_MAX && 1 <= c.packets <= U64_MAX && 1 <= c.bytes <= U64_MAX && 1 <= c.duration <= U64_MAX
  }

  ghost function AddCase(ceilings: Ceilings, targets: seq<Resolved>, matrix: Option<Matrix>, tally: Tally, c: Case)
    : Result<Tally, PlanError>
    requires ceilings.Keys == COUNTERS
  {
    if c.id in tally.seen || FindTarget(targets, c.target).None? || !Countable(c) then Err(BadCase)
    else
      var target := FindTarget(targets, c.target).value;
      match CheckedAdd(tally.count, c.count)
      case None => Err(Overflow)
      case Some(count) =>
        if count > ceilings[Packets] || count > MAX_PLAN_STEPS then Err(TooManySteps)
        else
          match Scale(c.count, PerRun(c))
          case None => Err(Overflow)
          case Some(share) =>
            match Add(tally.totals, share)
            case None => Err(Overflow)
            case Some(totals) =>
              if c.generated.Some? && !GeneratedOk(c.generated.value, matrix, target) then Err(BadCase)
              else Ok(Tally(count, totals, tally.steps + StepsOf(c, target, |tally.steps| + 1), tally.seen + {c.id}))
  }

  ghost function AddCases(ceilings: Ceilings, targets: seq<Resolved>, matrix: Option<Matrix>, cases: seq<Case>)
    : Result<Tally, PlanError>
    requires ceilings.Keys == COUNTERS
  {
    if cases == [] then Ok(NOTHING)
    else
      match AddCases(ceilings, targets, matrix, cases[..|cases| - 1])
      case Err(e) => Err(e)
      case Ok(tally) => AddCase(ceilings, targets, matrix, tally, cases[|cases| - 1])
  }

  method CheckGenerated(g: Generated, matrix: Option<Matrix>, target: Resolved) returns (ok: bool)
    ensures ok <==> GeneratedOk(g, matrix, target)
  {
    if matrix.None? || Violated(matrix.value.constraints, g.factors) != [] {
      return false;
    }
    var domains := matrix.value.domains;
    if g.factors.Keys != (set i | 0 <= i < |domains| :: domains[i].factor) {
      return false;
    }
    for i := 0 to |domains|
      invariant forall k :: 0 <= k < i ==>
                    domains[k].factor in g.factors && g.factors[domains[k].factor] in domains[k].values
    {
      assert domains[i].factor in Factors(domains);
      if g.factors[domains[i].factor] !in domains[i].values {
        assert domains[i] in domains;
        return false;
      }
    }
    var valid := CheckGeneratedActions(g.actions);
    ok := valid
      && "transport" in g.factors && g.factors["transport"] == Text(target.transport)
      && "addressFamily" in g.factors
      && forall i :: 0 <= i < |target.addresses| ==> Family(target.addresses[i]) == g.factors["addressFamily"];
  }

  /** One step for each run of a case. */
  method AppendSteps(before: seq<Step>, c: Case, target: Resolved) returns (steps: seq<Step>)
    requires Countable(c)
    ensures steps == before + StepsOf(c, target, |before| + 1)
  {
    steps := before;
    ghost var all := StepsOf(c, target, |before| + 1);
    for run := 0 to c.count
      invariant steps == before + all[..run]
    {
      steps := steps + [Step(|steps| + 1, c.id, run + 1, c.kind, target, PerRun(c), c.generated)];
      assert all[..run + 1] == all[..run] + [all[run]];
    }
    assert all[..c.count] == all;
  }

  /** The accumulation loop: totals and steps grow case by case, run by run. */
  method Accumulate(ceilings: Ceilings, targets: seq<Resolved>, matrix: Option<Matrix>, cases: seq<Case>)
    returns (r: Result<Tally, PlanError>)
    requires ceilings.Keys == COUNTERS
    ensures r == AddCases(ceilings, targets, matrix, cases)
  {
    hide GeneratedOk, StepsOf;
    var count: nat, totals, steps: seq<Step>, seen: set<string> := 0, Budget(0, 0, 0, 0), [], {};
    for i := 0 to |cases|
      invariant AddCases(ceilings, targets, matrix, cases[..i]) == Ok(Tally(count, totals, steps, seen))
    {
      var c := cases[i];
      assert cases[..i + 1][..i] == cases[..i];
      ghost var next := AddCase(ceilings, targets, matrix, Tally(count, totals, steps, seen), c);
      if next.Err? {
        FailedCases(ceilings, targets, matrix, cases, i + 1);
      }
      var found := FindTarget(targets, c.target);
      if c.id in seen || found.None? || !Countable(c) {
        return Err(BadCase);
      }
      var counted := CheckedAdd(count, c.count);
      if counted.None? {
        return Err(Overflow);
      }
      if counted.value > ceilings[Packets] || counted.value > MAX_PLAN_STEPS {
        return Err(TooManySteps);
      }
      var share := Scale(c.count, PerRun(c));
      if share.None? {
        return Err(Overflow);
      }
      var sum := Add(totals, share.value);
      if sum.None? {
        return Err(Overflow);
      }
      if c.generated.Some? {
        var ok := CheckGenerated(c.generated.value, matrix, found.value);
        if !ok {
          return Err(BadCase);
        }
      }
      count, totals, seen := counted.value, sum.value, seen + {c.id};
      steps := AppendSteps(steps, c, found.value);
    }
    assert cases[..|cases|] == cases;
    r := Ok(Tally(count, totals, steps, seen));
  }

  lemma {:induction false} FailedCases(ceilings: Ceilings, targets: seq<Resolved>, matrix: Option<Matrix>,
                                       cases: seq<Case>, n: nat)
    requires ceilings.Keys == COUNTERS && n <= |cases| && AddCases(ceilings, targets, matrix, cases[..n]).Err?
    ensures AddCases(ceilings, targets, matrix, cases) == AddCases(ceilings, targets, matrix, cases[..n])
    decreases |cases|
  {
    hide AddCase;
    if n == |cases| {
      assert cases[..n] == cases;
    } else {
      var front := cases[..|cases| - 1];
      assert front[..n] == cases[..n];
      FailedCases(ceilings, targets, matrix, front, n);
    }
  }

  // ----- what the totals mean

  ghost function Sum(steps: seq<Step>, field: Budget -> nat): nat {
    if steps == [] then 0 else Sum(steps[..|steps| - 1], field) + field(steps[|steps| - 1].budget)
  }

  lemma {:induction false} SumAppend(a: seq<Step>, b: seq<Step>, field: Budget -> nat)
    ensures Sum(a + b, field) == Sum(a, field) + Sum(b, field)
  {
    if b == [] {
      assert a + b == a;
    } else {
      var n := |b| - 1;
      assert (a + b)[..|a + b| - 1] == a + b[..n];
      SumAppend(a, b[..n], field);
    }
  }

  lemma {:induction false} SumConstant(steps: seq<Step>, field: Budget -> nat, each: nat)
    requires forall i :: 0 <= i < |steps| ==> field(steps[i].budget) == each
    ensures Sum(steps, field) == |steps| * each
  {
    if steps != [] {
      SumConstant(steps[..|steps| - 1], field, each);
    }
  }

  ghost predicate Accounted(tally: Tally) {
    && tally.count == |tally.steps| <= MAX_PLAN_STEPS
    && tally.totals.calls == Sum(tally.steps, (b: Budget) => b.calls)
    && tally.totals.packets == Sum(tally.steps, (b: Budget) => b.packets)
    && tally.totals.bytes == Sum(tally.steps, (b: Budget) => b.bytes)
    && tally.totals.duration == Sum(tally.steps, (b: Budget) => b.duration)
    && forall i :: 0 <= i < |tally.steps| ==> tally.steps[i].index == i + 1
  }

  lemma ShareIsSum(c: Case, target: Resolved, steps: seq<Step>, field: Budget -> nat)
    ensures Sum(steps + StepsOf(c, target, |steps| + 1), field) == Sum(steps, field) + c.count * field(PerRun(c))
  {
    var added := StepsOf(c, target, |steps| + 1);
    SumAppend(steps, added, field);
    SumConstant(added, field, field(PerRun(c)));
  }

  lemma CaseAccounted(ceilings: Ceilings, targets: seq<Resolved>, matrix: Option<Matrix>, tally: Tally, c: Case)
    requires ceilings.Keys == COUNTERS && Accounted(tally)
    requires AddCase(ceilings, targets, matrix, tally, c).Ok?
    ensures Accounted(AddCase(ceilings, targets, matrix, tally, c).value)
  {
    hide GeneratedOk, Sum, Countable;
    var target := FindTarget(targets, c.target).value;
    ShareIsSum(c, target, tally.steps, (b: Budget) => b.calls);
    ShareIsSum(c, target, tally.steps, (b: Budget) => b.packets);
    ShareIsSum(c, target, tally.steps, (b: Budget) => b.bytes);
    ShareIsSum(c, target, tally.steps, (b: Budget) => b.duration);
  }

  /** Totals are the sums of the step budgets, and steps are numbered from one without gaps. */
  lemma {:induction false} TotalsAreSums(ceilings: Ceilings, targets: seq<Resolved>, matrix: Option<Matrix>,
                                         cases: seq<Case>)
    requires ceilings.Keys == COUNTERS && AddCases(ceilings, targets, matrix, cases).Ok?
    ensures Accounted(AddCases(ceilings, targets, matrix, cases).value)
  {
    if cases != [] {
      hide AddCase, Accounted;
      TotalsAreSums(ceilings, targets, matrix, cases[..|cases| - 1]);
      CaseAccounted(ceilings, targets, matrix,
                    AddCases(ceilings, targets, matrix, cases[..|cases| - 1]).value, cases[|cases| - 1]);
    }
  }

  // ----- the compiler

  /** Every transport the matrix may ask for is one the manifest authorizes. */
  predicate MatrixAuthorized(m: Manifest) {
    m.matrix.Some? ==>
      forall i, k :: 0 <= i < |m.matrix.value.domains| && m.matrix.value.domains[i].factor == "transport"
                     && 0 <= k < |m.matrix.value.domains[i].values| ==>
        var value := m.matrix.value.domains[i].values[k];
        value.Text? && value.text in m.transports
  }

  ghost function PlanOf(m: Manifest, digest: string, resolver: Resolver, reductions: Reductions)
    : Result<Plan, PlanError>
    requires Authorized(m.ceilings)
  {
    if !MatrixAuthorized(m) then Err(UnauthorizedMatrix)
    else if m.matrix.Some? && !Accepted(m.matrix.value) then Err(MatrixRefused)
    else
      match ApplyReductions(m.ceilings, reductions)
      case Err(e) => Err(e)
      case Ok(ceilings) =>
        match ResolveAll(m, resolver, m.targets)
        case Err(e) => Err(e)
        case Ok(net) =>
          match AddCases(ceilings, net.targets, m.matrix, m.cases)
          case Err(e) => Err(e)
          case Ok(tally) =>
            if !Within(tally.totals, ceilings) then Err(OverCeiling)
            else Ok(Plan(m.name, digest, ceilings, net.targets, net.pins, tally.totals, tally.steps))
  }

  /**
   Compile a manifest. Every accepted plan stays within the lowered ceilings, has at most the
   step limit and the packet ceiling of steps, and its totals are the sums over its steps.
   */
  method CompilePlan(m: Manifest, digest: string, resolver: Resolver, reductions: Reductions)
    returns (r: Result<Plan, PlanError>)
    requires Authorized(m.ceilings) && (m.matrix.Some? ==> WellTyped(m.matrix.value))
    ensures r == PlanOf(m, digest, resolver, reductions)
    ensures r.Ok? ==> MatrixAuthorized(m) && (m.matrix.Some? ==> Accepted(m.matrix.value))
    ensures r.Ok? ==> Authorized(r.value.ceilings) && Within(r.value.totals, r.value.ceilings)
    ensures r.Ok? ==> forall k :: k in COUNTERS ==> r.value.ceilings[k] <= m.ceilings[k]
    ensures r.Ok? ==> exists seen :: Accounted(Tally(|r.value.steps|, r.value.totals, r.value.steps, seen))
  {
    if !MatrixAuthorized(m) {
      return Err(UnauthorizedMatrix);
    }
    hide Accepted;
    if m.matrix.Some? {
      var valid := ValidateMatrix(m.matrix.value);
      if valid.Err? {
        return Err(MatrixRefused);
      }
    }
    var lowered := ApplyReductions(m.ceilings, reductions);
    if lowered.Err? {
      return Err(lowered.error);
    }
    ReductionsSettle(m.ceilings, reductions);
    var net := ResolveTargets(m, resolver);
    if net.Err? {
      return Err(net.error);
    }
    var tally := Accumulate(lowered.value, net.value.targets, m.matrix, m.cases);
    if tally.Err? {
      return Err(tally.error);
    }
    TotalsAreSums(lowered.value, net.value.targets, m.matrix, m.cases);
    if !Within(tally.value.totals, lowered.value) {
      return Err(OverCeiling);
    }
    r := Ok(Plan(m.name, digest, lowered.value, net.value.targets, net.value.pins, tally.value.totals,
                 tally.value.steps));
    assert Accounted(Tally(|r.value.steps|, r.value.totals, r.value.steps, tally.value.seen));
  }

  // ----- verification by recompilation

  /** Recompile the reviewed manifest under the plan's own pins and maxima and compare. */
  ghost function VerifyFrozenPlan(plan: Plan, m: Manifest, digest: string): Result<Plan, PlanError>
    requires Authorized(m.ceilings)
  {
    if plan.digest != digest then Err(DigestDiffers)
    else
      match PlanOf(m, digest, PinResolver(plan.pins), AsReductions(plan.ceilings))
      case Err(e) => Err(e)
      case Ok(expected) => if expected == plan then Ok(plan) else Err(PlanDiffers)
  }

  /** Whatever the resolver answered and whatever was lowered, the compiler's own plan is accepted. */
  lemma CompiledPlansVerify(m: Manifest, digest: string, resolver: Resolver, reductions: Reductions)
    requires Authorized(m.ceilings) && PlanOf(m, digest, resolver, reductions).Ok?
    ensures var plan := PlanOf(m, digest, resolver, reductions).value;
            VerifyFrozenPlan(plan, m, digest) == Ok(plan)
  {
    hide ResolveAll, AddCases, ApplyReductions;
    var plan := PlanOf(m, digest, resolver, reductions).value;
    ReductionsSettle(m.ceilings, reductions);
    PinsRecorded(m, resolver, m.targets);
    PinsReplay(m, resolver, plan.pins, m.targets);
  }

  /** An accepted plan is a compilation of the manifest, and its maxima never exceed the reviewed ones. */
  lemma VerifiedPlansAreCompiled(plan: Plan, m: Manifest, digest: string)
    requires Authorized(m.ceilings) && VerifyFrozenPlan(plan, m, digest).Ok?
    ensures PlanOf(m, digest, PinResolver(plan.pins), AsReductions(plan.ceilings)) == Ok(plan)
    ensures forall k :: k in COUNTERS ==> k in plan.ceilings && plan.ceilings[k] <= m.ceilings[k]
    ensures Within(plan.totals, plan.ceilings)
  {
  }

  /** A plan is accepted exactly when some resolver and some lowering compile the manifest to it. */
  lemma AcceptedExactly(plan: Plan, m: Manifest, digest: string)
    requires Authorized(m.ceilings)
    ensures VerifyFrozenPlan(plan, m, digest) == Ok(plan) <==>
            exists resolver, reductions :: PlanOf(m, digest, resolver, reductions) == Ok(plan)
  {
    if VerifyFrozenPlan(plan, m, digest) == Ok(plan) {
      VerifiedPlansAreCompiled(plan, m, digest);
    }
    hide PlanOf, VerifyFrozenPlan;
    forall resolver, reductions | PlanOf(m, digest, resolver, reductions) == Ok(plan)
      ensures VerifyFrozenPlan(plan, m, digest) == Ok(plan)
    {
      CompiledPlansVerify(m, digest, resolver, reductions);
    }
  }
}
