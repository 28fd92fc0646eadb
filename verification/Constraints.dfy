/**
 Factor constraints over partial assignments, and the two backtracking searches that
 decide them over one shared, mutated assignment.
 */
module Constraints {
  import opened Prelude
  import opened Sorting
  import opened Subsequences

  type Factor = string

  datatype Scalar = Text(text: string) | Number(number: int)

  type Assignment = map<Factor, Scalar>

  datatype Domain = Domain(factor: Factor, values: seq<Scalar>)

  datatype Clause = Clause(factor: Factor, allowed: seq<Scalar>)

  type Predicate = seq<Clause>

  datatype Constraint =
    | Require(id: string, require: Predicate)
    | Exclude(id: string, exclude: Predicate)
    | Implies(id: string, antecedent: Predicate, consequent: Predicate)

  /** A predicate on a partial assignment is settled one way, the other, or open. */
  datatype Truth = Yes | No | Unknown

  datatype MatrixError =
    | StateLimit
    | Unsatisfiable(core: seq<Constraint>)
    | MandatoryViolates(id: string, violated: seq<string>)
    | TooManyTuples
    | Endless

  const MAX_SAT_STATES: nat := 1_000_000

  // ----- three-valued evaluation

  predicate Refuted(clauses: Predicate, a: Assignment) {
    exists i :: 0 <= i < |clauses| && clauses[i].factor in a && a[clauses[i].factor] !in clauses[i].allowed
  }

  predicate Decided(clauses: Predicate, a: Assignment) {
    forall i :: 0 <= i < |clauses| ==> clauses[i].factor in a
  }

  function StateOf(clauses: Predicate, a: Assignment): Truth {
    if Refuted(clauses, a) then No else if Decided(clauses, a) then Yes else Unknown
  }

  /** The clause-by-clause evaluation, leaving early on the first refuted clause. */
  method PredicateState(clauses: Predicate, a: Assignment) returns (state: Truth)
    ensures state == StateOf(clauses, a)
  {
    var unknown := false;
    for i := 0 to |clauses|
      invariant !Refuted(clauses[..i], a)
      invariant unknown <==> !Decided(clauses[..i], a)
    {
      assert clauses[..i + 1] == clauses[..i] + [clauses[i]];
      if clauses[i].factor !in a {
        unknown := true;
        assert clauses[..i + 1][i].factor !in a;
      } else if a[clauses[i].factor] !in clauses[i].allowed {
        return No;
      } else {
        assert forall j :: 0 <= j < i ==> clauses[..i + 1][j] == clauses[..i][j];
      }
    }
    assert clauses[..|clauses|] == clauses;
    state := if unknown then Unknown else Yes;
  }

  predicate Allows(c: Constraint, a: Assignment) {
    match c
    case Require(_, p) => StateOf(p, a) != No
    case Exclude(_, p) => StateOf(p, a) != Yes
    case Implies(_, p, q) => !(StateOf(p, a) == Yes && StateOf(q, a) == No)
  }

  predicate AllAllow(constraints: seq<Constraint>, a: Assignment) {
    forall i :: 0 <= i < |constraints| ==> Allows(constraints[i], a)
  }

  // ----- what the constraints mean on a finished row

  ghost predicate Holds(clauses: Predicate, a: Assignment) {
    forall clause :: clause in clauses ==> clause.factor in a && a[clause.factor] in clause.allowed
  }

  ghost predicate Meets(c: Constraint, a: Assignment) {
    match c
    case Require(_, p) => Holds(p, a)
    case Exclude(_, p) => !Holds(p, a)
    case Implies(_, p, q) => Holds(p, a) ==> Holds(q, a)
  }

  ghost function Mentions(c: Constraint): set<Factor> {
    match c
    case Require(_, p) => ClauseFactors(p)
    case Exclude(_, p) => ClauseFactors(p)
    case Implies(_, p, q) => ClauseFactors(p) + ClauseFactors(q)
  }

  ghost function ClauseFactors(p: Predicate): set<Factor> {
    set i | 0 <= i < |p| :: p[i].factor
  }

  lemma DecidedState(p: Predicate, a: Assignment)
    requires ClauseFactors(p) <= a.Keys
    ensures StateOf(p, a) == if Holds(p, a) then Yes else No
  {
    forall i | 0 <= i < |p| ensures p[i].factor in a {
      assert p[i].factor in ClauseFactors(p);
    }
    assert Decided(p, a);
    if !Refuted(p, a) {
      forall clause | clause in p ensures clause.factor in a && a[clause.factor] in clause.allowed {
        var i :| 0 <= i < |p| && p[i] == clause;
      }
    } else {
      var i :| 0 <= i < |p| && p[i].factor in a && a[p[i].factor] !in p[i].allowed;
      assert p[i] in p;
    }
  }

  /** Once every mentioned factor is assigned, "not yet refuted" is the constraint itself. */
  lemma AllowsIsMeaning(c: Constraint, a: Assignment)
    requires Mentions(c) <= a.Keys
    ensures Allows(c, a) <==> Meets(c, a)
  {
    match c
    case Require(_, p) => DecidedState(p, a);
    case Exclude(_, p) => DecidedState(p, a);
    case Implies(_, p, q) => DecidedState(p, a); DecidedState(q, a);
  }

  ghost predicate Extends(b: Assignment, a: Assignment) {
    forall f :: f in a ==> f in b && b[f] == a[f]
  }

  lemma StatePersists(p: Predicate, a: Assignment, b: Assignment)
    requires Extends(b, a)
    ensures StateOf(p, a) != Unknown ==> StateOf(p, b) == StateOf(p, a)
  {
    if Refuted(p, a) {
      var i :| 0 <= i < |p| && p[i].factor in a && a[p[i].factor] !in p[i].allowed;
      assert p[i].factor in b && b[p[i].factor] !in p[i].allowed;
    } else if Decided(p, a) {
      assert Decided(p, b);
    }
  }

  /** A partial assignment the constraints reject has no acceptable extension. */
  lemma RefutationPersists(constraints: seq<Constraint>, a: Assignment, b: Assignment)
    requires Extends(b, a) && AllAllow(constraints, b)
    ensures AllAllow(constraints, a)
  {
    forall i | 0 <= i < |constraints| ensures Allows(constraints[i], a) {
      assert Allows(constraints[i], b);
      match constraints[i]
      case Require(_, p) => StatePersists(p, a, b);
      case Exclude(_, p) => StatePersists(p, a, b);
      case Implies(_, p, q) => StatePersists(p, a, b); StatePersists(q, a, b);
    }
  }

  // ----- completions

  ghost function Factors(domains: seq<Domain>): set<Factor> {
    set i | 0 <= i < |domains| :: domains[i].factor
  }

  predicate DistinctFactors(domains: seq<Domain>) {
    forall i, j :: 0 <= i < j < |domains| ==> domains[i].factor != domains[j].factor
  }

  /** `a` finishes `fixed`: every other factor takes a value of its domain, no constraint objects. */
  ghost predicate Completes(domains: seq<Domain>, constraints: seq<Constraint>, fixed: Assignment, a: Assignment) {
    && a.Keys == fixed.Keys + Factors(domains)
    && Extends(a, fixed)
    && (forall d :: d in domains && d.factor !in fixed ==> a[d.factor] in d.values)
    && AllAllow(constraints, a)
  }

  ghost predicate Completable(domains: seq<Domain>, constraints: seq<Constraint>, fixed: Assignment) {
    exists a :: Completes(domains, constraints, fixed, a)
  }

  ghost predicate Satisfiable(domains: seq<Domain>, constraints: seq<Constraint>) {
    Completable(domains, constraints, map[])
  }

  /** Where the head factor is open, a completion commits to one of its values. */
  lemma HeadChoice(rest: seq<Domain>, constraints: seq<Constraint>, base: Assignment, a: Assignment)
    requires rest != [] && DistinctFactors(rest)
    requires forall d :: d in rest ==> d.factor !in base
    requires Completes(rest, constraints, base, a)
    ensures a[rest[0].factor] in rest[0].values
    ensures Completes(rest[1..], constraints, base[rest[0].factor := a[rest[0].factor]], a)
  {
    var f := rest[0].factor;
    assert rest[0] in rest;
    FactorsOfTail(rest);
    var narrowed := base[f := a[f]];
    forall d | d in rest[1..] && d.factor !in narrowed ensures a[d.factor] in d.values {
      assert d in rest;
    }
  }

  lemma HeadChosen(rest: seq<Domain>, constraints: seq<Constraint>, base: Assignment, v: Scalar, a: Assignment)
    requires rest != [] && DistinctFactors(rest) && v in rest[0].values
    requires forall d :: d in rest ==> d.factor !in base
    requires Completes(rest[1..], constraints, base[rest[0].factor := v], a)
    ensures Completes(rest, constraints, base, a)
  {
    var f := rest[0].factor;
    FactorsOfTail(rest);
    assert rest[0] in rest;
    assert Extends(a, base) by {
      forall g | g in base ensures g in a && a[g] == base[g] {
        assert g in base[f := v];
      }
    }
    forall d | d in rest && d.factor !in base ensures a[d.factor] in d.values {
      if d == rest[0] {
        assert f in base[f := v];
      } else {
        assert d in rest[1..];
        var j :| 1 <= j < |rest| && rest[j] == d;
        assert d.factor != f;
      }
    }
  }

  lemma FactorsOfTail(rest: seq<Domain>)
    requires rest != []
    ensures Factors(rest) == {rest[0].factor} + Factors(rest[1..])
  {
    forall f | f in Factors(rest) ensures f in {rest[0].factor} + Factors(rest[1..]) {
      var i :| 0 <= i < |rest| && rest[i].factor == f;
      if i > 0 {
        assert rest[1..][i - 1].factor == f;
      }
    }
    forall f | f in Factors(rest[1..]) ensures f in Factors(rest) {
      var i :| 0 <= i < |rest[1..]| && rest[1..][i].factor == f;
      assert rest[i + 1].factor == f;
    }
  }

  // ----- ordering the work

  predicate DomainLe(x: Domain, y: Domain) {
    |x.values| < |y.values| || (|x.values| == |y.values| && StringLe(x.factor, y.factor))
  }

  /** The factors a search still has to assign, smallest domain first. */
  function Remaining(domains: seq<Domain>, fixed: Assignment): seq<Domain> {
    Sort(DomainLe, Open(domains, fixed))
  }

  function Open(domains: seq<Domain>, fixed: Assignment): seq<Domain> {
    if domains == [] then []
    else (if domains[0].factor in fixed then [] else [domains[0]]) + Open(domains[1..], fixed)
  }

  lemma {:induction false} OpenMembers(domains: seq<Domain>, fixed: Assignment)
    requires DistinctFactors(domains)
    ensures forall d :: d in Open(domains, fixed) <==> d in domains && d.factor !in fixed
    ensures DistinctFactors(Open(domains, fixed))
  {
    if domains != [] {
      var tail := domains[1..];
      OpenMembers(tail, fixed);
      forall d ensures d in Open(domains, fixed) <==> d in domains && d.factor !in fixed {
        assert d in domains <==> d == domains[0] || d in tail;
      }
      forall d | d in tail ensures d.factor != domains[0].factor {
        var j :| 1 <= j < |domains| && domains[j] == d;
      }
      forall j | 0 <= j < |Open(tail, fixed)| ensures Open(tail, fixed)[j].factor != domains[0].factor {
        assert Open(tail, fixed)[j] in tail;
      }
    }
  }

  lemma {:induction false} CountedOnce(a: seq<Domain>, d: Domain)
    requires DistinctFactors(a)
    ensures multiset(a)[d] <= 1
  {
    if a != [] {
      CountedOnce(a[1..], d);
      assert a == [a[0]] + a[1..];
      assert a[0] !in a[1..];
    }
  }

  lemma DistinctByCount(a: seq<Domain>, b: seq<Domain>)
    requires multiset(a) == multiset(b) && DistinctFactors(a)
    ensures DistinctFactors(b)
  {
    SameMembers(a, b);
    forall i, j | 0 <= i < j < |b| ensures b[i].factor != b[j].factor {
      assert b[i] in a && b[j] in a;
      CountedOnce(a, b[i]);
      if b[i] == b[j] {
        TwiceCounts(b, i, j);
      }
    }
  }

  lemma RemainingMembers(domains: seq<Domain>, fixed: Assignment)
    requires DistinctFactors(domains)
    ensures forall d :: d in Remaining(domains, fixed) <==> d in domains && d.factor !in fixed
    ensures DistinctFactors(Remaining(domains, fixed))
  {
    OpenMembers(domains, fixed);
    SortMembers(DomainLe, Open(domains, fixed));
    SortPermutes(DomainLe, Open(domains, fixed));
    DistinctByCount(Open(domains, fixed), Remaining(domains, fixed));
  }

  /** Searching the remaining factors is searching for a completion. */
  lemma RemainingCompletes(domains: seq<Domain>, constraints: seq<Constraint>, fixed: Assignment, a: Assignment)
    requires DistinctFactors(domains)
    ensures Completes(Remaining(domains, fixed), constraints, fixed, a) <==> Completes(domains, constraints, fixed, a)
  {
    var rest := Remaining(domains, fixed);
    RemainingMembers(domains, fixed);
    assert fixed.Keys + Factors(rest) == fixed.Keys + Factors(domains) by {
      forall f | f in Factors(rest) ensures f in Factors(domains) {
        var i :| 0 <= i < |rest| && rest[i].factor == f;
        assert rest[i] in rest;
        var j :| 0 <= j < |domains| && domains[j] == rest[i];
      }
      forall f | f in Factors(domains) && f !in fixed ensures f in Factors(rest) {
        var i :| 0 <= i < |domains| && domains[i].factor == f;
        assert domains[i] in rest;
        var j :| 0 <= j < |rest| && rest[j] == domains[i];
      }
    }
  }

  // ----- tuples of factor values

  type FactorTuple = seq<(Factor, Scalar)>

  predicate Covers(a: Assignment, item: FactorTuple) {
    forall i :: 0 <= i < |item| ==> item[i].0 in a && a[item[i].0] == item[i].1
  }

  predicate Compatible(a: Assignment, item: FactorTuple) {
    forall i :: 0 <= i < |item| ==> item[i].0 !in a || a[item[i].0] == item[i].1
  }

  function CompatibleCount(uncovered: set<FactorTuple>, a: Assignment): nat {
    |set item | item in uncovered && Compatible(a, item)|
  }

  datatype Ranked = Ranked(score: nat, digest: nat, value: Scalar)

  predicate RankedLe(x: Ranked, y: Ranked) {
    x.score > y.score || (x.score == y.score && x.digest <= y.digest)
  }

  /**
   The search for a completion. All branches share `assignment`; `digest` stands for the
   seeded hash that breaks ties, and nothing below depends on what it returns.
   */
  class CompletionSearch {
    const constraints: seq<Constraint>
    const remaining: seq<Domain>
    const uncovered: set<FactorTuple>
    const digest: (Factor, Scalar) -> nat
    var assignment: Assignment

    constructor (domains: seq<Domain>, constraints: seq<Constraint>, fixed: Assignment,
                 uncovered: set<FactorTuple>, digest: (Factor, Scalar) -> nat)
      ensures this.constraints == constraints && this.remaining == Remaining(domains, fixed)
      ensures this.uncovered == uncovered && this.digest == digest && assignment == fixed
    {
      this.constraints := constraints;
      this.remaining := Remaining(domains, fixed);
      this.uncovered := uncovered;
      this.digest := digest;
      this.assignment := fixed;
    }

    /** Candidate values, those keeping most uncovered tuples reachable first. */
    method Rank(domain: Domain) returns (order: seq<Scalar>)
      requires domain.factor !in assignment
      modifies `assignment
      ensures assignment == old(assignment)
      ensures multiset(order) == multiset(domain.values)
      ensures forall i, j :: 0 <= i < j < |order| ==>
                CompatibleCount(uncovered, assignment[domain.factor := order[i]])
                >= CompatibleCount(uncovered, assignment[domain.factor := order[j]])
    {
      ghost var base := assignment;
      var scored: seq<Ranked> := [];
      for i := 0 to |domain.values|
        invariant assignment == base
        invariant |scored| == i
        invariant forall k :: 0 <= k < i ==>
                    && scored[k].value == domain.values[k]
                    && scored[k].score == CompatibleCount(uncovered, base[domain.factor := domain.values[k]])
      {
        var value := domain.values[i];
        assignment := assignment[domain.factor := value];
        var score := CompatibleCount(uncovered, assignment);
        assignment := assignment - {domain.factor};
        scored := scored + [Ranked(score, digest(domain.factor, value), value)];
      }
      var sorted := Sort(RankedLe, scored);
      SortSorted(RankedLe, scored);
      SortMembers(RankedLe, scored);
      SortPermutes(RankedLe, scored);
      order := Values(sorted);
      MapPermutes((r: Ranked) => r.value, sorted, scored);
      assert Values(scored) == domain.values;
      forall i | 0 <= i < |sorted|
        ensures sorted[i].score == CompatibleCount(uncovered, base[domain.factor := sorted[i].value])
      {
        assert sorted[i] in scored;
      }
    }

    /** Depth-first search from `index`; a failed branch leaves the shared assignment as it was. */
    method Search(index: nat) returns (r: Option<Assignment>)
      requires index <= |remaining| && DistinctFactors(remaining)
      requires forall d :: d in remaining[index..] ==> d.factor !in assignment
      modifies `assignment
      ensures r.Some? ==> Completes(remaining[index..], constraints, old(assignment), r.value)
      ensures r.None? ==> assignment == old(assignment)
      ensures r.None? ==> !Completable(remaining[index..], constraints, old(assignment))
      decreases |remaining| - index
    {
      ghost var base := assignment;
      ghost var rest := remaining[index..];
      if !AllAllow(constraints, assignment) {
        RejectedBase(rest, constraints, base);
        return None;
      }
      if index == |remaining| {
        assert Completes(rest, constraints, base, assignment);
        return Some(assignment);
      }
      var domain := remaining[index];
      assert rest[0] == domain && rest[1..] == remaining[index + 1..];
      var order := Rank(domain);
      SameMembers(order, domain.values);
      for i := 0 to |order|
        invariant assignment - {domain.factor} == base
        invariant forall k :: 0 <= k < i ==> !Completable(rest[1..], constraints, base[domain.factor := order[k]])
      {
        assignment := assignment[domain.factor := order[i]];
        assert assignment == base[domain.factor := order[i]];
        OthersOpen(rest, base, order[i]);
        r := Search(index + 1);
        if r.Some? {
          assert order[i] in domain.values;
          HeadChosen(rest, constraints, base, order[i], r.value);
          return;
        }
      }
      assignment := assignment - {domain.factor};
      forall a | Completes(rest, constraints, base, a) ensures false {
        HeadChoice(rest, constraints, base, a);
      }
      return None;
    }
  }

  function Values(ranked: seq<Ranked>): seq<Scalar> {
    Map((r: Ranked) => r.value, ranked)
  }

  lemma OthersOpen(rest: seq<Domain>, base: Assignment, v: Scalar)
    requires rest != [] && DistinctFactors(rest)
    requires forall d :: d in rest ==> d.factor !in base
    ensures forall d :: d in rest[1..] ==> d.factor !in base[rest[0].factor := v]
  {
    forall d | d in rest[1..] ensures d.factor !in base[rest[0].factor := v] {
      var j :| 1 <= j < |rest| && rest[j] == d;
    }
  }

  lemma RejectedBase(rest: seq<Domain>, constraints: seq<Constraint>, base: Assignment)
    requires !AllAllow(constraints, base)
    ensures !Completable(rest, constraints, base)
  {
    if a :| Completes(rest, constraints, base, a) {
      RefutationPersists(constraints, base, a);
    }
  }

  /** Sound and complete for every fixed part, tie-break and uncovered set. */
  method CompleteAssignment(domains: seq<Domain>, constraints: seq<Constraint>, fixed: Assignment,
                            uncovered: set<FactorTuple>, digest: (Factor, Scalar) -> nat)
    returns (r: Option<Assignment>)
    requires DistinctFactors(domains)
    ensures r.Some? ==> Completes(domains, constraints, fixed, r.value)
    ensures r.Some? <==> Completable(domains, constraints, fixed)
  {
    if !AllAllow(constraints, fixed) {
      RejectedBase(domains, constraints, fixed);
      return None;
    }
    RemainingMembers(domains, fixed);
    var search := new CompletionSearch(domains, constraints, fixed, uncovered, digest);
    assert search.remaining[0..] == search.remaining;
    r := search.Search(0);
    if r.Some? {
      RemainingCompletes(domains, constraints, fixed, r.value);
    } else if a :| Completes(domains, constraints, fixed, a) {
      RemainingCompletes(domains, constraints, fixed, a);
    }
  }

  // ----- satisfiability with a state limit

  lemma NothingLeft(rest: seq<Domain>, constraints: seq<Constraint>, base: Assignment)
    requires rest == [] && AllAllow(constraints, base)
    ensures Completable(rest, constraints, base)
  {
    assert Completes(rest, constraints, base, base);
  }

  lemma SomeChoice(rest: seq<Domain>, constraints: seq<Constraint>, base: Assignment, i: nat)
    requires rest != [] && DistinctFactors(rest) && i < |rest[0].values|
    requires forall d :: d in rest ==> d.factor !in base
    requires Completable(rest[1..], constraints, base[rest[0].factor := rest[0].values[i]])
    ensures Completable(rest, constraints, base)
  {
    var a :| Completes(rest[1..], constraints, base[rest[0].factor := rest[0].values[i]], a);
    HeadChosen(rest, constraints, base, rest[0].values[i], a);
  }

  lemma NoChoice(rest: seq<Domain>, constraints: seq<Constraint>, base: Assignment)
    requires rest != [] && DistinctFactors(rest)
    requires forall d :: d in rest ==> d.factor !in base
    requires forall k :: 0 <= k < |rest[0].values| ==>
                 !Completable(rest[1..], constraints, base[rest[0].factor := rest[0].values[k]])
    ensures !Completable(rest, constraints, base)
  {
    if a :| Completes(rest, constraints, base, a) {
      HeadChoice(rest, constraints, base, a);
    }
  }

  /** The partial assignments there are when values are given to the domains in order. */
  function Nodes(domains: seq<Domain>): nat {
    if domains == [] then 1 else 1 + Subtrees(|domains[0].values|, Nodes(domains[1..]))
  }

  function Subtrees(n: nat, nodes: nat): nat {
    n * nodes
  }

  /** Even without pruning the search could not pass its limit. */
  predicate SmallSearch(domains: seq<Domain>) {
    Nodes(Remaining(domains, map[])) <= MAX_SAT_STATES
  }

  lemma OneNode(domains: seq<Domain>)
    ensures Nodes(domains) >= 1
    ensures domains != [] ==> Nodes(domains) == 1 + Subtrees(|domains[0].values|, Nodes(domains[1..]))
  {
    hide Subtrees;
  }

  lemma NoSubtree(n: nat, nodes: nat)
    ensures Subtrees(0, nodes) == 0 <= Subtrees(n, nodes)
  {
  }

  lemma AnotherSubtree(i: nat, n: nat, nodes: nat)
    requires i < n
    ensures Subtrees(i + 1, nodes) == Subtrees(i, nodes) + nodes && Subtrees(i + 1, nodes) <= Subtrees(n, nodes)
  {
  }

  /** What the counted search finds from a number of states visited so far, and how many it has visited then. */
  ghost function Walk(rest: seq<Domain>, constraints: seq<Constraint>, base: Assignment, states: nat): (Option<bool>,
                                                                                                        nat)
    decreases |rest|, 1, 0
  {
    if states + 1 > MAX_SAT_STATES then (None, states + 1)
    else if !AllAllow(constraints, base) then (Some(false), states + 1)
    else if rest == [] then (Some(true), states + 1)
    else WalkValues(rest, constraints, base, 0, states + 1)
  }

  ghost function WalkValues(rest: seq<Domain>, constraints: seq<Constraint>, base: Assignment, i: nat, states: nat)
    : (Option<bool>, nat)
    requires rest != [] && i <= |rest[0].values|
    decreases |rest|, 0, |rest[0].values| - i
  {
    if i == |rest[0].values| then (Some(false), states)
    else
      var found := Walk(rest[1..], constraints, base[rest[0].factor := rest[0].values[i]], states);
      if found.0 == Some(false) then WalkValues(rest, constraints, base, i + 1, found.1) else found
  }

  /** The search comes to an answer below its limit. */
  ghost predicate SearchEnds(domains: seq<Domain>, constraints: seq<Constraint>) {
    Walk(Remaining(domains, map[]), constraints, map[], 0).0.Some?
  }

  lemma WalkEnds(rest: seq<Domain>, constraints: seq<Constraint>, base: Assignment, states: nat)
    ensures states >= MAX_SAT_STATES ==> Walk(rest, constraints, base, states) == (None, states + 1)
    ensures states < MAX_SAT_STATES && !AllAllow(constraints, base) ==>
              Walk(rest, constraints, base, states) == (Some(false), states + 1)
    ensures states < MAX_SAT_STATES && AllAllow(constraints, base) ==>
              Walk(rest, constraints, base, states) ==
              if rest == [] then (Some(true), states + 1) else WalkValues(rest, constraints, base, 0, states + 1)
  {
    hide WalkValues;
  }

  lemma WalkStep(rest: seq<Domain>, constraints: seq<Constraint>, base: Assignment, i: nat, states: nat)
    requires rest != [] && i < |rest[0].values|
    ensures var found := Walk(rest[1..], constraints, base[rest[0].factor := rest[0].values[i]], states);
            WalkValues(rest, constraints, base, i, states) ==
            if found.0 == Some(false) then WalkValues(rest, constraints, base, i + 1, found.1) else found
  {
  }

  lemma WalkDone(rest: seq<Domain>, constraints: seq<Constraint>, base: Assignment, states: nat)
    requires rest != []
    ensures WalkValues(rest, constraints, base, |rest[0].values|, states) == (Some(false), states)
  {
  }

  function Answer(r: Result<bool, MatrixError>): Option<bool> {
    match r
    case Ok(value) => Some(value)
    case Err(_) => None
  }

  lemma Choosing(base: Assignment, a: Assignment, f: Factor, v: Scalar)
    requires a - {f} == base
    ensures a[f := v] == base[f := v] && base[f := v] - {f} == base
  {
  }

  class SatisfiabilitySearch {
    const constraints: seq<Constraint>
    const ordered: seq<Domain>
    var assignment: Assignment
    var states: nat

    constructor (domains: seq<Domain>, constraints: seq<Constraint>)
      ensures this.constraints == constraints && this.ordered == Remaining(domains, map[])
      ensures assignment == map[] && states == 0
    {
      this.constraints := constraints;
      this.ordered := Remaining(domains, map[]);
      this.assignment := map[];
      this.states := 0;
    }

    /** Visit one partial assignment. */
    method Search(index: nat) returns (r: Result<bool, MatrixError>)
      requires index <= |ordered| && DistinctFactors(ordered)
      requires forall d :: d in ordered[index..] ==> d.factor !in assignment
      requires states <= MAX_SAT_STATES
      modifies this
      ensures r.Err? ==> r.error == StateLimit && states == MAX_SAT_STATES + 1
      ensures r.Ok? ==> old(states) < states <= MAX_SAT_STATES
      ensures states <= old(states) + Nodes(ordered[index..])
      ensures r.Ok? ==> (r.value <==> Completable(ordered[index..], constraints, old(assignment)))
      ensures r == Ok(false) ==> assignment == old(assignment)
      ensures (Answer(r), states) == Walk(ordered[index..], constraints, old(assignment), old(states))
      decreases |ordered| - index, 1
    {
      ghost var base := assignment;
      ghost var rest := ordered[index..];
      OneNode(rest);
      WalkEnds(rest, constraints, base, states);
      hide Nodes, Subtrees, Walk, WalkValues, Completable, AllAllow, DistinctFactors;
      states := states + 1;
      if states > MAX_SAT_STATES {
        return Err(StateLimit);
      }
      if !AllAllow(constraints, assignment) {
        RejectedBase(rest, constraints, base);
        return Ok(false);
      }
      if index == |ordered| {
        NothingLeft(rest, constraints, base);
        return Ok(true);
      }
      r := TryValues(index);
    }

    /** Give the next domain each of its values in turn. */
    method TryValues(index: nat) returns (r: Result<bool, MatrixError>)
      requires index < |ordered| && DistinctFactors(ordered)
      requires forall d :: d in ordered[index..] ==> d.factor !in assignment
      requires states <= MAX_SAT_STATES
      modifies this
      ensures r.Err? ==> r.error == StateLimit && states == MAX_SAT_STATES + 1
      ensures r.Ok? ==> old(states) <= states <= MAX_SAT_STATES
      ensures states <= old(states) + Subtrees(|ordered[index].values|, Nodes(ordered[index..][1..]))
      ensures r.Ok? ==> (r.value <==> Completable(ordered[index..], constraints, old(assignment)))
      ensures r == Ok(false) ==> assignment == old(assignment)
      ensures (Answer(r), states) == WalkValues(ordered[index..], constraints, old(assignment), 0, old(states))
      decreases |ordered| - index, 0
    {
      ghost var base := assignment;
      ghost var rest := ordered[index..];
      assert DistinctFactors(rest);
      hide Nodes, Subtrees, Walk, WalkValues, Completable, AllAllow, DistinctFactors;
      var domain := ordered[index];
      assert rest[0] == domain && rest[1..] == ordered[index + 1..];
      NoSubtree(|domain.values|, Nodes(rest[1..]));
      for i := 0 to |domain.values|
        invariant assignment - {domain.factor} == base
        invariant old(states) <= states <= MAX_SAT_STATES
        invariant states <= old(states) + Subtrees(i, Nodes(rest[1..]))
        invariant WalkValues(rest, constraints, base, 0, old(states)) == WalkValues(rest, constraints, base, i, states)
        invariant forall k :: 0 <= k < i ==>
                      !Completable(rest[1..], constraints, base[domain.factor := domain.values[k]])
      {
        Choosing(base, assignment, domain.factor, domain.values[i]);
        assignment := assignment[domain.factor := domain.values[i]];
        OthersOpen(rest, base, domain.values[i]);
        AnotherSubtree(i, |domain.values|, Nodes(rest[1..]));
        WalkStep(rest, constraints, base, i, states);
        r := Search(index + 1);
        if r.Err? {
          return;
        }
        if r.value {
          SomeChoice(rest, constraints, base, i);
          return;
        }
      }
      assignment := assignment - {domain.factor};
      WalkDone(rest, constraints, base, states);
      NoChoice(rest, constraints, base);
      return Ok(false);
    }
  }

  /** Below the state limit the answer is exactly satisfiability, and a small search stays below it. */
  method MatrixSatisfiable(domains: seq<Domain>, constraints: seq<Constraint>) returns (r: Result<bool, MatrixError>)
    requires DistinctFactors(domains)
    ensures r.Ok? ==> (r.value <==> Satisfiable(domains, constraints))
    ensures r.Err? ==> r.error == StateLimit && !SmallSearch(domains)
    ensures r.Ok? <==> SearchEnds(domains, constraints)
  {
    RemainingMembers(domains, map[]);
    var search := new SatisfiabilitySearch(domains, constraints);
    assert search.ordered[0..] == search.ordered;
    r := search.Search(0);
    forall a ensures Completes(search.ordered, constraints, map[], a) <==> Completes(domains, constraints, map[], a) {
      RemainingCompletes(domains, constraints, map[], a);
    }
  }

  function Without<T>(s: seq<T>, k: nat): seq<T>
    requires k < |s|
  {
    s[..k] + s[k + 1..]
  }

  lemma FewerConstraints(domains: seq<Domain>, more: seq<Constraint>, fewer: seq<Constraint>)
    requires Scan(fewer, more) && Satisfiable(domains, more)
    ensures Satisfiable(domains, fewer)
  {
    ScanMembers(fewer, more);
    var a :| Completes(domains, more, map[], a);
    forall i | 0 <= i < |fewer| ensures Allows(fewer[i], a) {
      assert fewer[i] in more;
    }
    assert Completes(domains, fewer, map[], a);
  }

  lemma WithoutFromSmaller<T>(small: seq<T>, large: seq<T>, j: nat, k: nat)
    requires j < k < |large| && small == Without(large, k)
    ensures Scan(Without(small, j), Without(large, j))
  {
    assert Without(small, j) == Without(Without(large, j), k - 1);
    DropOneScan(Without(large, j), k - 1);
  }

  /**
   Deletion-based shrinking. Each member is tried once against the list of that moment; what
   survives is an ordered sub-list, as unsatisfiable as the input, from which no member can go.
   */
  method MinimalUnsatCore(domains: seq<Domain>, constraints: seq<Constraint>)
    returns (r: Result<seq<Constraint>, MatrixError>)
    requires DistinctFactors(domains)
    ensures r.Err? ==> r.error == StateLimit && !SmallSearch(domains)
    ensures r.Ok? ==> Scan(r.value, constraints)
    ensures r.Ok? ==> (Satisfiable(domains, r.value) <==> Satisfiable(domains, constraints))
    ensures r.Ok? ==> forall k :: 0 <= k < |r.value| ==> Satisfiable(domains, Without(r.value, k))
  {
    var core := constraints;
    var index := 0;
    ScanReflexive(constraints);
    while index < |core|
      invariant index <= |core|
      invariant Scan(core, constraints)
      invariant Satisfiable(domains, core) <==> Satisfiable(domains, constraints)
      invariant forall k :: 0 <= k < index ==> Satisfiable(domains, Without(core, k))
      decreases |core| - index
    {
      var candidate := core[..index] + core[index + 1..];
      assert candidate == Without(core, index);
      DropOneScan(core, index);
      var satisfiable := MatrixSatisfiable(domains, candidate);
      if satisfiable.Err? {
        return Err(satisfiable.error);
      }
      if !satisfiable.value {
        if Satisfiable(domains, core) {
          FewerConstraints(domains, core, candidate);
        }
        forall k | 0 <= k < index ensures Satisfiable(domains, Without(candidate, k)) {
          WithoutFromSmaller(candidate, core, k, index);
          FewerConstraints(domains, Without(core, k), Without(candidate, k));
        }
        ScanTransitive(candidate, core, constraints);
        core := candidate;
      } else {
        index := index + 1;
      }
    }
    r := Ok(core);
  }

  // ----- accepting a matrix

  datatype MandatoryCase = MandatoryCase(id: string, values: Assignment)

  datatype Focus = Focus(factors: seq<Factor>, strength: nat)

  datatype Risk = Risk(id: string, when: Predicate, weight: nat, focus: Option<Focus>)

  datatype Matrix = Matrix(
    domains: seq<Domain>,
    constraints: seq<Constraint>,
    mandatory: seq<MandatoryCase>,
    strength: nat,
    risks: seq<Risk>)

  /**
   What field-by-field parsing guarantees before any logical check. It compares raw texts and strips them
   afterwards, so a domain or a focus may still name one thing twice.
   */
  ghost predicate WellTyped(m: Matrix) {
    && DistinctFactors(m.domains)
    && (forall c :: c in m.constraints ==> Mentions(c) <= Factors(m.domains))
    && (forall given :: given in m.mandatory ==>
          && given.values.Keys == Factors(m.domains)
          && forall d :: d in m.domains ==> given.values[d.factor] in d.values)
    && 1 <= m.strength <= |m.domains|
    && (forall risk :: risk in m.risks && risk.focus.Some? ==>
          && (forall f :: f in risk.focus.value.factors ==> f in Factors(m.domains))
          && m.strength < risk.focus.value.strength <= |risk.focus.value.factors|)
  }

  /** A row that assigns every factor from its domain and meets every constraint. */
  ghost predicate ValidRow(m: Matrix, row: Assignment) {
    && row.Keys == Factors(m.domains)
    && (forall d :: d in m.domains ==> row[d.factor] in d.values)
    && (forall c :: c in m.constraints ==> Meets(c, row))
  }

  /** On rows, finishing the empty assignment and being valid are the same. */
  lemma CompletesIsValid(m: Matrix, fixed: Assignment, row: Assignment)
    requires WellTyped(m) && fixed.Keys <= Factors(m.domains)
    requires forall d :: d in m.domains && d.factor in fixed ==> fixed[d.factor] in d.values
    ensures Completes(m.domains, m.constraints, fixed, row) <==> ValidRow(m, row) && Extends(row, fixed)
  {
    if row.Keys == Factors(m.domains) {
      forall i | 0 <= i < |m.constraints|
        ensures Allows(m.constraints[i], row) <==> Meets(m.constraints[i], row)
      {
        assert m.constraints[i] in m.constraints;
        AllowsIsMeaning(m.constraints[i], row);
      }
      forall c | c in m.constraints ensures AllAllow(m.constraints, row) ==> Meets(c, row) {
        var i :| 0 <= i < |m.constraints| && m.constraints[i] == c;
      }
      forall d | d in m.domains ensures d.factor in row {
        var i :| 0 <= i < |m.domains| && m.domains[i] == d;
      }
    }
  }

  function Violated(constraints: seq<Constraint>, a: Assignment): seq<string> {
    if constraints == [] then []
    else (if Allows(constraints[0], a) then [] else [constraints[0].id]) + Violated(constraints[1..], a)
  }

  lemma {:induction false} NoneViolated(constraints: seq<Constraint>, a: Assignment)
    ensures Violated(constraints, a) == [] <==> AllAllow(constraints, a)
  {
    if constraints != [] {
      NoneViolated(constraints[1..], a);
      assert constraints == [constraints[0]] + constraints[1..];
      if AllAllow(constraints[1..], a) && Allows(constraints[0], a) {
        forall i | 0 <= i < |constraints| ensures Allows(constraints[i], a) {
          if i > 0 {
            assert Allows(constraints[1..][i - 1], a);
          }
        }
      }
      if AllAllow(constraints, a) {
        forall i | 0 <= i < |constraints| - 1 ensures Allows(constraints[1..][i], a) {
          assert Allows(constraints[i + 1], a);
        }
      }
    }
  }

  /** Listing no violation is being a valid row. */
  lemma MandatoryDecided(m: Matrix, given: MandatoryCase)
    requires WellTyped(m) && given in m.mandatory
    ensures Violated(m.constraints, given.values) == [] <==> ValidRow(m, given.values)
  {
    NoneViolated(m.constraints, given.values);
    CompletesIsValid(m, map[], given.values);
  }

  /** The search for a row ends with one, and every mandatory case is valid. */
  ghost predicate Accepted(m: Matrix) {
    && SearchEnds(m.domains, m.constraints) && Satisfiable(m.domains, m.constraints)
    && forall given :: given in m.mandatory ==> ValidRow(m, given.values)
  }

  /**
   The logical half of matrix validation: an unsatisfiable matrix is refused with a minimal core,
   a mandatory case that breaks a constraint is refused, and an accepted matrix has neither fault.
   */
  method ValidateMatrix(m: Matrix) returns (r: Result<(), MatrixError>)
    requires WellTyped(m)
    ensures r.Ok? <==> Accepted(m)
    ensures r.Err? && r.error.Unsatisfiable? ==>
              && Scan(r.error.core, m.constraints) && !Satisfiable(m.domains, r.error.core)
              && forall k :: 0 <= k < |r.error.core| ==> Satisfiable(m.domains, Without(r.error.core, k))
    ensures r.Err? && r.error.MandatoryViolates? ==>
              exists given :: given in m.mandatory && given.id == r.error.id && !ValidRow(m, given.values)
    ensures r == Err(StateLimit) ==> !SmallSearch(m.domains)
    ensures r.Err? ==> !r.error.TooManyTuples? && !r.error.Endless?
  {
    hide Satisfiable, ValidRow, Scan, Violated, Without, SearchEnds;
    var satisfiable := MatrixSatisfiable(m.domains, m.constraints);
    if satisfiable.Err? {
      return Err(satisfiable.error);
    }
    if !satisfiable.value {
      var core := MinimalUnsatCore(m.domains, m.constraints);
      if core.Err? {
        return Err(core.error);
      }
      return Err(Unsatisfiable(core.value));
    }
    for i := 0 to |m.mandatory|
      invariant forall k :: 0 <= k < i ==> ValidRow(m, m.mandatory[k].values)
    {
      var given := m.mandatory[i];
      assert given in m.mandatory;
      var violated := Violated(m.constraints, given.values);
      MandatoryDecided(m, given);
      if violated != [] {
        return Err(MandatoryViolates(given.id, violated));
      }
    }
    r := Ok(());
  }
}
