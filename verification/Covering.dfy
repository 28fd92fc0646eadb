/** Constrained covering arrays: classify every requested tuple, then add rows until none is left. */
module Covering {
  import opened Prelude
  import opened Subsequences
  import opened Constraints

  const MAX_REQUIREMENTS: nat := 250_000

  datatype Excluded = Excluded(values: FactorTuple, reasons: seq<string>)

  datatype CoveringArray = CoveringArray(
    rows: seq<Assignment>,
    required: set<FactorTuple>,
    excluded: seq<Excluded>)

  // ----- requested tuples

  function FactorList(domains: seq<Domain>): (r: seq<Factor>)
    ensures |r| == |domains|
    ensures forall i :: 0 <= i < |r| ==> r[i] == domains[i].factor
  {
    seq(|domains|, i requires 0 <= i < |domains| => domains[i].factor)
  }

  /** Every base subset of the matrix strength, and the stronger subsets each risk asks for. */
  function RequestedSubsets(m: Matrix): set<seq<Factor>> {
    (set factors | factors in Combinations(FactorList(m.domains), m.strength)) + RiskSubsets(m.risks)
  }

  function RiskSubsets(risks: seq<Risk>): set<seq<Factor>> {
    if risks == [] then {}
    else
      (match risks[0].focus
       case None => {}
       case Some(focus) => set factors | factors in Combinations(focus.factors, focus.strength))
      + RiskSubsets(risks[1..])
  }

  function DomainValues(domains: seq<Domain>, factor: Factor): seq<Scalar> {
    if domains == [] then []
    else if domains[0].factor == factor then domains[0].values
    else DomainValues(domains[1..], factor)
  }

  function ValueDomains(domains: seq<Domain>, factors: seq<Factor>): (r: seq<seq<Scalar>>)
    ensures |r| == |factors|
    ensures forall i :: 0 <= i < |r| ==> r[i] == DomainValues(domains, factors[i])
  {
    seq(|factors|, i requires 0 <= i < |factors| => DomainValues(domains, factors[i]))
  }

  function Zip(factors: seq<Factor>, values: seq<Scalar>): (item: FactorTuple)
    requires |factors| == |values|
    ensures |item| == |factors|
    ensures forall i :: 0 <= i < |item| ==> item[i] == (factors[i], values[i])
  {
    seq(|factors|, i requires 0 <= i < |factors| => (factors[i], values[i]))
  }

  /** The independent description of a requested tuple: a requested subset, each factor at a value it may take. */
  ghost predicate Requested(m: Matrix, item: FactorTuple) {
    exists factors ::
      && factors in RequestedSubsets(m)
      && |item| == |factors|
      && forall i :: 0 <= i < |item| ==> item[i].0 == factors[i] && item[i].1 in DomainValues(m.domains, factors[i])
  }

  ghost predicate Permitted(m: Matrix, item: FactorTuple) {
    exists row :: ValidRow(m, row) && Covers(row, item)
  }

  lemma {:induction false} DomainValuesOf(domains: seq<Domain>, d: Domain)
    requires DistinctFactors(domains) && d in domains
    ensures DomainValues(domains, d.factor) == d.values
  {
    if domains[0] != d {
      var j :| 1 <= j < |domains| && domains[j] == d;
      assert d == domains[1..][j - 1];
      DomainValuesOf(domains[1..], d);
    }
  }

  lemma {:induction false} RiskSubsetsMembers(risks: seq<Risk>, factors: seq<Factor>)
    ensures factors in RiskSubsets(risks) <==>
            exists risk :: risk in risks && risk.focus.Some?
                           && factors in Combinations(risk.focus.value.factors, risk.focus.value.strength)
  {
    if risks != [] {
      RiskSubsetsMembers(risks[1..], factors);
      assert risks == [risks[0]] + risks[1..];
    }
  }

  /** Base subsets never repeat a factor; a risk's subsets may when its focus does. */
  lemma SubsetsAreDistinct(m: Matrix, factors: seq<Factor>)
    requires WellTyped(m) && factors in RequestedSubsets(m)
    ensures forall f :: f in factors ==> f in Factors(m.domains)
    ensures || Distinct(factors)
            || exists risk :: risk in m.risks && risk.focus.Some? && Scan(factors, risk.focus.value.factors)
                              && !Distinct(risk.focus.value.factors)
  {
    var all := FactorList(m.domains);
    if factors in Combinations(all, m.strength) {
      CombinationsAreScans(all, m.strength, factors);
      ScanDistinct(factors, all);
      ScanMembers(factors, all);
      forall f | f in factors ensures f in Factors(m.domains) {
        var i :| 0 <= i < |all| && all[i] == f;
        assert m.domains[i].factor == f;
      }
    } else {
      RiskSubsetsMembers(m.risks, factors);
      var risk :| risk in m.risks && risk.focus.Some?
                  && factors in Combinations(risk.focus.value.factors, risk.focus.value.strength);
      CombinationsAreScans(risk.focus.value.factors, risk.focus.value.strength, factors);
      ScanMembers(factors, risk.focus.value.factors);
      if Distinct(risk.focus.value.factors) {
        ScanDistinct(factors, risk.focus.value.factors);
      }
    }
  }

  /** The dict built from a tuple; a later pair would win. */
  function Fixed(item: FactorTuple): Assignment {
    if item == [] then map[]
    else Fixed(item[..|item| - 1])[item[|item| - 1].0 := item[|item| - 1].1]
  }

  /** No factor is asked to have two values at once. */
  predicate Consistent(item: FactorTuple) {
    forall i, j :: 0 <= i < j < |item| && item[i].0 == item[j].0 ==> item[i].1 == item[j].1
  }

  /** The pair that counts is the last one of its factor. */
  lemma {:induction false} FixedNames(item: FactorTuple)
    ensures forall f :: f in Fixed(item) <==> exists i :: 0 <= i < |item| && item[i].0 == f
    ensures forall f :: f in Fixed(item) ==> exists i :: LastOf(item, f, i) && item[i] == (f, Fixed(item)[f])
  {
    if item != [] {
      var n := |item| - 1;
      var front := item[..n];
      FixedNames(front);
      forall f | f in Fixed(item) ensures exists i :: LastOf(item, f, i) && item[i] == (f, Fixed(item)[f]) {
        if f != item[n].0 {
          assert f in Fixed(front);
          var i :| LastOf(front, f, i) && front[i] == (f, Fixed(front)[f]);
          assert LastOf(item, f, i) && item[i] == front[i];
        } else {
          assert LastOf(item, f, n) && item[n] == (f, Fixed(item)[f]);
        }
      }
      forall i | 0 <= i < |item| ensures item[i].0 in Fixed(item) {
        if i < n {
          assert front[i].0 in Fixed(front);
        }
      }
    }
  }

  ghost predicate LastOf(item: FactorTuple, f: Factor, i: int) {
    0 <= i < |item| && item[i].0 == f && forall k :: i < k < |item| ==> item[k].0 != f
  }

  /** A consistent tuple is the partial assignment built from it. */
  lemma FixedIsTuple(item: FactorTuple)
    requires Consistent(item)
    ensures forall i :: 0 <= i < |item| ==> item[i].0 in Fixed(item) && Fixed(item)[item[i].0] == item[i].1
  {
    FixedNames(item);
    forall i | 0 <= i < |item| ensures item[i].0 in Fixed(item) && Fixed(item)[item[i].0] == item[i].1 {
      assert item[i].0 in Fixed(item);
      var j :| LastOf(item, item[i].0, j) && item[j] == (item[i].0, Fixed(item)[item[i].0]);
    }
  }

  /** The search the generator files tuples by. */
  ghost predicate Fillable(m: Matrix, item: FactorTuple) {
    Completable(m.domains, m.constraints, Fixed(item))
  }

  lemma RequestedFixed(m: Matrix, item: FactorTuple)
    requires WellTyped(m) && Requested(m, item)
    ensures Fixed(item).Keys <= Factors(m.domains)
    ensures forall d :: d in m.domains && d.factor in Fixed(item) ==> Fixed(item)[d.factor] in d.values
  {
    var factors :| factors in RequestedSubsets(m) && |item| == |factors| &&
      forall i :: 0 <= i < |item| ==> item[i].0 == factors[i] && item[i].1 in DomainValues(m.domains, factors[i]);
    SubsetsAreDistinct(m, factors);
    FixedNames(item);
    hide Fixed;
    forall f | f in Fixed(item) ensures f in Factors(m.domains) {
      var i :| 0 <= i < |item| && item[i].0 == f;
      assert factors[i] in factors;
    }
    forall d | d in m.domains && d.factor in Fixed(item) ensures Fixed(item)[d.factor] in d.values {
      var i :| LastOf(item, d.factor, i) && item[i] == (d.factor, Fixed(item)[d.factor]);
      DomainValuesOf(m.domains, d);
    }
  }

  /**
   A requested tuple is permitted exactly when it is consistent and, taken as a partial assignment, can be
   completed; and its completions are then the valid rows that cover it.
   */
  lemma PermittedIsCompletable(m: Matrix, item: FactorTuple)
    requires WellTyped(m) && Requested(m, item)
    ensures Permitted(m, item) <==> Consistent(item) && Fillable(m, item)
    ensures forall row :: Completes(m.domains, m.constraints, Fixed(item), row) ==> ValidRow(m, row)
    ensures Consistent(item) ==>
              forall row :: Completes(m.domains, m.constraints, Fixed(item), row) ==> Covers(row, item)
  {
    RequestedFixed(m, item);
    FixedNames(item);
    var fixed := Fixed(item);
    hide Fixed, Requested;
    forall row ensures Completes(m.domains, m.constraints, fixed, row) <==> ValidRow(m, row) && Extends(row, fixed) {
      CompletesIsValid(m, fixed, row);
    }
    hide ValidRow, Completes;
    forall row ensures Covers(row, item) <==> Consistent(item) && Extends(row, fixed) {
      CoversExtends(row, item);
    }
  }

  lemma CoversExtends(row: Assignment, item: FactorTuple)
    ensures Covers(row, item) <==> Consistent(item) && Extends(row, Fixed(item))
  {
    FixedNames(item);
    if Consistent(item) {
      FixedIsTuple(item);
    }
    hide Fixed;
  }

  // ----- what the first loop goes through

  function Names(item: FactorTuple): (r: seq<Factor>)
    ensures |r| == |item|
    ensures forall i :: 0 <= i < |r| ==> r[i] == item[i].0
  {
    seq(|item|, i requires 0 <= i < |item| => item[i].0)
  }

  function Values(item: FactorTuple): (r: seq<Scalar>)
    ensures |r| == |item|
    ensures forall i :: 0 <= i < |r| ==> r[i] == item[i].1
  {
    seq(|item|, i requires 0 <= i < |item| => item[i].1)
  }

  predicate Fit(factors: seq<Factor>, choices: seq<seq<Scalar>>) {
    forall k :: 0 <= k < |choices| ==> |choices[k]| == |factors|
  }

  function ZipAll(factors: seq<Factor>, choices: seq<seq<Scalar>>): (r: seq<FactorTuple>)
    requires Fit(factors, choices)
    ensures |r| == |choices|
    ensures forall k :: 0 <= k < |r| ==> r[k] == Zip(factors, choices[k])
  {
    seq(|choices|, k requires 0 <= k < |choices| => Zip(factors, choices[k]))
  }

  /** How often the values a tuple takes are written down in their domains, all in all. */
  function Repeats(domains: seq<Domain>, item: FactorTuple): nat {
    if item == [] then 1 else multiset(DomainValues(domains, item[0].0))[item[0].1] * Repeats(domains, item[1..])
  }

  /** How often the first loop comes by a tuple: more than once when a domain repeats a value of it. */
  ghost function Listing(m: Matrix, item: FactorTuple): nat {
    if Names(item) in RequestedSubsets(m) then Repeats(m.domains, item) else 0
  }

  lemma {:induction false} ListedChoices(domains: seq<Domain>, item: FactorTuple)
    ensures multiset(Product(ValueDomains(domains, Names(item))))[Values(item)] == Repeats(domains, item)
  {
    var lists := ValueDomains(domains, Names(item));
    if item != [] {
      var rest := item[1..];
      assert lists[1..] == ValueDomains(domains, Names(rest));
      assert Values(item)[1..] == Values(rest);
      ListedChoices(domains, rest);
      SpreadCount(lists[0], Product(lists[1..]), Values(item));
    }
  }

  lemma {:induction false} ZipCount(factors: seq<Factor>, choices: seq<seq<Scalar>>, item: FactorTuple)
    requires Fit(factors, choices)
    ensures multiset(ZipAll(factors, choices))[item] == if Names(item) == factors then multiset(choices)[Values(item)]
            else 0
  {
    if choices != [] {
      var n := |choices| - 1;
      ZipCount(factors, choices[..n], item);
      assert choices == choices[..n] + [choices[n]];
      assert ZipAll(factors, choices) == ZipAll(factors, choices[..n]) + [Zip(factors, choices[n])];
      ZipIs(factors, choices[n], item);
    }
  }

  lemma ZipIs(factors: seq<Factor>, values: seq<Scalar>, item: FactorTuple)
    requires |factors| == |values|
    ensures Zip(factors, values) == item <==> Names(item) == factors && Values(item) == values
  {
    if Names(item) == factors && Values(item) == values {
      assert forall i :: 0 <= i < |item| ==> item[i] == (Names(item)[i], Values(item)[i]);
    }
    if Zip(factors, values) == item {
      assert Names(item) == factors && Values(item) == values;
    }
  }

  /** The tuples listed for one requested subset. */
  function Listed(m: Matrix, factors: seq<Factor>): seq<FactorTuple> {
    ChoicesFit(m, factors);
    ZipAll(factors, Product(ValueDomains(m.domains, factors)))
  }

  lemma ChoicesFit(m: Matrix, factors: seq<Factor>)
    ensures Fit(factors, Product(ValueDomains(m.domains, factors)))
  {
    var choices := Product(ValueDomains(m.domains, factors));
    forall k | 0 <= k < |choices| ensures |choices[k]| == |factors| {
      ProductMembers(ValueDomains(m.domains, factors), choices[k]);
    }
  }

  lemma ListedCount(m: Matrix, factors: seq<Factor>, item: FactorTuple)
    ensures multiset(Listed(m, factors))[item] == if Names(item) == factors then Repeats(m.domains, item) else 0
  {
    ChoicesFit(m, factors);
    ZipCount(factors, Product(ValueDomains(m.domains, factors)), item);
    ListedChoices(m.domains, item);
  }

  lemma {:induction false} RepeatsSome(domains: seq<Domain>, item: FactorTuple)
    ensures Repeats(domains, item) > 0 <==>
            forall i :: 0 <= i < |item| ==> item[i].1 in DomainValues(domains, item[i].0)
  {
    if item != [] {
      var rest := item[1..];
      RepeatsSome(domains, rest);
      assert forall i :: 1 <= i < |item| ==> item[i] == rest[i - 1];
      assert forall i :: 0 <= i < |rest| ==> rest[i] == item[i + 1];
      SomeTimes(multiset(DomainValues(domains, item[0].0))[item[0].1], Repeats(domains, rest));
    }
  }

  lemma SomeTimes(a: nat, b: nat)
    ensures a * b > 0 <==> a > 0 && b > 0
  {
  }

  /** A tuple is listed exactly when it is requested. */
  lemma ListedRequested(m: Matrix, item: FactorTuple)
    ensures Listing(m, item) > 0 <==> Requested(m, item)
  {
    RepeatsSome(m.domains, item);
    if Requested(m, item) {
      var factors :| factors in RequestedSubsets(m) && |item| == |factors| &&
        forall i :: 0 <= i < |item| ==> item[i].0 == factors[i] && item[i].1 in DomainValues(m.domains, factors[i]);
      assert Names(item) == factors;
    }
    hide Repeats;
  }

  /** And when no domain repeats a value, it is listed once. */
  lemma ListedOnce(m: Matrix, item: FactorTuple)
    requires DistinctFactors(m.domains) && forall d :: d in m.domains ==> Distinct(d.values)
    ensures Listing(m, item) <= 1
  {
    RepeatsOnce(m.domains, item);
  }

  lemma {:induction false} RepeatsOnce(domains: seq<Domain>, item: FactorTuple)
    requires DistinctFactors(domains) && forall d :: d in domains ==> Distinct(d.values)
    ensures Repeats(domains, item) <= 1
  {
    if item != [] {
      RepeatsOnce(domains, item[1..]);
      DomainValuesDistinct(domains, item[0].0);
      DistinctCount(DomainValues(domains, item[0].0), item[0].1);
      OnceTimes(multiset(DomainValues(domains, item[0].0))[item[0].1], Repeats(domains, item[1..]));
    }
  }

  lemma OnceTimes(a: nat, b: nat)
    requires a <= 1 && b <= 1
    ensures a * b <= 1
  {
  }

  lemma {:induction false} DomainValuesDistinct(domains: seq<Domain>, factor: Factor)
    requires forall d :: d in domains ==> Distinct(d.values)
    ensures Distinct(DomainValues(domains, factor))
  {
    if domains != [] && domains[0].factor != factor {
      DomainValuesDistinct(domains[1..], factor);
    } else if domains != [] {
      assert domains[0] in domains;
    }
  }

  // ----- the generator

  function ExcludedTuples(excluded: seq<Excluded>): set<FactorTuple> {
    set i | 0 <= i < |excluded| :: excluded[i].values
  }

  function TuplesOf(excluded: seq<Excluded>): (r: seq<FactorTuple>)
    ensures |r| == |excluded|
    ensures forall i :: 0 <= i < |r| ==> r[i] == excluded[i].values
  {
    seq(|excluded|, i requires 0 <= i < |excluded| => excluded[i].values)
  }

  /** The constraints a tuple breaks by itself, or the note that only its completions break some. */
  function Reasons(m: Matrix, item: FactorTuple): seq<string> {
    var direct := Violated(m.constraints, Fixed(item));
    if direct != [] then direct else ["not-extendable"]
  }

  /** Everything gone through so far is filed: required once, or excluded every time it came by. */
  ghost predicate Recorded(m: Matrix, seen: multiset<FactorTuple>, required: set<FactorTuple>,
                           excluded: seq<Excluded>) {
    && (forall item :: item in required <==> item in seen && Fillable(m, item))
    && (forall item :: multiset(TuplesOf(excluded))[item] == if Fillable(m, item) then 0 else seen[item])
    && (forall e :: e in excluded ==> e.reasons == Reasons(m, e.values))
  }

  /** Decide one tuple and file it with its kind. */
  method Classify(m: Matrix, item: FactorTuple, ghost seen: multiset<FactorTuple>, required: set<FactorTuple>,
                  excluded: seq<Excluded>, digest: (nat, Factor, Scalar) -> nat)
    returns (required': set<FactorTuple>, excluded': seq<Excluded>)
    requires WellTyped(m) && Recorded(m, seen, required, excluded)
    ensures Recorded(m, seen + multiset{item}, required', excluded')
    ensures |required'| + |excluded'| <= |required| + |excluded| + 1
  {
    hide Fixed, Violated, Recorded, Completable;
    var completion := CompleteAssignment(m.domains, m.constraints, Fixed(item), {}, (f, v) => digest(0, f, v));
    if completion.Some? {
      FiledRequired(m, item, seen, required, excluded);
      required', excluded' := required + {item}, excluded;
    } else {
      FiledExcluded(m, item, seen, required, excluded);
      required', excluded' := required, excluded + [Excluded(item, Reasons(m, item))];
    }
  }

  lemma FiledRequired(m: Matrix, item: FactorTuple, seen: multiset<FactorTuple>, required: set<FactorTuple>,
                      excluded: seq<Excluded>)
    requires Recorded(m, seen, required, excluded) && Fillable(m, item)
    ensures Recorded(m, seen + multiset{item}, required + {item}, excluded)
  {
    hide Fillable, Reasons;
  }

  lemma FiledExcluded(m: Matrix, item: FactorTuple, seen: multiset<FactorTuple>, required: set<FactorTuple>,
                      excluded: seq<Excluded>)
    requires Recorded(m, seen, required, excluded) && !Fillable(m, item)
    ensures Recorded(m, seen + multiset{item}, required, excluded + [Excluded(item, Reasons(m, item))])
  {
    hide Fillable, Reasons;
    var e := Excluded(item, Reasons(m, item));
    assert TuplesOf(excluded + [e]) == TuplesOf(excluded) + [item];
  }

  /** What is filed was gone through, so one tuple more than the limit was gone through. */
  lemma TooManySeen(m: Matrix, seen: multiset<FactorTuple>, required: set<FactorTuple>, excluded: seq<Excluded>,
                    item: FactorTuple)
    requires Recorded(m, seen, required, excluded)
    ensures |required| + |excluded| + 1 <= |seen + multiset{item}|
  {
    hide Fillable, Reasons;
    var filed := multiset(required) + multiset(TuplesOf(excluded));
    forall t ensures filed[t] <= seen[t] {
    }
    assert filed <= seen;
    PartAtMost(filed, seen);
  }

  lemma PartAtMost<T>(part: multiset<T>, whole: multiset<T>)
    requires part <= whole
    ensures |part| <= |whole|
  {
    assert whole == part + (whole - part);
  }

  /** More than the limit were listed, none more often than the loop comes by it. */
  ghost predicate Oversized(m: Matrix, listed: multiset<FactorTuple>) {
    |listed| > MAX_REQUIREMENTS && forall item :: item in listed ==> listed[item] <= Listing(m, item)
  }

  /** Classify the tuples of one set of factors. */
  method ClassifyListed(m: Matrix, items: seq<FactorTuple>, ghost seen: multiset<FactorTuple>,
                        required: set<FactorTuple>,
                        excluded: seq<Excluded>, digest: (nat, Factor, Scalar) -> nat)
    returns (r: Result<(set<FactorTuple>, seq<Excluded>), MatrixError>)
    requires WellTyped(m) && Recorded(m, seen, required, excluded)
    requires |required| + |excluded| <= MAX_REQUIREMENTS
    ensures r.Ok? ==> Recorded(m, seen + multiset(items), r.value.0, r.value.1)
    ensures r.Ok? ==> |r.value.0| + |r.value.1| <= MAX_REQUIREMENTS
    ensures r.Err? ==> r.error == TooManyTuples && |seen + multiset(items)| > MAX_REQUIREMENTS
  {
    hide Recorded;
    var kept, dropped := required, excluded;
    assert items[..0] == [] && seen + multiset([]) == seen;
    for i := 0 to |items|
      invariant Recorded(m, seen + multiset(items[..i]), kept, dropped)
      invariant |kept| + |dropped| <= MAX_REQUIREMENTS
    {
      OneMoreListed(items, i, seen);
      if |kept| + |dropped| >= MAX_REQUIREMENTS {
        TooManySeen(m, seen + multiset(items[..i]), kept, dropped, items[i]);
        return Err(TooManyTuples);
      }
      kept, dropped := Classify(m, items[i], seen + multiset(items[..i]), kept, dropped, digest);
    }
    assert items[..|items|] == items;
    r := Ok((kept, dropped));
  }

  lemma OneMoreListed(items: seq<FactorTuple>, i: nat, seen: multiset<FactorTuple>)
    requires i < |items|
    ensures seen + multiset(items[..i + 1]) == seen + multiset(items[..i]) + multiset{items[i]}
    ensures |seen + multiset(items[..i + 1])| <= |seen + multiset(items)|
  {
    assert items[..i + 1] == items[..i] + [items[i]];
    assert items == items[..i + 1] + items[i + 1..];
  }

  /** The subsets outside `pending` are done, each tuple of theirs as often as it is listed. */
  ghost predicate SeenSo(m: Matrix, pending: set<seq<Factor>>, seen: multiset<FactorTuple>) {
    forall item :: seen[item] == if Names(item) in pending then 0 else Listing(m, item)
  }

  lemma SubsetSeen(m: Matrix, pending: set<seq<Factor>>, seen: multiset<FactorTuple>, factors: seq<Factor>)
    requires SeenSo(m, pending, seen) && factors in pending && pending <= RequestedSubsets(m)
    ensures SeenSo(m, pending - {factors}, seen + multiset(Listed(m, factors)))
  {
    hide Listed, RequestedSubsets, Repeats;
    forall item
      ensures (seen + multiset(Listed(m, factors)))[item] == if Names(item) in pending - {factors} then 0
              else Listing(m, item)
    {
      ListedCount(m, factors, item);
    }
  }

  lemma NothingSeen(m: Matrix)
    ensures SeenSo(m, RequestedSubsets(m), multiset{}) && Recorded(m, multiset{}, {}, [])
  {
    hide RequestedSubsets, Repeats;
    assert TuplesOf([]) == [];
  }

  /** The first loop: every listed tuple is required or excluded, by the search alone. */
  method ClassifyAll(m: Matrix, digest: (nat, Factor, Scalar) -> nat)
    returns (r: Result<(set<FactorTuple>, seq<Excluded>), MatrixError>)
    requires WellTyped(m)
    ensures r.Ok? ==> forall item :: item in r.value.0 <==> Requested(m, item) && Fillable(m, item)
    ensures r.Ok? ==>
                forall item :: multiset(TuplesOf(r.value.1))[item] == if Fillable(m, item) then 0 else Listing(m, item)
    ensures r.Ok? ==> forall e :: e in r.value.1 ==> e.reasons == Reasons(m, e.values)
    ensures r.Ok? ==> |r.value.0| + |r.value.1| <= MAX_REQUIREMENTS
    ensures r.Err? ==> r.error == TooManyTuples && exists listed :: Oversized(m, listed)
  {
    var required: set<FactorTuple>, excluded: seq<Excluded> := {}, [];
    ghost var seen: multiset<FactorTuple> := multiset{};
    var pending := RequestedSubsets(m);
    NothingSeen(m);
    hide Recorded, RequestedSubsets, SeenSo, Listed;
    while pending != {}
      invariant pending <= RequestedSubsets(m)
      invariant Recorded(m, seen, required, excluded) && SeenSo(m, pending, seen)
      invariant |required| + |excluded| <= MAX_REQUIREMENTS
      decreases pending
    {
      var factors :| factors in pending;
      var items := Listed(m, factors);
      SubsetSeen(m, pending, seen, factors);
      pending := pending - {factors};
      var classified := ClassifyListed(m, items, seen, required, excluded, digest);
      seen := seen + multiset(items);
      if classified.Err? {
        SeenIsListed(m, pending, seen);
        return classified;
      }
      required, excluded := classified.value.0, classified.value.1;
    }
    AllSeen(m, seen, required, excluded);
    r := Ok((required, excluded));
  }

  lemma SeenIsListed(m: Matrix, pending: set<seq<Factor>>, seen: multiset<FactorTuple>)
    requires SeenSo(m, pending, seen) && |seen| > MAX_REQUIREMENTS
    ensures Oversized(m, seen)
  {
    hide Listing;
  }

  lemma AllSeen(m: Matrix, seen: multiset<FactorTuple>, required: set<FactorTuple>, excluded: seq<Excluded>)
    requires SeenSo(m, {}, seen) && Recorded(m, seen, required, excluded)
    ensures forall item :: item in required <==> Requested(m, item) && Fillable(m, item)
    ensures forall item :: multiset(TuplesOf(excluded))[item] == if Fillable(m, item) then 0 else Listing(m, item)
    ensures forall e :: e in excluded ==> e.reasons == Reasons(m, e.values)
  {
    hide Listing, Requested, Fillable, Reasons;
    forall item ensures item in required <==> Requested(m, item) && Fillable(m, item) {
      ListedRequested(m, item);
      assert seen[item] == Listing(m, item);
    }
  }

  // ----- rows

  ghost predicate RowsCover(rows: seq<Assignment>, item: FactorTuple) {
    exists i :: 0 <= i < |rows| && Covers(rows[i], item)
  }

  predicate SomeRowCovers(rows: seq<Assignment>, item: FactorTuple)
    ensures SomeRowCovers(rows, item) <==> RowsCover(rows, item)
  {
    exists i :: 0 <= i < |rows| && Covers(rows[i], item)
  }

  function MandatoryRows(m: Matrix): (rows: seq<Assignment>)
    ensures |rows| == |m.mandatory|
    ensures forall i :: 0 <= i < |rows| ==> rows[i] == m.mandatory[i].values
  {
    seq(|m.mandatory|, i requires 0 <= i < |m.mandatory| => m.mandatory[i].values)
  }

  lemma MandatoryRowsValid(m: Matrix)
    requires forall given :: given in m.mandatory ==> ValidRow(m, given.values)
    ensures forall row :: row in MandatoryRows(m) ==> ValidRow(m, row)
  {
  }

  /** One more row, built around a target that is still uncovered. */
  method AddRow(m: Matrix, target: FactorTuple, uncovered: set<FactorTuple>, digest: (Factor, Scalar) -> nat)
    returns (row: Assignment)
    requires WellTyped(m) && Requested(m, target) && Fillable(m, target)
    ensures ValidRow(m, row) && (Covers(row, target) <==> Consistent(target))
  {
    PermittedIsCompletable(m, target);
    var completed := CompleteAssignment(m.domains, m.constraints, Fixed(target), uncovered, digest);
    if completed.None? {
      assert false;
    }
    row := completed.value;
    CoversExtends(row, target);
  }

  /**
   The second loop: each added row covers at least its target, so rows run out before tuples do, unless a target
   asks one factor for two values. Such a target stays for ever and the loop never ends, which is the outcome `None`.
   */
  method CoverRequired(m: Matrix, required: set<FactorTuple>, digest: (nat, Factor, Scalar) -> nat)
    returns (r: Option<seq<Assignment>>)
    requires WellTyped(m)
    requires forall given :: given in m.mandatory ==> ValidRow(m, given.values)
    requires forall item :: item in required ==> Requested(m, item) && Fillable(m, item)
    ensures r.Some? <==> forall item :: item in required ==> Consistent(item)
    ensures r.Some? ==> |r.value| <= |m.mandatory| + |required| && MandatoryRows(m) <= r.value
    ensures r.Some? ==> forall row :: row in r.value ==> ValidRow(m, row)
    ensures r.Some? ==> forall item :: item in required ==> RowsCover(r.value, item)
  {
    hide Requested, Fillable, ValidRow, Consistent;
    var rows := MandatoryRows(m);
    MandatoryRowsValid(m);
    var uncovered := Uncovered(rows, required);
    InconsistentUncovered(rows, required);
    if exists item :: item in uncovered && !Consistent(item) {
      return None;
    }
    UncoveredAtMost(required, uncovered);
    var rowNumber := 0;
    while uncovered != {}
      invariant uncovered <= required
      invariant |rows| + |uncovered| <= |m.mandatory| + |required|
      invariant MandatoryRows(m) <= rows
      invariant forall row :: row in rows ==> ValidRow(m, row)
      invariant forall item :: item in required && item !in uncovered ==> RowsCover(rows, item)
      decreases |uncovered|
    {
      rowNumber := rowNumber + 1;
      var number := rowNumber;
      var target :| target in uncovered;
      var row := AddRow(m, target, uncovered, (f, v) => digest(number, f, v));
      var still := Still(uncovered, row);
      UncoveredAtMost(uncovered - {target}, still);
      RowAdded(rows, row);
      rows := rows + [row];
      uncovered := still;
    }
    r := Some(rows);
  }

  function Uncovered(rows: seq<Assignment>, required: set<FactorTuple>): set<FactorTuple> {
    set item | item in required && !SomeRowCovers(rows, item)
  }

  function Still(uncovered: set<FactorTuple>, row: Assignment): set<FactorTuple> {
    set item | item in uncovered && !Covers(row, item)
  }

  lemma InconsistentUncovered(rows: seq<Assignment>, required: set<FactorTuple>)
    ensures forall item :: item in required && !Consistent(item) ==> item in Uncovered(rows, required)
  {
    forall item | item in required && !Consistent(item) ensures item in Uncovered(rows, required) {
      forall i | 0 <= i < |rows| ensures !Covers(rows[i], item) {
        CoversExtends(rows[i], item);
      }
    }
  }

  lemma RowAdded(rows: seq<Assignment>, row: Assignment)
    ensures forall item :: RowsCover(rows, item) || Covers(row, item) ==> RowsCover(rows + [row], item)
  {
    forall item | RowsCover(rows, item) || Covers(row, item) ensures RowsCover(rows + [row], item) {
      if Covers(row, item) {
        assert Covers((rows + [row])[|rows|], item);
      } else {
        var i :| 0 <= i < |rows| && Covers(rows[i], item);
        assert Covers((rows + [row])[i], item);
      }
    }
  }

  lemma UncoveredAtMost<T>(whole: set<T>, part: set<T>)
    requires part <= whole
    ensures |part| <= |whole|
  {
    assert |whole - part| == |whole| - |part|;
  }

  /** A valid row always holds some requested tuple. */
  lemma RowHoldsTuple(m: Matrix, row: Assignment) returns (item: FactorTuple)
    requires WellTyped(m) && ValidRow(m, row)
    ensures Requested(m, item) && Permitted(m, item)
  {
    var all := FactorList(m.domains);
    var factors := all[..m.strength];
    PositionsScan(factors, all, seq(m.strength, i requires 0 <= i < m.strength => i));
    CombinationsAreScans(all, m.strength, factors);
    forall i | 0 <= i < |factors| ensures factors[i] in row && row[factors[i]] in DomainValues(m.domains, factors[i]) {
      assert factors[i] == m.domains[i].factor && m.domains[i] in m.domains;
      DomainValuesOf(m.domains, m.domains[i]);
    }
    item := Zip(factors, seq(|factors|, i requires 0 <= i < |factors| => row[factors[i]]));
    assert Covers(row, item);
  }

  lemma SatisfiableRequires(m: Matrix, required: set<FactorTuple>)
    requires WellTyped(m) && Satisfiable(m.domains, m.constraints)
    requires forall item :: item in required <==> Requested(m, item) && Permitted(m, item)
    ensures required != {}
  {
    var row :| Completes(m.domains, m.constraints, map[], row);
    CompletesIsValid(m, map[], row);
    var item := RowHoldsTuple(m, row);
    assert item in required;
  }

  // ----- when the second loop never ends

  /** Some risk's focus names a factor twice, and the factor can take two values. */
  ghost predicate Clashing(m: Matrix) {
    exists risk, i, j :: risk in m.risks && risk.focus.Some? && 0 <= i < j < |risk.focus.value.factors|
                         && ClashAt(m, risk.focus.value.factors, i, j)
  }

  ghost predicate ClashAt(m: Matrix, factors: seq<Factor>, i: nat, j: nat)
    requires i < j < |factors|
  {
    factors[i] == factors[j]
    && exists v, w :: v in DomainValues(m.domains, factors[i]) && w in DomainValues(m.domains, factors[i]) && v != w
  }

  lemma InconsistentClashes(m: Matrix, item: FactorTuple)
    requires WellTyped(m) && Requested(m, item) && !Consistent(item)
    ensures Clashing(m)
  {
    var factors :| factors in RequestedSubsets(m) && |item| == |factors| &&
      forall i :: 0 <= i < |item| ==> item[i].0 == factors[i] && item[i].1 in DomainValues(m.domains, factors[i]);
    SubsetsAreDistinct(m, factors);
    hide WellTyped, RequestedSubsets;
    var i, j :| 0 <= i < j < |item| && item[i].0 == item[j].0 && item[i].1 != item[j].1;
    assert factors[i] == factors[j];
    var risk :| risk in m.risks && risk.focus.Some? && Scan(factors, risk.focus.value.factors);
    var positions := ScanFindsPositions(factors, risk.focus.value.factors);
    assert ClashAt(m, risk.focus.value.factors, positions[i], positions[j]);
  }

  /** A shorter subsequence that keeps one repetition. */
  lemma {:induction false} KeepRepetition(s: seq<Factor>, i: nat, j: nat, k: nat)
    returns (t: seq<Factor>, a: nat, b: nat)
    requires i < j < |s| && s[i] == s[j] && 2 <= k <= |s|
    ensures Scan(t, s) && |t| == k && a < b < k && t[a] == t[b] == s[i]
    decreases |s|
  {
    if |s| == k {
      ScanReflexive(s);
      t, a, b := s, i, j;
    } else {
      var d := if i != 0 then 0 else if j != 1 then 1 else 2;
      var shorter := s[..d] + s[d + 1..];
      t, a, b := KeepRepetition(shorter, if d < i then i - 1 else i, if d < j then j - 1 else j, k);
      DropOneScan(s, d);
      ScanTransitive(t, shorter, s);
    }
  }

  lemma RowValue(m: Matrix, row: Assignment, f: Factor)
    requires WellTyped(m) && ValidRow(m, row) && f in Factors(m.domains)
    ensures f in row && row[f] in DomainValues(m.domains, f)
  {
    var i :| 0 <= i < |m.domains| && m.domains[i].factor == f;
    DomainValuesOf(m.domains, m.domains[i]);
  }

  /** A valid row, with another value at the earlier place of a repeated factor. */
  function Twisted(row: Assignment, factors: seq<Factor>, a: nat, x: Scalar): (item: FactorTuple)
    requires a < |factors| && forall i :: 0 <= i < |factors| ==> factors[i] in row
    ensures |item| == |factors|
    ensures forall i :: 0 <= i < |item| ==> item[i] == (factors[i], if i == a then x else row[factors[i]])
  {
    seq(|factors|, i requires 0 <= i < |factors| => (factors[i], if i == a then x else row[factors[i]]))
  }

  lemma TwistedRequested(m: Matrix, row: Assignment, factors: seq<Factor>, a: nat, x: Scalar)
    requires WellTyped(m) && ValidRow(m, row) && factors in RequestedSubsets(m)
    requires a < |factors| && x in DomainValues(m.domains, factors[a])
    requires forall i :: 0 <= i < |factors| ==> factors[i] in row
    ensures Requested(m, Twisted(row, factors, a, x))
  {
    var item := Twisted(row, factors, a, x);
    SubsetsAreDistinct(m, factors);
    hide WellTyped, ValidRow, RequestedSubsets, DomainValues;
    forall i | 0 <= i < |item| ensures item[i].0 == factors[i] && item[i].1 in DomainValues(m.domains, factors[i]) {
      RowValue(m, row, factors[i]);
    }
  }

  lemma TwistedIsFiled(m: Matrix, row: Assignment, factors: seq<Factor>, a: nat, b: nat, x: Scalar)
    requires WellTyped(m) && ValidRow(m, row) && factors in RequestedSubsets(m)
    requires a < b < |factors| && factors[a] == factors[b] && x in DomainValues(m.domains, factors[a])
    requires forall i :: 0 <= i < |factors| ==> factors[i] in row
    requires x != row[factors[b]]
    ensures var item := Twisted(row, factors, a, x); Requested(m, item) && Fillable(m, item) && !Consistent(item)
  {
    var item := Twisted(row, factors, a, x);
    assert item[a].0 == item[b].0 && item[a].1 != item[b].1;
    hide WellTyped, ValidRow, Requested, RequestedSubsets, Fixed, DomainValues;
    TwistedRequested(m, row, factors, a, x);
    RequestedFixed(m, item);
    FixedNames(item);
    forall f | f in Fixed(item) ensures f in row && row[f] == Fixed(item)[f] {
      var i :| LastOf(item, f, i) && item[i] == (f, Fixed(item)[f]);
      assert i != a;
    }
    CompletesIsValid(m, Fixed(item), row);
    assert Completes(m.domains, m.constraints, Fixed(item), row);
  }

  lemma ClashIsFiled(m: Matrix, row: Assignment) returns (item: FactorTuple)
    requires WellTyped(m) && ValidRow(m, row) && Clashing(m)
    ensures Requested(m, item) && Fillable(m, item) && !Consistent(item)
  {
    var risk, i, j :| risk in m.risks && risk.focus.Some? && 0 <= i < j < |risk.focus.value.factors|
                      && ClashAt(m, risk.focus.value.factors, i, j);
    var all, strength := risk.focus.value.factors, risk.focus.value.strength;
    var f := all[i];
    var v, w :| v in DomainValues(m.domains, f) && w in DomainValues(m.domains, f) && v != w;
    var factors, a, b := KeepRepetition(all, i, j, strength);
    CombinationsAreScans(all, strength, factors);
    RiskSubsetsMembers(m.risks, factors);
    SubsetsAreDistinct(m, factors);
    forall k | 0 <= k < |factors| ensures factors[k] in row {
      RowValue(m, row, factors[k]);
    }
    var x := if row[f] == v then w else v;
    TwistedIsFiled(m, row, factors, a, b, x);
    item := Twisted(row, factors, a, x);
  }

  /**
   The generator's promise that every tuple it files as required is covered is false exactly when some risk's
   focus names twice a factor that can take two values.
   */
  lemma NeverCoveredExactly(m: Matrix)
    requires WellTyped(m) && Satisfiable(m.domains, m.constraints)
    ensures (exists item :: Requested(m, item) && Fillable(m, item) && !Permitted(m, item)) <==> Clashing(m)
  {
    hide Requested, Fillable, Permitted, Clashing, Consistent;
    forall item | Requested(m, item) && Fillable(m, item) && !Permitted(m, item)
      ensures Clashing(m)
    {
      PermittedIsCompletable(m, item);
      InconsistentClashes(m, item);
    }
    if Clashing(m) {
      var row :| Completes(m.domains, m.constraints, map[], row);
      CompletesIsValid(m, map[], row);
      var item := ClashIsFiled(m, row);
      PermittedIsCompletable(m, item);
    }
  }

  /** The second loop between two turns. */
  datatype Progress = Progress(rows: seq<Assignment>, uncovered: set<FactorTuple>)

  /** One turn, whatever target the digest picks and whatever completion the search finds. */
  ghost predicate Turn(m: Matrix, before: Progress, after: Progress) {
    exists target, row ::
      && target in before.uncovered && Completes(m.domains, m.constraints, Fixed(target), row)
      && after == Progress(before.rows + [row], Still(before.uncovered, row))
  }

  ghost predicate GoesOn(m: Matrix, before: Progress) {
    exists after :: Turn(m, before, after)
  }

  ghost predicate Turns(m: Matrix, states: seq<Progress>) {
    forall i, j :: 0 <= i && j == i + 1 && j < |states| ==> Turn(m, states[i], states[j])
  }

  /** With an inconsistent tuple among the required ones the loop can always take a turn and never stops. */
  lemma {:induction false} NeverEnds(m: Matrix, required: set<FactorTuple>, item: FactorTuple, states: seq<Progress>)
    requires forall other :: other in required ==> Fillable(m, other)
    requires item in required && !Consistent(item)
    requires states != [] && Turns(m, states)
    requires states[0] == Progress(MandatoryRows(m), Uncovered(MandatoryRows(m), required))
    ensures item in states[|states| - 1].uncovered && states[|states| - 1].uncovered <= required
    ensures GoesOn(m, states[|states| - 1])
  {
    hide Fillable, Consistent, Fixed;
    var n := |states| - 1;
    if n == 0 {
      InconsistentUncovered(MandatoryRows(m), required);
    } else {
      NeverEnds(m, required, item, states[..n]);
      assert states[..n][n - 1] == states[n - 1];
      assert Turn(m, states[n - 1], states[n]);
      var target, row :| target in states[n - 1].uncovered && Completes(m.domains, m.constraints, Fixed(target), row)
                         && states[n] == Progress(states[n - 1].rows + [row], Still(states[n - 1].uncovered, row));
      CoversExtends(row, item);
    }
    AnotherTurn(m, item, states[n]);
  }

  lemma AnotherTurn(m: Matrix, item: FactorTuple, before: Progress)
    requires item in before.uncovered && Fillable(m, item)
    ensures GoesOn(m, before)
  {
    var row :| Completes(m.domains, m.constraints, Fixed(item), row);
    assert Turn(m, before, Progress(before.rows + [row], Still(before.uncovered, row)));
  }

  const CLASH: Matrix :=
    Matrix([Domain("codec", [Text("PCMA"), Text("PCMU")])], [], [], 1,
           [Risk("transcoding", [], 1, Some(Focus(["codec", "codec"], 2)))])

  const CLASH_ROW: Assignment := map["codec" := Text("PCMU")]

  const CLASH_TUPLE: FactorTuple := [("codec", Text("PCMA")), ("codec", Text("PCMU"))]

  lemma ClashRow()
    ensures WellTyped(CLASH) && ValidRow(CLASH, CLASH_ROW)
    ensures DomainValues(CLASH.domains, "codec") == [Text("PCMA"), Text("PCMU")]
  {
    assert CLASH.domains[0].factor == "codec";
    assert Factors(CLASH.domains) == {"codec"};
  }

  lemma ClashSubset()
    ensures ["codec", "codec"] in RequestedSubsets(CLASH)
  {
    var factors := ["codec", "codec"];
    assert CLASH.risks[0] in CLASH.risks;
    ScanReflexive(factors);
    CombinationsAreScans(factors, 2, factors);
    hide Combinations, Scan;
    RiskSubsetsMembers(CLASH.risks, factors);
  }

  /** A focus of one factor twice: the tuple of two codecs is filed as required, and no row has both. */
  lemma TwoCodecsAtOnce()
    ensures WellTyped(CLASH) && Satisfiable(CLASH.domains, CLASH.constraints)
    ensures Requested(CLASH, CLASH_TUPLE) && Fillable(CLASH, CLASH_TUPLE) && !Permitted(CLASH, CLASH_TUPLE)
  {
    ClashRow();
    ClashSubset();
    assert Twisted(CLASH_ROW, ["codec", "codec"], 0, Text("PCMA")) == CLASH_TUPLE;
    hide Combinations, Scan, Completes, Fixed, ValidRow, WellTyped, RequestedSubsets, Requested, DomainValues;
    CompletesIsValid(CLASH, map[], CLASH_ROW);
    TwistedIsFiled(CLASH, CLASH_ROW, ["codec", "codec"], 0, 1, Text("PCMA"));
    PermittedIsCompletable(CLASH, CLASH_TUPLE);
  }

  /**
   The generator as a whole. Requested tuples split into the required ones, each covered by some
   row, and the excluded ones, each covered by no valid row at all; every row is valid, and the
   mandatory rows come first. The only refusals are those of validation and the size limit, and the
   only matrices it does not come back from, here the outcome `Endless`, are the clashing ones.
   */
  method GenerateCoveringArray(m: Matrix, digest: (nat, Factor, Scalar) -> nat)
    returns (r: Result<CoveringArray, MatrixError>)
    requires WellTyped(m)
    ensures r.Ok? ==> forall item :: item in r.value.required <==> Requested(m, item) && Permitted(m, item)
    ensures r.Ok? ==> forall item :: item in ExcludedTuples(r.value.excluded) <==>
            Requested(m, item) && !Permitted(m, item)
    ensures r.Ok? ==> forall item ::
              multiset(TuplesOf(r.value.excluded))[item] == if Permitted(m, item) then 0 else Listing(m, item)
    ensures r.Ok? ==> forall e :: e in r.value.excluded ==> e.reasons == Reasons(m, e.values)
    ensures r.Ok? ==> forall row :: row in r.value.rows ==> ValidRow(m, row)
    ensures r.Ok? ==> forall item :: item in r.value.required ==> RowsCover(r.value.rows, item)
    ensures r.Ok? ==> MandatoryRows(m) <= r.value.rows
    ensures r.Ok? ==> 1 <= |r.value.rows| <= |m.mandatory| + |r.value.required|
    ensures r == Err(TooManyTuples) ==> exists listed :: Oversized(m, listed)
    ensures r.Ok? ==> |r.value.required| + |r.value.excluded| <= MAX_REQUIREMENTS
    ensures r == Err(StateLimit) ==> !SmallSearch(m.domains) && !Accepted(m)
    ensures r.Ok? ==> Accepted(m) && !Clashing(m)
    ensures r == Err(Endless) ==> Clashing(m)
    ensures r.Err? ==> (Accepted(m) <==> r.error.TooManyTuples? || r.error.Endless?)
  {
    hide Requested, Fillable, Permitted, Clashing, Consistent, ValidRow, Satisfiable, Listing, Reasons, RowsCover,
      WellTyped;
    var valid := ValidateMatrix(m);
    if valid.Err? {
      return Err(valid.error);
    }
    var classified := ClassifyAll(m, digest);
    if classified.Err? {
      return Err(classified.error);
    }
    var required, excluded := classified.value.0, classified.value.1;
    RequiredConsistent(m, required);
    var rows := CoverRequired(m, required, digest);
    if rows.None? {
      return Err(Endless);
    }
    Filed(m, required, excluded);
    assert required != {} by {
      SatisfiableRequires(m, required);
    }
    SomeRow(rows.value, required);
    r := Ok(CoveringArray(rows.value, required, excluded));
  }

  lemma SomeRow(rows: seq<Assignment>, required: set<FactorTuple>)
    requires required != {} && forall item :: item in required ==> RowsCover(rows, item)
    ensures rows != []
  {
    var item :| item in required;
    assert RowsCover(rows, item);
  }

  /** What is filed as required is consistent exactly in a matrix that does not clash. */
  lemma RequiredConsistent(m: Matrix, required: set<FactorTuple>)
    requires WellTyped(m) && Satisfiable(m.domains, m.constraints)
    requires forall item :: item in required <==> Requested(m, item) && Fillable(m, item)
    ensures (forall item :: item in required ==> Consistent(item)) <==> !Clashing(m)
  {
    hide Requested, Fillable, Clashing, Consistent;
    forall item | item in required && !Consistent(item) ensures Clashing(m) {
      InconsistentClashes(m, item);
    }
    if Clashing(m) {
      var row :| Completes(m.domains, m.constraints, map[], row);
      CompletesIsValid(m, map[], row);
      var item := ClashIsFiled(m, row);
    }
  }

  /** Without a clash, filing by the search is filing by permission. */
  lemma Filed(m: Matrix, required: set<FactorTuple>, excluded: seq<Excluded>)
    requires WellTyped(m) && !Clashing(m)
    requires forall item :: item in required <==> Requested(m, item) && Fillable(m, item)
    requires forall item :: multiset(TuplesOf(excluded))[item] == if Fillable(m, item) then 0 else Listing(m, item)
    ensures forall item :: item in required <==> Requested(m, item) && Permitted(m, item)
    ensures forall item :: multiset(TuplesOf(excluded))[item] == if Permitted(m, item) then 0 else Listing(m, item)
    ensures forall item :: item in ExcludedTuples(excluded) <==> Requested(m, item) && !Permitted(m, item)
  {
    hide Requested, Fillable, Permitted, Clashing, Consistent, Listing, ExcludedTuples, WellTyped;
    forall item
      ensures item in required <==> Requested(m, item) && Permitted(m, item)
      ensures multiset(TuplesOf(excluded))[item] == if Permitted(m, item) then 0 else Listing(m, item)
      ensures item in ExcludedTuples(excluded) <==> Requested(m, item) && !Permitted(m, item)
    {
      ListedRequested(m, item);
      ExcludedCounted(excluded, item);
      if Requested(m, item) {
        PermittedIsCompletable(m, item);
        if !Consistent(item) {
          InconsistentClashes(m, item);
        }
      }
    }
  }

  lemma ExcludedCounted(excluded: seq<Excluded>, item: FactorTuple)
    ensures item in ExcludedTuples(excluded) <==> multiset(TuplesOf(excluded))[item] > 0
  {
    var tuples := TuplesOf(excluded);
    if item in ExcludedTuples(excluded) {
      var i :| 0 <= i < |excluded| && excluded[i].values == item;
      assert tuples[i] == item;
    }
    if multiset(tuples)[item] > 0 {
      assert item in tuples;
      var i :| 0 <= i < |tuples| && tuples[i] == item;
    }
  }

  /** A broken constraint is visible on the tuple itself, or only on its completions. */
  lemma ReasonsMeaning(m: Matrix, item: FactorTuple)
    ensures AllAllow(m.constraints, Fixed(item)) <==> Violated(m.constraints, Fixed(item)) == []
    ensures AllAllow(m.constraints, Fixed(item)) ==> Reasons(m, item) == ["not-extendable"]
  {
    NoneViolated(m.constraints, Fixed(item));
  }
}
