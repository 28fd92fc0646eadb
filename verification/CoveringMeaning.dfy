/** What is requested of a covering array and why a tuple is excluded, told without enumerating. */
module CoveringMeaning {
  import opened Prelude
  import opened Subsequences
  import opened Constraints
  import opened Covering

  // ----- requested tuples

  /** So many of the named factors, in order and at rising positions. */
  ghost predicate PickedFrom(item: FactorTuple, factors: seq<Factor>, strength: nat) {
    && |item| == strength
    && exists at: seq<nat> ::
      && |at| == |item|
      && (forall i :: 0 <= i < |at| ==> at[i] < |factors| && factors[at[i]] == item[i].0)
      && forall i, j :: 0 <= i < j < |at| ==> at[i] < at[j]
  }

  ghost predicate TakesValues(m: Matrix, item: FactorTuple) {
    forall i :: 0 <= i < |item| ==> exists d :: d in m.domains && d.factor == item[i].0 && item[i].1 in d.values
  }

  function FactorNames(m: Matrix): (r: seq<Factor>)
    ensures |r| == |m.domains| && forall i :: 0 <= i < |r| ==> r[i] == m.domains[i].factor
  {
    seq(|m.domains|, i requires 0 <= i < |m.domains| => m.domains[i].factor)
  }

  /** Values of as many factors as the matrix asks for, or of as many of a risk's factors as the risk asks for. */
  ghost predicate AskedFor(m: Matrix, item: FactorTuple) {
    && TakesValues(m, item)
    && (|| PickedFrom(item, FactorNames(m), m.strength)
        || exists risk :: risk in m.risks && risk.focus.Some?
                          && PickedFrom(item, risk.focus.value.factors, risk.focus.value.strength))
  }

  function NamesOf(item: FactorTuple): (r: seq<Factor>)
    ensures |r| == |item| && forall i :: 0 <= i < |r| ==> r[i] == item[i].0
  {
    seq(|item|, i requires 0 <= i < |item| => item[i].0)
  }

  lemma PickedMeans(item: FactorTuple, factors: seq<Factor>, strength: nat)
    ensures NamesOf(item) in Combinations(factors, strength) <==> PickedFrom(item, factors, strength)
  {
    var names := NamesOf(item);
    CombinationsAreScans(factors, strength, names);
    ScanIsEmbedding(names, factors);
    hide Combinations, Scan;
    if PickedFrom(item, factors, strength) {
      var at: seq<nat> :|
        && |at| == |item|
        && (forall i :: 0 <= i < |at| ==> at[i] < |factors| && factors[at[i]] == item[i].0)
        && forall i, j :: 0 <= i < j < |at| ==> at[i] < at[j];
      assert Embeds(names, factors, at);
    }
    if at :| Embeds(names, factors, at) {
      assert |at| == |item| && forall i :: 0 <= i < |at| ==> at[i] < |factors| && factors[at[i]] == item[i].0;
    }
  }

  lemma ValuesMean(m: Matrix, f: Factor, v: Scalar)
    requires DistinctFactors(m.domains)
    ensures v in DomainValues(m.domains, f) <==> exists d :: d in m.domains && d.factor == f && v in d.values
  {
    forall d | d in m.domains && d.factor == f ensures DomainValues(m.domains, f) == d.values {
      DomainValuesOf(m.domains, d);
    }
    if v in DomainValues(m.domains, f) {
      SomeDomain(m.domains, f, v);
    }
  }

  lemma {:induction false} SomeDomain(domains: seq<Domain>, f: Factor, v: Scalar)
    requires v in DomainValues(domains, f)
    ensures exists d :: d in domains && d.factor == f && v in d.values
  {
    if domains[0].factor != f {
      SomeDomain(domains[1..], f, v);
    }
  }

  lemma SubsetsMean(m: Matrix, item: FactorTuple)
    ensures NamesOf(item) in RequestedSubsets(m) <==>
            || PickedFrom(item, FactorNames(m), m.strength)
            || exists risk :: risk in m.risks && risk.focus.Some?
                              && PickedFrom(item, risk.focus.value.factors, risk.focus.value.strength)
  {
    var names := NamesOf(item);
    assert FactorList(m.domains) == FactorNames(m);
    PickedMeans(item, FactorNames(m), m.strength);
    RiskSubsetsMembers(m.risks, names);
    forall risk | risk in m.risks && risk.focus.Some?
      ensures names in Combinations(risk.focus.value.factors, risk.focus.value.strength) <==>
              PickedFrom(item, risk.focus.value.factors, risk.focus.value.strength)
    {
      PickedMeans(item, risk.focus.value.factors, risk.focus.value.strength);
    }
    hide Combinations, RiskSubsets, PickedFrom;
  }

  lemma NamedSubset(m: Matrix, item: FactorTuple)
    ensures Requested(m, item) <==>
            NamesOf(item) in RequestedSubsets(m)
            && forall i :: 0 <= i < |item| ==> item[i].1 in DomainValues(m.domains, item[i].0)
  {
    hide RequestedSubsets, DomainValues;
    if Requested(m, item) {
      var factors :| factors in RequestedSubsets(m) && |item| == |factors|
        && forall i :: 0 <= i < |item| ==> item[i].0 == factors[i] && item[i].1 in DomainValues(m.domains, factors[i]);
      assert factors == NamesOf(item);
    }
  }

  /** Exactly which tuples are requested. */
  lemma RequestedMeans(m: Matrix, item: FactorTuple)
    requires WellTyped(m)
    ensures Requested(m, item) <==> AskedFor(m, item)
  {
    SubsetsMean(m, item);
    NamedSubset(m, item);
    forall i | 0 <= i < |item|
      ensures item[i].1 in DomainValues(m.domains, item[i].0) <==>
              exists d :: d in m.domains && d.factor == item[i].0 && item[i].1 in d.values
    {
      ValuesMean(m, item[i].0, item[i].1);
    }
    hide RequestedSubsets, Requested, PickedFrom, DomainValues, WellTyped;
  }

  // ----- reasons

  /** Some clause is about an assigned factor and does not allow its value. */
  ghost predicate Denied(p: Predicate, a: Assignment) {
    exists clause :: clause in p && clause.factor in a && a[clause.factor] !in clause.allowed
  }

  /** Every clause is about an assigned factor and allows its value. */
  ghost predicate Granted(p: Predicate, a: Assignment) {
    forall clause :: clause in p ==> clause.factor in a && a[clause.factor] in clause.allowed
  }

  ghost predicate Broken(c: Constraint, a: Assignment) {
    match c
    case Require(_, p) => Denied(p, a)
    case Exclude(_, p) => Granted(p, a)
    case Implies(_, p, q) => Granted(p, a) && Denied(q, a)
  }

  lemma StateMeans(p: Predicate, a: Assignment)
    ensures StateOf(p, a) == No <==> Denied(p, a)
    ensures StateOf(p, a) == Yes <==> Granted(p, a)
  {
    assert forall i :: 0 <= i < |p| ==> p[i] in p;
    if Granted(p, a) && Denied(p, a) {
      assert false;
    }
  }

  /** Exactly when a partial row already breaks a constraint. */
  lemma BrokenMeans(c: Constraint, a: Assignment)
    ensures !Allows(c, a) <==> Broken(c, a)
  {
    match c
    case Require(_, p) => StateMeans(p, a);
    case Exclude(_, p) => StateMeans(p, a);
    case Implies(_, p, q) => StateMeans(p, a); StateMeans(q, a);
  }

  /** The places of the constraints a partial row breaks. */
  ghost predicate BrokenAt(constraints: seq<Constraint>, a: Assignment, at: seq<nat>) {
    && (forall k :: 0 <= k < |at| ==> at[k] < |constraints| && Broken(constraints[at[k]], a))
    && (forall j, k :: 0 <= j < k < |at| ==> at[j] < at[k])
    && forall i :: 0 <= i < |constraints| && Broken(constraints[i], a) ==> i in at
  }

  lemma {:induction false} ViolatedAppends(constraints: seq<Constraint>, c: Constraint, a: Assignment)
    ensures Violated(constraints + [c], a) == Violated(constraints, a) + if Allows(c, a) then [] else [c.id]
  {
    hide Allows;
    if constraints == [] {
      assert [c][1..] == [] && Violated([c][1..], a) == [];
    } else {
      assert (constraints + [c])[1..] == constraints[1..] + [c];
      ViolatedAppends(constraints[1..], c, a);
    }
  }

  lemma {:induction false} ViolatedMeans(constraints: seq<Constraint>, a: Assignment) returns (at: seq<nat>)
    ensures BrokenAt(constraints, a, at) && |Violated(constraints, a)| == |at|
    ensures forall k :: 0 <= k < |at| ==> Violated(constraints, a)[k] == constraints[at[k]].id
  {
    hide Allows, Broken;
    if constraints == [] {
      at := [];
    } else {
      var n := |constraints| - 1;
      var front := ViolatedMeans(constraints[..n], a);
      BrokenMeans(constraints[n], a);
      assert constraints[..n] + [constraints[n]] == constraints;
      ViolatedAppends(constraints[..n], constraints[n], a);
      at := front + if Broken(constraints[n], a) then [n] else [];
      BrokenAfter(constraints, a, front);
      hide BrokenAt, Violated;
    }
  }

  lemma BrokenAfter(constraints: seq<Constraint>, a: Assignment, front: seq<nat>)
    requires constraints != [] && BrokenAt(constraints[..|constraints| - 1], a, front)
    ensures BrokenAt(constraints, a,
                     front + if Broken(constraints[|constraints| - 1], a) then [|constraints| - 1] else [])
    ensures forall k :: 0 <= k < |front| ==> front[k] < |constraints| - 1
  {
    hide Broken;
    var n := |constraints| - 1;
    var at := front + if Broken(constraints[n], a) then [n] else [];
    forall i | 0 <= i < |constraints| && Broken(constraints[i], a) ensures i in at {
      if i < n {
        assert constraints[..n][i] == constraints[i];
      } else {
        assert at[|at| - 1] == n;
      }
    }
  }

  /** What the tuple assigns; of two values for one factor the later one counts. */
  ghost predicate Assigns(item: FactorTuple, a: Assignment) {
    && (forall f :: f in a <==> exists i :: 0 <= i < |item| && item[i].0 == f)
    && forall i :: 0 <= i < |item| && (forall j :: i < j < |item| ==> item[j].0 != item[i].0) ==>
         item[i].0 in a && a[item[i].0] == item[i].1
  }

  lemma FixedMeans(item: FactorTuple)
    ensures Assigns(item, Fixed(item))
  {
    FixedNames(item);
    hide Fixed;
    forall i | 0 <= i < |item| && forall j :: i < j < |item| ==> item[j].0 != item[i].0
      ensures item[i].0 in Fixed(item) && Fixed(item)[item[i].0] == item[i].1
    {
      var k :| LastOf(item, item[i].0, k) && item[k] == (item[i].0, Fixed(item)[item[i].0]);
      assert k == i;
    }
  }

  /** The reasons given for a tuple: the constraints it breaks, in order, or that it cannot be extended. */
  lemma ReasonsMean(m: Matrix, item: FactorTuple) returns (at: seq<nat>)
    ensures Assigns(item, Fixed(item)) && BrokenAt(m.constraints, Fixed(item), at)
    ensures if at == [] then Reasons(m, item) == ["not-extendable"]
            else |Reasons(m, item)| == |at| && forall k :: 0 <= k < |at| ==>
              Reasons(m, item)[k] == m.constraints[at[k]].id
  {
    FixedMeans(item);
    at := ViolatedMeans(m.constraints, Fixed(item));
    hide Violated, BrokenAt, Assigns;
  }
}
