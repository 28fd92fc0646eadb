/** Turning covering rows and call traces into a budgeted campaign, with a ledger of what it covers. */
module MatrixCampaign {
  import opened Prelude
  import opened Sorting
  import opened Subsequences
  import opened Constraints
  import Covering
  import opened ActionTraces
  import opened CampaignPlan
  import PlanMeaning

  datatype CompileError =
    | MatrixFailed(matrix: MatrixError)
    | SequencesFailed(sequences: SequenceError)
    | NoTemplate
    | ZeroBudget
    | BadMaxCases
    | NoCapacity
    | CannotKeepMandatory
    | BadTargets
    | NoSequences
    | NoTargetForRow
    | PlanFailed(plan: PlanError)

  datatype History = History(id: string, factors: Predicate, actions: Trace, weight: nat)

  datatype Candidate = Candidate(
    rowIndex: nat,
    sequenceIndex: nat,
    row: Assignment,
    actions: Trace,
    target: string,
    mandatory: bool,
    riskScore: nat,
    historyScore: nat)

  type TargetIndex = map<(string, string), string>

  // ----- capacity

  /** The compiler divides the ceilings by these before anything has checked them. */
  predicate Positive(template: Case) {
    template.packets > 0 && template.bytes > 0 && template.duration > 0
  }

  /** How many runs of the template the ceilings can pay for. */
  function Capacity(c: Ceilings, template: Case, maxCases: Option<nat>): (n: nat)
    requires Authorized(c) && Positive(template)
    ensures n <= c[Calls]
    ensures n * template.packets <= c[Packets] && n * template.bytes <= c[Bytes]
            && n * template.duration <= c[DurationSeconds]
    ensures maxCases.Some? ==> n <= maxCases.value
    ensures forall more: nat :: more > n ==>
              || more > c[Calls] || more * template.packets > c[Packets] || more * template.bytes > c[Bytes]
              || more * template.duration > c[DurationSeconds] || (maxCases.Some? && more > maxCases.value)
  {
    QuotientFits(c[Packets], template.packets);
    QuotientFits(c[Bytes], template.bytes);
    QuotientFits(c[DurationSeconds], template.duration);
    var counted :=
      Min(Min(c[Packets] / template.packets, c[Bytes] / template.bytes), c[DurationSeconds] / template.duration);
    var called := Min(counted, c[Calls]);
    if maxCases.Some? then Min(called, maxCases.value) else called
  }

  /** The ceilings and the limit pay for so many runs of the template. */
  predicate Pays(c: Ceilings, template: Case, maxCases: Option<int>, n: nat)
    requires Authorized(c)
  {
    && n <= c[Calls] && n * template.packets <= c[Packets] && n * template.bytes <= c[Bytes]
    && n * template.duration <= c[DurationSeconds] && (maxCases.Some? ==> n <= maxCases.value)
  }

  ghost predicate MostPaid(c: Ceilings, template: Case, maxCases: Option<int>, n: nat)
    requires Authorized(c)
  {
    Pays(c, template, maxCases, n) && forall more: nat :: Pays(c, template, maxCases, more) ==> more <= n
  }

  lemma CapacityIsMost(c: Ceilings, template: Case, maxCases: Option<int>, limit: Option<nat>)
    requires Authorized(c) && Positive(template)
    requires limit.Some? == maxCases.Some? && (limit.Some? ==> limit.value == maxCases.value)
    ensures MostPaid(c, template, maxCases, Capacity(c, template, limit))
  {
    hide Capacity;
    var n := Capacity(c, template, limit);
    forall more: nat | Pays(c, template, maxCases, more) ensures more <= n {
    }
  }

  /** A budget that pays for one run is one the campaign compiler can count. */
  lemma FundedIsCountable(c: Ceilings, template: Case, maxCases: Option<nat>)
    requires Authorized(c) && Positive(template) && template.count == 1 && Capacity(c, template, maxCases) >= 1
    ensures Countable(template)
  {
    hide Capacity;
    var n := Capacity(c, template, maxCases);
    ProductsRise(1, n, template.packets);
    ProductsRise(1, n, template.bytes);
    ProductsRise(1, n, template.duration);
  }

  lemma QuotientFits(total: nat, each: nat)
    requires each > 0
    ensures forall n: nat :: n <= total / each <==> n * each <= total
  {
    forall n: nat ensures n <= total / each <==> n * each <= total {
      QuotientBounds(total, each);
      ProductsRise(n, total / each, each);
      ProductsRise(total / each + 1, n, each);
    }
  }

  lemma QuotientBounds(total: nat, each: nat)
    requires each > 0
    ensures total / each * each <= total < (total / each + 1) * each
  {
  }

  lemma ProductsRise(a: nat, b: nat, each: nat)
    ensures a <= b ==> a * each <= b * each
  {
  }

  // ----- candidates

  function RiskScore(risks: seq<Risk>, row: Assignment): nat {
    if risks == [] then 0
    else (if StateOf(risks[0].when, row) == Yes then risks[0].weight else 0) + RiskScore(risks[1..], row)
  }

  function HistoryScore(histories: seq<History>, row: Assignment, actions: Trace): nat {
    if histories == [] then 0
    else
      (if StateOf(histories[0].factors, row) == Yes && Scan(histories[0].actions, actions) then histories[0].weight
       else 0)
      + HistoryScore(histories[1..], row, actions)
  }

  predicate Placeable(row: Assignment) {
    && "addressFamily" in row && row["addressFamily"].Text?
    && "transport" in row && row["transport"].Text?
  }

  function PlaceOf(row: Assignment): (string, string)
    requires Placeable(row)
  {
    (row["addressFamily"].text, row["transport"].text)
  }

  datatype Setup = Setup(
    rows: seq<Assignment>,
    mandatoryCount: nat,
    sequences: seq<Trace>,
    targets: TargetIndex,
    risks: seq<Risk>,
    histories: seq<History>)

  predicate Ready(s: Setup) {
    s.sequences != [] && forall row :: row in s.rows ==> Placeable(row) && PlaceOf(row) in s.targets
  }

  /** Row i runs the sequence it lands on cyclically. */
  function CandidateAt(s: Setup, i: nat): Candidate
    requires Ready(s) && i < |s.rows|
  {
    var row := s.rows[i];
    var actions := s.sequences[i % |s.sequences|];
    Candidate(i + 1, i % |s.sequences| + 1, row, actions, s.targets[PlaceOf(row)], i < s.mandatoryCount,
              RiskScore(s.risks, row), HistoryScore(s.histories, row, actions))
  }

  function Candidates(s: Setup): (r: seq<Candidate>)
    requires Ready(s)
    ensures |r| == |s.rows|
    ensures forall i :: 0 <= i < |r| ==> r[i] == CandidateAt(s, i)
  {
    seq(|s.rows|, i requires 0 <= i < |s.rows| => CandidateAt(s, i))
  }

  predicate RankLe(x: Candidate, y: Candidate) {
    if x.mandatory != y.mandatory then x.mandatory
    else if x.historyScore != y.historyScore then x.historyScore > y.historyScore
    else if x.riskScore != y.riskScore then x.riskScore > y.riskScore
    else if x.rowIndex != y.rowIndex then x.rowIndex < y.rowIndex
    else x.sequenceIndex <= y.sequenceIndex
  }

  function Ranking(s: Setup): seq<Candidate>
    requires Ready(s)
  {
    Sort(RankLe, Candidates(s))
  }

  lemma RankingFacts(s: Setup)
    requires Ready(s)
    ensures |Ranking(s)| == |s.rows|
    ensures Sorted(RankLe, Ranking(s))
    ensures forall c :: c in Ranking(s) <==> exists i :: 0 <= i < |s.rows| && c == CandidateAt(s, i)
    ensures Distinct(Ranking(s))
  {
    var all := Candidates(s);
    SortMembers(RankLe, all);
    SortPermutes(RankLe, all);
    SortSorted(RankLe, all);
    assert Distinct(all);
    PermutedDistinct(all, Ranking(s));
    forall c ensures c in all <==> exists i :: 0 <= i < |s.rows| && c == CandidateAt(s, i) {
      if c in all {
        var i :| 0 <= i < |all| && all[i] == c;
      }
      if i :| 0 <= i < |s.rows| && c == CandidateAt(s, i) {
        assert all[i] == c;
      }
    }
  }

  function UpTo(n: nat): (s: set<nat>)
    ensures |s| == n
    ensures forall k: nat :: k in s <==> 1 <= k <= n
  {
    if n == 0 then {} else UpTo(n - 1) + {n}
  }

  function Elements(s: seq<nat>): set<nat> {
    set x | x in s
  }

  lemma Pigeonhole(indexes: seq<nat>, bound: nat)
    requires Distinct(indexes) && forall i :: 0 <= i < |indexes| ==> 1 <= indexes[i] <= bound
    ensures |indexes| <= bound
  {
    SetOfDistinct(indexes);
    assert Elements(indexes) <= UpTo(bound);
    SubsetSize(Elements(indexes), UpTo(bound));
  }

  lemma {:induction false} SetOfDistinct(s: seq<nat>)
    requires Distinct(s)
    ensures |Elements(s)| == |s|
  {
    if s == [] {
      assert Elements(s) == {};
    } else {
      var n := |s| - 1;
      SetOfDistinct(s[..n]);
      assert s == s[..n] + [s[n]];
      assert Elements(s) == Elements(s[..n]) + {s[n]};
    }
  }

  /** A mandatory candidate cannot be ranked at or beyond the mandatory count. */
  lemma MandatoryRankedEarly(s: Setup, j: nat)
    requires Ready(s) && j < |Ranking(s)| && Ranking(s)[j].mandatory
    ensures j < s.mandatoryCount
  {
    RankingFacts(s);
    hide Ranking, Ready;
    var ranked := Ranking(s);
    var indexes := seq(j + 1, i requires 0 <= i <= j => ranked[i].rowIndex);
    forall i | 0 <= i <= j ensures 1 <= indexes[i] <= s.mandatoryCount {
      assert ranked[i] in ranked;
      assert i < j ==> RankLe(ranked[i], ranked[j]);
    }
    forall i, k | 0 <= i < k <= j ensures indexes[i] != indexes[k] {
      assert ranked[i] in ranked && ranked[k] in ranked;
    }
    Pigeonhole(indexes, s.mandatoryCount);
  }

  function Selected(s: Setup, capacity: nat): seq<Candidate>
    requires Ready(s)
  {
    Ranking(s)[..Min(capacity, |Ranking(s)|)]
  }

  /** Truncation keeps every mandatory row, and drops only candidates ranked after every kept one. */
  lemma SelectionKeepsMandatory(s: Setup, capacity: nat)
    requires Ready(s) && s.mandatoryCount <= capacity && s.mandatoryCount <= |s.rows|
    ensures forall i :: 0 <= i < s.mandatoryCount ==> CandidateAt(s, i) in Selected(s, capacity)
    ensures forall kept, dropped ::
              kept in Selected(s, capacity) && dropped in Ranking(s) && dropped !in Selected(s, capacity) ==>
                RankLe(kept, dropped)
  {
    RankingFacts(s);
    var ranked, kept := Ranking(s), Selected(s, capacity);
    forall i | 0 <= i < s.mandatoryCount ensures CandidateAt(s, i) in kept {
      assert CandidateAt(s, i) in ranked;
      var j :| 0 <= j < |ranked| && ranked[j] == CandidateAt(s, i);
      MandatoryRankedEarly(s, j);
      assert kept[j] == ranked[j];
    }
    assert forall y :: 0 <= y < |kept| ==> ranked[y] == kept[y] && ranked[y] in kept;
    forall k, d | k in kept && d in ranked && d !in kept ensures RankLe(k, d) {
      var x :| 0 <= x < |kept| && kept[x] == k;
      var y :| 0 <= y < |ranked| && ranked[y] == d;
      assert x < |kept| <= y && ranked[x] == k;
    }
  }

  // ----- what the selection means

  /** The weights of the rules a row satisfies, added up. */
  ghost function RiskTotal(risks: seq<Risk>, row: Assignment): nat {
    if risks == [] then 0
    else
      var last := risks[|risks| - 1];
      RiskTotal(risks[..|risks| - 1], row) + if Holds(last.when, row) then last.weight else 0
  }

  /** A past failure speaks for a row when its factors hold and its actions occur in this order in the row's trace. */
  ghost predicate Recalls(h: History, row: Assignment, actions: Trace) {
    Holds(h.factors, row) && exists positions :: Embeds(h.actions, actions, positions)
  }

  ghost function HistoryTotal(histories: seq<History>, row: Assignment, actions: Trace): nat {
    if histories == [] then 0
    else
      var last := histories[|histories| - 1];
      HistoryTotal(histories[..|histories| - 1], row, actions) + if Recalls(last, row, actions) then last.weight else 0
  }

  ghost function TraceOf(s: Setup, i: nat): Trace
    requires s.sequences != []
  {
    s.sequences[i % |s.sequences|]
  }

  /** Row i goes before row j: mandatory rows first, then more history, then more risk, then the earlier row. */
  ghost predicate GoesBefore(s: Setup, i: nat, j: nat)
    requires s.sequences != [] && i < |s.rows| && j < |s.rows|
  {
    var pastI, pastJ :=
      HistoryTotal(s.histories, s.rows[i], TraceOf(s, i)), HistoryTotal(s.histories, s.rows[j], TraceOf(s, j));
    var riskI, riskJ := RiskTotal(s.risks, s.rows[i]), RiskTotal(s.risks, s.rows[j]);
    || (i < s.mandatoryCount <= j)
    || ((i < s.mandatoryCount <==> j < s.mandatoryCount)
        && (pastI > pastJ || (pastI == pastJ && (riskI > riskJ || (riskI == riskJ && i < j)))))
  }

  /** A selected candidate says which row and which trace it is, what they score, and where they go. */
  ghost predicate Describes(s: Setup, c: Candidate) {
    && s.sequences != [] && 1 <= c.rowIndex <= |s.rows|
    && var i := c.rowIndex - 1;
       && c.row == s.rows[i] && c.actions == TraceOf(s, i) && c.sequenceIndex == i % |s.sequences| + 1
       && (c.mandatory <==> i < s.mandatoryCount)
       && c.riskScore == RiskTotal(s.risks, c.row) && c.historyScore == HistoryTotal(s.histories, c.row, c.actions)
       && "addressFamily" in c.row && c.row["addressFamily"].Text? && "transport" in c.row && c.row["transport"].Text?
       && (c.row["addressFamily"].text, c.row["transport"].text) in s.targets
       && c.target == s.targets[(c.row["addressFamily"].text, c.row["transport"].text)]
  }

  ghost predicate Keeps(selected: seq<Candidate>, i: nat) {
    exists k :: 0 <= k < |selected| && selected[k].rowIndex == i + 1
  }

  /** As many rows as the capacity allows, in their order, and each before every row that is dropped. */
  ghost predicate SelectionMeets(s: Setup, capacity: nat, selected: seq<Candidate>) {
    && |selected| == (if |s.rows| < capacity then |s.rows| else capacity)
    && (forall k :: 0 <= k < |selected| ==> Describes(s, selected[k]))
    && (forall k, l :: 0 <= k < l < |selected| ==> GoesBefore(s, selected[k].rowIndex - 1, selected[l].rowIndex - 1))
    && forall k, j :: 0 <= k < |selected| && 0 <= j < |s.rows| && !Keeps(selected, j) ==>
         GoesBefore(s, selected[k].rowIndex - 1, j)
  }

  lemma YesHolds(p: Predicate, a: Assignment)
    ensures StateOf(p, a) == Yes <==> Holds(p, a)
  {
    forall i | 0 <= i < |p| ensures p[i] in p {
    }
  }

  lemma {:induction false} RiskFromFront(risks: seq<Risk>, row: Assignment)
    requires risks != []
    ensures RiskTotal(risks, row)
            == (if Holds(risks[0].when, row) then risks[0].weight else 0) + RiskTotal(risks[1..], row)
  {
    hide Holds;
    var n := |risks| - 1;
    if n > 0 {
      RiskFromFront(risks[..n], row);
      assert risks[..n][1..] == risks[1..][..n - 1];
    } else {
      assert risks[..0] == [] && risks[1..] == [];
    }
  }

  lemma {:induction false} RiskScoreMeans(risks: seq<Risk>, row: Assignment)
    ensures RiskScore(risks, row) == RiskTotal(risks, row)
  {
    hide Holds, StateOf;
    if risks != [] {
      RiskScoreMeans(risks[1..], row);
      YesHolds(risks[0].when, row);
      RiskFromFront(risks, row);
    }
  }

  lemma {:induction false} HistoryFromFront(histories: seq<History>, row: Assignment, actions: Trace)
    requires histories != []
    ensures HistoryTotal(histories, row, actions)
         == (if Recalls(histories[0], row, actions) then histories[0].weight else 0)
            + HistoryTotal(histories[1..], row, actions)
  {
    hide Recalls;
    var n := |histories| - 1;
    if n > 0 {
      HistoryFromFront(histories[..n], row, actions);
      assert histories[..n][1..] == histories[1..][..n - 1];
    } else {
      assert histories[..0] == [] && histories[1..] == [];
    }
  }

  lemma {:induction false} HistoryScoreMeans(histories: seq<History>, row: Assignment, actions: Trace)
    ensures HistoryScore(histories, row, actions) == HistoryTotal(histories, row, actions)
  {
    hide Holds, StateOf, Scan, Embeds;
    if histories != [] {
      HistoryScoreMeans(histories[1..], row, actions);
      YesHolds(histories[0].factors, row);
      ScanIsEmbedding(histories[0].actions, actions);
      HistoryFromFront(histories, row, actions);
    }
  }

  lemma CandidateDescribes(s: Setup, i: nat)
    requires Ready(s) && i < |s.rows|
    ensures Describes(s, CandidateAt(s, i)) && CandidateAt(s, i).rowIndex == i + 1
  {
    assert s.rows[i] in s.rows;
    RiskScoreMeans(s.risks, s.rows[i]);
    HistoryScoreMeans(s.histories, s.rows[i], TraceOf(s, i));
  }

  lemma RankedBefore(s: Setup, i: nat, j: nat)
    requires Ready(s) && i < |s.rows| && j < |s.rows| && i != j
    ensures RankLe(CandidateAt(s, i), CandidateAt(s, j)) <==> GoesBefore(s, i, j)
  {
    RiskScoreMeans(s.risks, s.rows[i]);
    RiskScoreMeans(s.risks, s.rows[j]);
    HistoryScoreMeans(s.histories, s.rows[i], TraceOf(s, i));
    HistoryScoreMeans(s.histories, s.rows[j], TraceOf(s, j));
    hide RiskScore, HistoryScore, RiskTotal, HistoryTotal, Ready;
  }

  lemma RankedDescribes(s: Setup, k: nat) returns (i: nat)
    requires Ready(s) && k < |Ranking(s)|
    ensures i < |s.rows| && Ranking(s)[k] == CandidateAt(s, i) && Ranking(s)[k].rowIndex == i + 1
    ensures Describes(s, Ranking(s)[k])
  {
    RankingFacts(s);
    hide Ranking, Ready, Describes;
    assert Ranking(s)[k] in Ranking(s);
    i :| 0 <= i < |s.rows| && Ranking(s)[k] == CandidateAt(s, i);
    CandidateDescribes(s, i);
  }

  ghost predicate InOrder(s: Setup, x: Candidate, y: Candidate) {
    && s.sequences != [] && 1 <= x.rowIndex <= |s.rows| && 1 <= y.rowIndex <= |s.rows|
    && GoesBefore(s, x.rowIndex - 1, y.rowIndex - 1)
  }

  lemma RankedInOrder(s: Setup, k: nat, l: nat)
    requires Ready(s) && k < l < |Ranking(s)|
    ensures InOrder(s, Ranking(s)[k], Ranking(s)[l])
  {
    var i := RankedDescribes(s, k);
    var j := RankedDescribes(s, l);
    RankingFacts(s);
    assert s.sequences != [];
    hide Ranking, Ready, Describes, GoesBefore;
    assert RankLe(Ranking(s)[k], Ranking(s)[l]) && Ranking(s)[k] != Ranking(s)[l];
    RankedBefore(s, i, j);
  }

  lemma DroppedRanked(s: Setup, capacity: nat, j: nat) returns (l: nat)
    requires Ready(s) && j < |s.rows| && !Keeps(Selected(s, capacity), j)
    ensures |Selected(s, capacity)| <= l < |Ranking(s)| && Ranking(s)[l].rowIndex == j + 1
  {
    RankingFacts(s);
    CandidateDescribes(s, j);
    assert CandidateAt(s, j) in Ranking(s);
    hide Ranking, Ready, Describes;
    l :| 0 <= l < |Ranking(s)| && Ranking(s)[l] == CandidateAt(s, j);
    var kept := Selected(s, capacity);
    assert forall k :: 0 <= k < |kept| ==> kept[k].rowIndex != j + 1 && kept[k] == Ranking(s)[k];
  }

  /** The selection is by rank alone, and the rank is what the rows and traces score. */
  lemma SelectionIsMet(s: Setup, capacity: nat)
    requires Ready(s)
    ensures SelectionMeets(s, capacity, Selected(s, capacity))
  {
    RankingFacts(s);
    var ranked, kept := Ranking(s), Selected(s, capacity);
    assert |kept| == if |s.rows| < capacity then |s.rows| else capacity;
    assert s.sequences != [] && forall k :: 0 <= k < |kept| ==> kept[k] == ranked[k];
    hide Ranking, Ready, Selected, GoesBefore, Describes, Keeps;
    forall k | 0 <= k < |kept| ensures Describes(s, kept[k]) && 1 <= kept[k].rowIndex <= |s.rows| {
      var _ := RankedDescribes(s, k);
    }
    forall k, l | 0 <= k < l < |kept| ensures InOrder(s, kept[k], kept[l]) {
      RankedInOrder(s, k, l);
    }
    forall k, j | 0 <= k < |kept| && 0 <= j < |s.rows| && !Keeps(kept, j)
      ensures GoesBefore(s, kept[k].rowIndex - 1, j)
    {
      var l := DroppedRanked(s, capacity, j);
      RankedInOrder(s, k, l);
    }
  }

  // ----- ledgers

  datatype LedgerEntry<T> = LedgerEntry(tuple: T, coveredBy: seq<nat>)

  /** Positions of the selected candidates whose row covers the tuple. */
  function FactorCoverage(selected: seq<Candidate>, item: FactorTuple): seq<nat> {
    if selected == [] then []
    else
      var n := |selected| - 1;
      FactorCoverage(selected[..n], item) + (if Covers(selected[n].row, item) then [n] else [])
  }

  function TraceCoverage(selected: seq<Candidate>, item: Trace): seq<nat> {
    if selected == [] then []
    else
      var n := |selected| - 1;
      TraceCoverage(selected[..n], item) + (if Scan(item, selected[n].actions) then [n] else [])
  }

  predicate Rising(s: seq<nat>) {
    forall i, j :: 0 <= i < j < |s| ==> s[i] < s[j]
  }

  lemma RisingWith(s: seq<nat>, n: nat)
    requires Rising(s) && forall k :: k in s ==> k < n
    ensures Rising(s + [n])
  {
    forall i | 0 <= i < |s| ensures s[i] < n {
      assert s[i] in s;
    }
  }

  lemma {:induction false} FactorCoverageIs(selected: seq<Candidate>, item: FactorTuple)
    ensures forall k: nat :: k in FactorCoverage(selected, item) <==> k < |selected| && Covers(selected[k].row, item)
    ensures Rising(FactorCoverage(selected, item))
  {
    if selected != [] {
      var n := |selected| - 1;
      FactorCoverageIs(selected[..n], item);
      RisingWith(FactorCoverage(selected[..n], item), n);
    }
  }

  lemma {:induction false} TraceCoverageIs(selected: seq<Candidate>, item: Trace)
    ensures forall k: nat :: k in TraceCoverage(selected, item) <==> k < |selected| && Scan(item, selected[k].actions)
    ensures Rising(TraceCoverage(selected, item))
  {
    if selected != [] {
      var n := |selected| - 1;
      TraceCoverageIs(selected[..n], item);
      RisingWith(TraceCoverage(selected[..n], item), n);
    }
  }

  lemma NonEmptyWitness(s: seq<nat>, k: nat)
    requires k in s
    ensures s != []
  {
  }

  lemma NothingDropped(s: Setup, capacity: nat, i: nat) returns (j: nat)
    requires Ready(s) && i < |s.rows| <= capacity
    ensures j < |Selected(s, capacity)| && Selected(s, capacity)[j] == CandidateAt(s, i)
  {
    RankingFacts(s);
    hide Ranking;
    assert CandidateAt(s, i) in Ranking(s);
    assert Selected(s, capacity) == Ranking(s);
    j :| 0 <= j < |Ranking(s)| && Ranking(s)[j] == CandidateAt(s, i);
  }

  /** Nothing truncated: every tuple some row covers is reported covered. */
  lemma UntruncatedFactorCoverage(s: Setup, capacity: nat, item: FactorTuple)
    requires Ready(s) && |s.rows| <= capacity && Covering.RowsCover(s.rows, item)
    ensures FactorCoverage(Selected(s, capacity), item) != []
  {
    var i :| 0 <= i < |s.rows| && Covers(s.rows[i], item);
    var j := NothingDropped(s, capacity, i);
    FactorCoverageIs(Selected(s, capacity), item);
    NonEmptyWitness(FactorCoverage(Selected(s, capacity), item), j);
  }

  lemma OwnTrace(s: Setup, i: nat)
    requires Ready(s) && i < |s.sequences| <= |s.rows|
    ensures CandidateAt(s, i).actions == s.sequences[i]
  {
    assert i % |s.sequences| == i;
    hide RiskScore, HistoryScore;
  }

  /** Nothing truncated and at least one row per sequence: every action tuple is reported covered. */
  lemma UntruncatedTraceCoverage(s: Setup, capacity: nat, item: Trace, strength: nat)
    requires Ready(s) && |s.sequences| <= |s.rows| <= capacity
    requires Together(s.sequences, strength, {item})
    ensures TraceCoverage(Selected(s, capacity), item) != []
  {
    hide OrderedSubsequences;
    assert item in {item};
    var i :| 0 <= i < |s.sequences| && item in OrderedSubsequences(s.sequences[i], strength);
    OrderedSubsequencesAreScans(s.sequences[i], strength);
    OwnTrace(s, i);
    var j := NothingDropped(s, capacity, i);
    hide Ready, CandidateAt, Selected, Scan, TraceCoverage, Together;
    TraceCoverageIs(Selected(s, capacity), item);
    NonEmptyWitness(TraceCoverage(Selected(s, capacity), item), j);
  }

  // ----- generated cases and their plan

  /** Decimal digits, zero-padded to the width. */
  function Padded(n: nat, width: nat): (r: string)
    ensures r != [] && forall i :: 0 <= i < |r| ==> '0' <= r[i] <= '9'
    decreases n, width
  {
    var digit := ('0' as int + n % 10) as char;
    if n < 10 && width <= 1 then [digit] else Padded(n / 10, if width > 0 then width - 1 else 0) + [digit]
  }

  /** The case id; `fingerprint` stands for the hash suffix. */
  function CaseId(ordinal: nat, fingerprint: Candidate -> string, c: Candidate): string {
    "matrix-" + Padded(ordinal, 4) + "-" + fingerprint(c)
  }

  function GeneratedBy(c: Candidate): Generated {
    Generated(c.rowIndex, c.sequenceIndex, c.row, c.actions)
  }

  function CasesFor(selected: seq<Candidate>, template: Case, fingerprint: Candidate -> string): (cases: seq<Case>)
    ensures |cases| == |selected|
    ensures forall i :: 0 <= i < |cases| ==>
              cases[i] == template.(id := CaseId(i + 1, fingerprint, selected[i]), target := selected[i].target,
                                    generated := Some(GeneratedBy(selected[i])))
  {
    seq(|selected|, i requires 0 <= i < |selected| =>
      template.(id := CaseId(i + 1, fingerprint, selected[i]), target := selected[i].target,
                generated := Some(GeneratedBy(selected[i]))))
  }

  lemma {:induction false} PaddedInjective(a: nat, b: nat, width: nat)
    requires Padded(a, width) == Padded(b, width)
    ensures a == b
    decreases a, width
  {
    var x, y := Padded(a, width), Padded(b, width);
    assert x[|x| - 1] == y[|y| - 1];
    if !(a < 10 && width <= 1) && !(b < 10 && width <= 1) {
      var narrower := if width > 0 then width - 1 else 0;
      assert x[..|x| - 1] == Padded(a / 10, narrower) && y[..|y| - 1] == Padded(b / 10, narrower);
      PaddedInjective(a / 10, b / 10, narrower);
    }
  }

  /** The number that decimal digits spell. */
  function Spelled(s: string): int {
    if s == [] then 0 else 10 * Spelled(s[..|s| - 1]) + (s[|s| - 1] as int - '0' as int)
  }

  /** Digits of the number, as many as asked for, and more only as the number needs them. */
  lemma {:induction false} PaddedSpells(n: nat, width: nat)
    ensures var s := Padded(n, width);
            && Spelled(s) == n && |s| >= width && (|s| > width && |s| > 1 ==> s[0] != '0')
    decreases n, width
  {
    var s := Padded(n, width);
    if n < 10 && width <= 1 {
      assert s[..0] == [];
    } else {
      var narrower := if width > 0 then width - 1 else 0;
      PaddedSpells(n / 10, narrower);
      assert s[..|s| - 1] == Padded(n / 10, narrower);
      SpelledPositive(n / 10, narrower);
    }
  }

  lemma SpelledPositive(n: nat, width: nat)
    ensures |Padded(n, width)| == 1 && width == 0 && n > 0 ==> Padded(n, width)[0] != '0'
  {
  }

  /** The word matrix, at least four digits that spell the number, and the fingerprint. */
  ghost predicate IdReads(id: string, ordinal: nat, fingerprint: string) {
    exists digits: string ::
      && id == "matrix-" + digits + "-" + fingerprint && |digits| >= 4 && Spelled(digits) == ordinal
      && (forall i :: 0 <= i < |digits| ==> '0' <= digits[i] <= '9') && (|digits| > 4 ==> digits[0] != '0')
  }

  lemma CaseIdReads(ordinal: nat, fingerprint: Candidate -> string, c: Candidate)
    ensures IdReads(CaseId(ordinal, fingerprint, c), ordinal, fingerprint(c))
  {
    PaddedSpells(ordinal, 4);
    hide Padded, Spelled;
    assert CaseId(ordinal, fingerprint, c) == "matrix-" + Padded(ordinal, 4) + "-" + fingerprint(c);
  }

  lemma FirstDash(x: string, s: string)
    requires '-' !in x
    ensures (x + "-" + s)[|x|] == '-' && (x + "-" + s)[..|x|] == x
    ensures forall i :: 0 <= i < |x| ==> (x + "-" + s)[i] != '-'
  {
  }

  lemma UntilDash(x: string, y: string, s: string, t: string)
    requires x + "-" + s == y + "-" + t && '-' !in x && '-' !in y
    ensures x == y
  {
    FirstDash(x, s);
    FirstDash(y, t);
    assert |x| == |y|;
  }

  /** Different ordinals give different ids. */
  lemma CaseIdsDiffer(i: nat, j: nat, fingerprint: Candidate -> string, c: Candidate, d: Candidate)
    requires CaseId(i, fingerprint, c) == CaseId(j, fingerprint, d)
    ensures i == j
  {
    var x, y := Padded(i, 4), Padded(j, 4);
    var s, t := CaseId(i, fingerprint, c), CaseId(j, fingerprint, d);
    assert s[7..] == x + "-" + fingerprint(c) && t[7..] == y + "-" + fingerprint(d);
    UntilDash(x, y, fingerprint(c), fingerprint(d));
    PaddedInjective(i, j, 4);
  }

  ghost predicate Runnable(c: Case, template: Case, targets: seq<Resolved>, matrix: Option<Matrix>) {
    && c.kind == Call && c.count == 1
    && c.packets == template.packets && c.bytes == template.bytes && c.duration == template.duration
    && FindTarget(targets, c.target).Some?
    && c.generated.Some? && GeneratedOk(c.generated.value, matrix, FindTarget(targets, c.target).value)
  }

  function Times(n: nat, template: Case): Budget {
    Budget(n, n * template.packets, n * template.bytes, n * template.duration)
  }

  function CaseIds(cases: seq<Case>): set<string> {
    set i | 0 <= i < |cases| :: cases[i].id
  }

  lemma WithinFront(n: nat, template: Case, ceilings: Ceilings)
    requires ceilings.Keys == COUNTERS && Countable(template)
    requires Within(Times(n + 1, template), ceilings)
    ensures Within(Times(n, template), ceilings)
  {
  }

  lemma UniformStep(ceilings: Ceilings, targets: seq<Resolved>, matrix: Option<Matrix>, template: Case, tally: Tally,
                    c: Case)
    requires Authorized(ceilings) && Countable(template)
    requires Runnable(c, template, targets, matrix) && c.id !in tally.seen
    requires tally.totals == Times(tally.count, template)
    requires Within(Times(tally.count + 1, template), ceilings)
    ensures tally.count + 1 <= MAX_PLAN_STEPS ==>
              && AddCase(ceilings, targets, matrix, tally, c).Ok?
              && var next := AddCase(ceilings, targets, matrix, tally, c).value;
                 && next.totals == Times(tally.count + 1, template) && next.count == tally.count + 1
                 && |next.steps| == |tally.steps| + 1 && next.seen == tally.seen + {c.id}
    ensures tally.count + 1 > MAX_PLAN_STEPS ==> AddCase(ceilings, targets, matrix, tally, c) == Err(TooManySteps)
  {
    hide GeneratedOk, FindTarget;
    var n := tally.count;
    Smaller(n, template.packets);
    Smaller(n, template.bytes);
    Smaller(n, template.duration);
    assert n + 1 <= ceilings[Packets] by {
      assert n + 1 <= (n + 1) * template.packets;
    }
    assert Countable(c);
    assert Scale(c.count, PerRun(c)) == Some(Budget(1, template.packets, template.bytes, template.duration));
  }

  ghost predicate UniformOutcome(r: Result<Tally, PlanError>, template: Case, cases: seq<Case>) {
    if |cases| > MAX_PLAN_STEPS then r == Err(TooManySteps)
    else
      && r.Ok? && r.value.totals == Times(|cases|, template)
      && r.value.count == |cases| == |r.value.steps| && r.value.seen == CaseIds(cases)
  }

  lemma LastCase(ceilings: Ceilings, targets: seq<Resolved>, matrix: Option<Matrix>, cases: seq<Case>)
    requires ceilings.Keys == COUNTERS && cases != []
    ensures var front := AddCases(ceilings, targets, matrix, cases[..|cases| - 1]);
            AddCases(ceilings, targets, matrix, cases) ==
            if front.Err? then front else AddCase(ceilings, targets, matrix, front.value, cases[|cases| - 1])
  {
    hide AddCase;
  }

  lemma LastCaseId(cases: seq<Case>)
    requires cases != []
    ensures CaseIds(cases) == CaseIds(cases[..|cases| - 1]) + {cases[|cases| - 1].id}
  {
  }

  lemma NewCaseId(cases: seq<Case>)
    requires cases != [] && forall i, j :: 0 <= i < j < |cases| ==> cases[i].id != cases[j].id
    ensures cases[|cases| - 1].id !in CaseIds(cases[..|cases| - 1])
  {
  }

  /** n equal single-run call cases: accepted exactly up to the planner limit, at n times the template budget. */
  lemma {:induction false} UniformCases(ceilings: Ceilings, targets: seq<Resolved>, matrix: Option<Matrix>,
                                        template: Case,
                                          cases: seq<Case>)
    requires Authorized(ceilings) && Countable(template)
    requires forall i :: 0 <= i < |cases| ==> Runnable(cases[i], template, targets, matrix)
    requires forall i, j :: 0 <= i < j < |cases| ==> cases[i].id != cases[j].id
    requires Within(Times(|cases|, template), ceilings)
    ensures UniformOutcome(AddCases(ceilings, targets, matrix, cases), template, cases)
  {
    if cases == [] {
      assert CaseIds(cases) == {};
    } else {
      var n := |cases| - 1;
      var front := cases[..n];
      WithinFront(n, template, ceilings);
      NewCaseId(cases);
      LastCaseId(cases);
      hide AddCases, AddCase, Runnable, Times, Within, CaseIds, Countable, Authorized, UniformOutcome;
      UniformCases(ceilings, targets, matrix, template, front);
      UniformNext(ceilings, targets, matrix, template, cases);
    }
  }

  lemma UniformNext(ceilings: Ceilings, targets: seq<Resolved>, matrix: Option<Matrix>, template: Case,
                    cases: seq<Case>)
    requires Authorized(ceilings) && Countable(template) && cases != [] && Within(Times(|cases|, template), ceilings)
    requires Runnable(cases[|cases| - 1], template, targets, matrix)
    requires cases[|cases| - 1].id !in CaseIds(cases[..|cases| - 1])
    requires CaseIds(cases) == CaseIds(cases[..|cases| - 1]) + {cases[|cases| - 1].id}
    requires UniformOutcome(AddCases(ceilings, targets, matrix, cases[..|cases| - 1]), template, cases[..|cases| - 1])
    ensures UniformOutcome(AddCases(ceilings, targets, matrix, cases), template, cases)
  {
    hide AddCases, AddCase, Runnable, Times, Within, CaseIds, Countable;
    var front, c := cases[..|cases| - 1], cases[|cases| - 1];
    LastCase(ceilings, targets, matrix, cases);
    if |front| <= MAX_PLAN_STEPS {
      UniformStep(ceilings, targets, matrix, template, AddCases(ceilings, targets, matrix, front).value, c);
    }
  }

  lemma Smaller(n: nat, each: nat)
    requires each > 0
    ensures (n + 1) * each == n * each + each
    ensures n <= n * each && n + 1 <= (n + 1) * each
  {
  }

  // ----- placing rows on targets

  /** Where a literal target is. */
  function KeyOf(t: Target): (string, string)
    requires t.host.Literal?
  {
    (Family(t.host.address).text, t.transport)
  }

  /** All targets are literal, and no two are in the same place. */
  ghost predicate Indexable(targets: seq<Target>) {
    && (forall i :: 0 <= i < |targets| ==> targets[i].host.Literal?)
    && forall i, j :: 0 <= i < j < |targets| ==> KeyOf(targets[i]) != KeyOf(targets[j])
  }

  /** Some target is where the row wants it. */
  ghost predicate Served(targets: seq<Target>, row: Assignment)
    requires Placeable(row)
  {
    exists t :: t in targets && t.host.Literal? && KeyOf(t) == PlaceOf(row)
  }

  /** The index holds exactly the places of the first n targets, under their names. */
  ghost predicate IndexesUpTo(targets: seq<Target>, n: nat, index: TargetIndex)
    requires n <= |targets|
  {
    && (forall i :: 0 <= i < n ==> targets[i].host.Literal?)
    && (forall i, j :: 0 <= i < j < n ==> KeyOf(targets[i]) != KeyOf(targets[j]))
    && (forall i :: 0 <= i < n ==> KeyOf(targets[i]) in index && index[KeyOf(targets[i])] == targets[i].name)
    && forall key :: key in index ==> exists i :: 0 <= i < n && KeyOf(targets[i]) == key
  }

  lemma OneMoreTarget(targets: seq<Target>, n: nat, index: TargetIndex)
    requires n < |targets| && IndexesUpTo(targets, n, index) && targets[n].host.Literal?
    ensures KeyOf(targets[n]) in index ==> !Indexable(targets)
    ensures KeyOf(targets[n]) !in index ==> IndexesUpTo(targets, n + 1, index[KeyOf(targets[n]) := targets[n].name])
  {
    hide KeyOf;
    var key, more := KeyOf(targets[n]), index[KeyOf(targets[n]) := targets[n].name];
    if key in index {
      var i :| 0 <= i < n && KeyOf(targets[i]) == key;
    } else {
      forall k | k in more ensures exists i :: 0 <= i <= n && KeyOf(targets[i]) == k {
        if k != key {
          var i :| 0 <= i < n && KeyOf(targets[i]) == k;
        }
      }
    }
  }

  lemma AllIndexed(targets: seq<Target>, index: TargetIndex)
    requires IndexesUpTo(targets, |targets|, index)
    ensures Indexable(targets)
    ensures forall t :: t in targets ==> t.host.Literal? && KeyOf(t) in index && index[KeyOf(t)] == t.name
    ensures forall key :: key in index ==> Indexed(targets, key, index[key])
  {
    hide Family;
    forall key | key in index ensures Indexed(targets, key, index[key]) {
      var i :| 0 <= i < |targets| && KeyOf(targets[i]) == key;
      assert targets[i] in targets;
    }
  }

  /** Index literal targets by address family and transport; ambiguity and host names are refused. */
  method IndexTargets(targets: seq<Target>) returns (r: Result<TargetIndex, CompileError>)
    ensures r.Ok? <==> Indexable(targets)
    ensures r.Ok? ==> forall t :: t in targets ==> t.host.Literal? && KeyOf(t) in r.value && r.value[KeyOf(t)] == t.name
    ensures r.Ok? ==> forall key :: key in r.value ==> Indexed(targets, key, r.value[key])
    ensures r.Err? ==> r.error == BadTargets
  {
    var index: TargetIndex := map[];
    assert IndexesUpTo(targets, 0, index);
    for i := 0 to |targets|
      invariant IndexesUpTo(targets, i, index)
    {
      var t := targets[i];
      if t.host.Name? {
        return Err(BadTargets);
      }
      OneMoreTarget(targets, i, index);
      hide IndexesUpTo, KeyOf;
      var key := KeyOf(t);
      if key in index {
        return Err(BadTargets);
      }
      index := index[key := t.name];
    }
    AllIndexed(targets, index);
    r := Ok(index);
  }

  ghost predicate Indexed(targets: seq<Target>, key: (string, string), name: string) {
    exists t ::
      t in targets && t.host.Literal? && t.name == name && Family(t.host.address).text == key.0 && t.transport == key.1
  }

  lemma {:induction false} FindAppended(targets: seq<Resolved>, more: Resolved, name: string)
    ensures FindTarget(targets + [more], name) ==
            if FindTarget(targets, name).Some? then FindTarget(targets, name)
            else if more.name == name then Some(more) else None
  {
    if targets != [] {
      assert (targets + [more])[1..] == targets[1..] + [more];
      FindAppended(targets[1..], more, name);
    }
  }

  lemma {:induction false} FindNone(targets: seq<Resolved>, name: string)
    ensures FindTarget(targets, name).None? <==> forall t :: t in targets ==> t.name != name
  {
    if targets != [] {
      FindNone(targets[1..], name);
      assert targets == [targets[0]] + targets[1..];
    }
  }

  /** A literal target that resolves is found again under its name, at its own address. */
  lemma {:induction false} LiteralFound(m: Manifest, resolver: Resolver, targets: seq<Target>, t: Target)
    requires ResolveAll(m, resolver, targets).Ok? && t in targets && t.host.Literal?
    ensures FindTarget(ResolveAll(m, resolver, targets).value.targets, t.name) ==
            Some(Resolved(t.name, [t.host.address], t.transport, t.port, t.credential))
  {
    var n := |targets| - 1;
    var net := ResolveAll(m, resolver, targets[..n]).value;
    var last := targets[n];
    var more := ResolveAll(m, resolver, targets).value.targets[|net.targets|];
    FindAppended(net.targets, more, t.name);
    if t in targets[..n] {
      LiteralFound(m, resolver, targets[..n], t);
    } else {
      assert targets == targets[..n] + [last];
      FindNone(net.targets, t.name);
    }
  }

  // ----- the compiler

  datatype Compilation = Compilation(
    setup: Setup,
    capacity: nat,
    selected: seq<Candidate>,
    plan: Plan,
    factorLedger: map<FactorTuple, seq<nat>>,
    traceLedger: map<Trace, seq<nat>>)

  /** Address family and transport are factors with textual values. */
  ghost predicate HasPlaceFactors(m: Matrix) {
    && "addressFamily" in Factors(m.domains) && "transport" in Factors(m.domains)
    && forall d, v :: d in m.domains && d.factor in {"addressFamily", "transport"} && v in d.values ==> v.Text?
  }

  lemma ValidRowsPlaceable(m: Matrix, row: Assignment)
    requires HasPlaceFactors(m) && ValidRow(m, row)
    ensures Placeable(row)
  {
  }

  /** The candidate built on a valid row and a valid trace passes the campaign compiler's own checks. */
  lemma CandidateRunnable(m: Matrix, source: Manifest, resolver: Resolver, setup: Setup, template: Case, i: nat,
                          c: Case)
    requires WellTyped(m) && Ready(setup) && i < |setup.rows|
    requires ValidRow(m, setup.rows[i])
    requires forall s :: s in setup.sequences ==> ValidCall(s)
    requires forall t :: t in source.targets ==> t.host.Literal?
    requires forall key :: key in setup.targets ==> Indexed(source.targets, key, setup.targets[key])
    requires ResolveAll(source, resolver, source.targets).Ok?
    requires template.kind == Call && template.count == 1
    requires var candidate := CandidateAt(setup, i);
             c == template.(id := c.id, target := candidate.target,
                            generated := Some(GeneratedBy(candidate)))
    ensures Runnable(c, template, ResolveAll(source, resolver, source.targets).value.targets, Some(m))
  {
    hide ResolveAll, ValidCall, FindTarget;
    var row := setup.rows[i];
    assert row in setup.rows;
    var key := PlaceOf(row);
    var t :| t in source.targets && t.host.Literal? && t.name == setup.targets[key]
             && Family(t.host.address).text == key.0 && t.transport == key.1;
    LiteralFound(source, resolver, source.targets, t);
    CompletesIsValid(m, map[], row);
    NoneViolated(m.constraints, row);
    assert setup.sequences[i % |setup.sequences|] in setup.sequences;
  }

  function DropDashes(s: string): string {
    if s != [] && s[|s| - 1] == '-' then DropDashes(s[..|s| - 1]) else s
  }

  function MatrixName(name: string): string {
    DropDashes(name[..Min(56, |name|)]) + "-matrix"
  }

  /** The source name, of which at most 56 characters are kept and no hyphen at the end of those, and a suffix. */
  ghost predicate NamedAfter(source: string, name: string) {
    exists kept: nat ::
      && kept <= |source| && kept <= 56 && name == source[..kept] + "-matrix"
      && (kept > 0 ==> source[kept - 1] != '-')
      && forall i :: kept <= i < |source| && i < 56 ==> source[i] == '-'
  }

  lemma {:induction false} DashesDropped(s: string)
    ensures var kept := DropDashes(s);
            && |kept| <= |s| && kept == s[..|kept|] && (kept != [] ==> kept[|kept| - 1] != '-')
            && forall i :: |kept| <= i < |s| ==> s[i] == '-'
  {
    if s != [] && s[|s| - 1] == '-' {
      DashesDropped(s[..|s| - 1]);
    }
  }

  lemma MatrixNameReads(name: string)
    ensures NamedAfter(name, MatrixName(name))
  {
    var front := name[..Min(56, |name|)];
    DashesDropped(front);
    var kept := |DropDashes(front)|;
    hide DropDashes;
    assert name[..kept] == front[..kept];
    assert forall i :: kept <= i < |front| ==> name[i] == front[i];
  }

  function LiteralOnly(): Resolver {
    host => Err(Unresolved)
  }

  /** The manifest handed to the campaign compiler: the source with its cases replaced. */
  function Rewritten(source: Manifest, cases: seq<Case>): Manifest {
    source.(cases := cases, name := MatrixName(source.name))
  }

  lemma RewritingKeepsTargets(source: Manifest, cases: seq<Case>, targets: seq<Target>)
    ensures ResolveAll(Rewritten(source, cases), LiteralOnly(), targets) == ResolveAll(source, LiteralOnly(), targets)
    ensures MatrixAuthorized(Rewritten(source, cases)) == MatrixAuthorized(source)
  {
  }

  lemma NothingLowered(c: Ceilings)
    requires Authorized(c)
    ensures ApplyReductions(c, map[]) == Ok(c)
  {
    assert ApplyReductions(c, map[]).value == c;
  }

  lemma AllIdsDiffer(selected: seq<Candidate>, template: Case, fingerprint: Candidate -> string)
    ensures var cases := CasesFor(selected, template, fingerprint);
            forall i, j :: 0 <= i < j < |cases| ==> cases[i].id != cases[j].id
  {
    var cases := CasesFor(selected, template, fingerprint);
    forall i, j | 0 <= i < j < |cases| ensures cases[i].id != cases[j].id {
      if cases[i].id == cases[j].id {
        CaseIdsDiffer(i + 1, j + 1, fingerprint, selected[i], selected[j]);
      }
    }
  }

  /** What the campaign compiler finds wrong with a selection of the given size, if anything. */
  ghost function PlanFault(source: Manifest, selected: nat): Option<PlanError> {
    if !MatrixAuthorized(source) then Some(UnauthorizedMatrix)
    else
      match ResolveAll(source, LiteralOnly(), source.targets)
      case Err(e) => Some(e)
      case Ok(_) => if selected > MAX_PLAN_STEPS then Some(TooManySteps) else None
  }

  /** What compiling the rewritten manifest gives: exactly that fault, or one step a case and the uniform totals. */
  lemma RewrittenPlan(m: Matrix, source: Manifest, setup: Setup, template: Case, selected: seq<Candidate>,
                      fingerprint: Candidate -> string, digest: string)
    requires WellTyped(m) && Ready(setup) && Authorized(source.ceilings) && Countable(template)
    requires source.matrix == Some(m) && Accepted(m) && template.kind == Call && template.count == 1
    requires forall row :: row in setup.rows ==> ValidRow(m, row)
    requires forall s :: s in setup.sequences ==> ValidCall(s)
    requires forall t :: t in source.targets ==> t.host.Literal?
    requires forall key :: key in setup.targets ==> Indexed(source.targets, key, setup.targets[key])
    requires forall c :: c in selected ==> exists i :: 0 <= i < |setup.rows| && c == CandidateAt(setup, i)
    requires Within(Times(|selected|, template), source.ceilings)
    ensures var r := PlanOf(Rewritten(source, CasesFor(selected, template, fingerprint)), digest, LiteralOnly(), map[]);
            match PlanFault(source, |selected|)
            case Some(fault) => r == Err(fault)
            case None => r.Ok? && r.value.totals == Times(|selected|, template) && |r.value.steps| == |selected|
  {
    hide ResolveAll, AddCases, ValidCall, ValidRow, Times, Within, Runnable, Indexed, Accepted, WellTyped,
      MatrixAuthorized;
    var cases := CasesFor(selected, template, fingerprint);
    var resolved := ResolveAll(source, LiteralOnly(), source.targets);
    RewritingKeepsTargets(source, cases, source.targets);
    NothingLowered(source.ceilings);
    if resolved.Ok? {
      forall k | 0 <= k < |cases| ensures Runnable(cases[k], template, resolved.value.targets, Some(m)) {
        assert selected[k] in selected;
        var i :| 0 <= i < |setup.rows| && selected[k] == CandidateAt(setup, i);
        assert setup.rows[i] in setup.rows;
        CandidateRunnable(m, source, LiteralOnly(), setup, template, i, cases[k]);
      }
      AllIdsDiffer(selected, template, fingerprint);
      UniformCases(source.ceilings, resolved.value.targets, Some(m), template, cases);
    }
  }

  /**
   Step k of the plan runs the k-th selected candidate once, for the budget of the template, at a target of its
   place.
   */
  ghost predicate StepRuns(m: Matrix, selected: seq<Candidate>, k: nat, template: Case,
                           fingerprint: Candidate -> string, step: CampaignPlan.Step)
    requires k < |selected|
  {
    var c := selected[k];
    && step.index == k + 1 && step.sequence == 1 && step.kind == Call && step.caseId == CaseId(k + 1, fingerprint, c)
    && step.budget == Budget(1, template.packets, template.bytes, template.duration)
    && step.generated == Some(Generated(c.rowIndex, c.sequenceIndex, c.row, c.actions))
    && step.target.name == c.target && PlanMeaning.GeneratedFits(Some(m), step.generated.value, step.target)
  }

  /** And its case is named by its number. */
  ghost predicate StepNamed(selected: seq<Candidate>, k: nat, fingerprint: Candidate -> string, step: CampaignPlan.Step)
    requires k < |selected|
  {
    IdReads(step.caseId, k + 1, fingerprint(selected[k]))
  }

  lemma SelectedNamed(m: Matrix, selected: seq<Candidate>, k: nat, template: Case, fingerprint: Candidate -> string,
                      step: CampaignPlan.Step)
    requires k < |selected| && StepRuns(m, selected, k, template, fingerprint, step)
    ensures StepNamed(selected, k, fingerprint, step)
  {
    CaseIdReads(k + 1, fingerprint, selected[k]);
    hide IdReads, CaseId, PlanMeaning.GeneratedFits;
  }

  lemma SelectedRun(m: Matrix, source: Manifest, template: Case, selected: seq<Candidate>,
                    fingerprint: Candidate -> string, digest: string, plan: Plan, k: nat)
    requires WellTyped(m) && Authorized(source.ceilings) && source.matrix == Some(m)
    requires template.kind == Call && template.count == 1 && k < |selected| == |plan.steps|
    requires PlanOf(Rewritten(source, CasesFor(selected, template, fingerprint)), digest, LiteralOnly(), map[])
             == Ok(plan)
    ensures StepRuns(m, selected, k, template, fingerprint, plan.steps[k])
  {
    var cases := CasesFor(selected, template, fingerprint);
    PlanMeaning.UnitRun(Rewritten(source, cases), digest, LiteralOnly(), map[], plan, k);
    hide PlanOf, WellTyped, PlanMeaning.GeneratedFits, CaseId;
  }

  lemma PlanNamed(source: Manifest, cases: seq<Case>, digest: string, plan: Plan)
    requires Authorized(source.ceilings)
    requires PlanOf(Rewritten(source, cases), digest, LiteralOnly(), map[]) == Ok(plan)
    ensures plan.name == MatrixName(source.name) && plan.digest == digest
  {
    hide ResolveAll, AddCases, MatrixName;
  }

  /** The first call case, which must ask for one run. */
  function Template(cases: seq<Case>): Option<Case> {
    if cases == [] then None
    else if cases[0].kind == Call then Some(cases[0])
    else Template(cases[1..])
  }

  ghost predicate FirstCall(cases: seq<Case>, t: Case) {
    exists i :: 0 <= i < |cases| && cases[i] == t && t.kind == Call && forall j :: 0 <= j < i ==> cases[j].kind != Call
  }

  lemma {:induction false} TemplateIsFirst(cases: seq<Case>)
    ensures forall t :: Template(cases) == Some(t) <==> FirstCall(cases, t)
  {
    if cases != [] {
      TemplateIsFirst(cases[1..]);
      forall t ensures Template(cases) == Some(t) <==> FirstCall(cases, t) {
        if cases[0].kind == Call {
          assert FirstCall(cases, cases[0]);
        } else {
          FirstCallLater(cases, t);
        }
      }
    }
  }

  lemma FirstCallLater(cases: seq<Case>, t: Case)
    requires cases != [] && cases[0].kind != Call
    ensures FirstCall(cases, t) <==> FirstCall(cases[1..], t)
  {
    if FirstCall(cases, t) {
      var i :| 0 <= i < |cases| && cases[i] == t && t.kind == Call && forall j :: 0 <= j < i ==> cases[j].kind != Call;
      assert cases[1..][i - 1] == t && forall j :: 0 <= j < i - 1 ==> cases[1..][j] == cases[j + 1];
    }
    if FirstCall(cases[1..], t) {
      var i :| 0 <= i < |cases[1..]| && cases[1..][i] == t && t.kind == Call
        && forall j :: 0 <= j < i ==> cases[1..][j].kind != Call;
      assert cases[i + 1] == t && forall j :: 1 <= j < i + 1 ==> cases[j] == cases[1..][j - 1];
    }
  }

  ghost predicate CompiledWell(m: Matrix, source: Manifest, actions: Trace, maxActions: nat, strength: nat,
                               fingerprint: Candidate -> string, c: Compilation) {
    && Ready(c.setup) && c.setup.mandatoryCount == |m.mandatory| && c.setup.risks == m.risks
    // the selection goes by rank: mandatory, history, risk, row
    && c.selected == Selected(c.setup, c.capacity)
    && SelectionMeets(c.setup, c.capacity, c.selected)
    // every row is valid, every trace a valid call, and every mandatory case is among the selected ones
    && (forall row :: row in c.setup.rows ==> ValidRow(m, row))
    && (forall s :: s in c.setup.sequences ==> ActionTraces.Candidate(actions, maxActions, s))
    && (forall given :: given in m.mandatory ==>
        exists kept :: kept in c.selected && kept.row == given.values && kept.mandatory)
    // one step a case, at the template's budget, inside every counted ceiling
    && Template(source.cases).Some? && FirstCall(source.cases, Template(source.cases).value)
    && NamedAfter(source.name, c.plan.name)
    && |c.plan.steps| == |c.selected| <= c.capacity
    && (forall k :: 0 <= k < |c.selected| ==>
          StepRuns(m, c.selected, k, Template(source.cases).value, fingerprint, c.plan.steps[k])
          && StepNamed(c.selected, k, fingerprint, c.plan.steps[k]))
    && c.plan.totals == Times(|c.selected|, Template(source.cases).value)
    && Authorized(source.ceilings) && Within(c.plan.totals, source.ceilings)
    && Ledgered(m, actions, maxActions, strength, c)
  }

  /** The selected rows that give every factor of the tuple its value, in order. */
  ghost predicate ListsRows(selected: seq<Candidate>, item: FactorTuple, coveredBy: seq<nat>) {
    && Rising(coveredBy)
    && forall k: nat :: k in coveredBy <==>
         k < |selected| && forall i :: 0 <= i < |item| ==>
           item[i].0 in selected[k].row && selected[k].row[item[i].0] == item[i].1
  }

  /** The selected traces in which the actions of the tuple occur in this order, in order. */
  ghost predicate ListsTraces(selected: seq<Candidate>, t: Trace, coveredBy: seq<nat>) {
    && Rising(coveredBy)
    && forall k: nat :: k in coveredBy <==>
         k < |selected| && exists positions :: Embeds(t, selected[k].actions, positions)
  }

  lemma CoverageLists(selected: seq<Candidate>, item: FactorTuple, t: Trace)
    ensures ListsRows(selected, item, FactorCoverage(selected, item))
    ensures ListsTraces(selected, t, TraceCoverage(selected, t))
  {
    FactorCoverageIs(selected, item);
    TraceCoverageIs(selected, t);
    hide FactorCoverage, TraceCoverage, Scan, Embeds;
    forall k: nat | k < |selected|
      ensures Scan(t, selected[k].actions) <==> exists positions :: Embeds(t, selected[k].actions, positions)
    {
      ScanIsEmbedding(t, selected[k].actions);
    }
  }

  /** The ledgers list exactly the requested tuples that valid rows and calls can reach, with who covers them. */
  ghost predicate Ledgered(m: Matrix, actions: Trace, maxActions: nat, strength: nat, c: Compilation) {
    && (forall item :: item in c.factorLedger <==> Covering.Requested(m, item) && Covering.Permitted(m, item))
    && (forall t :: t in c.traceLedger <==> |t| == strength && Reachable(actions, maxActions, t))
    && (forall item :: item in c.factorLedger ==> c.factorLedger[item] == FactorCoverage(c.selected, item))
    && (forall t :: t in c.traceLedger ==> c.traceLedger[t] == TraceCoverage(c.selected, t))
    && (forall item :: item in c.factorLedger ==> ListsRows(c.selected, item, c.factorLedger[item]))
    && (forall t :: t in c.traceLedger ==> ListsTraces(c.selected, t, c.traceLedger[t]))
    // without truncation nothing is left uncovered
    && (|c.setup.rows| <= c.capacity ==> forall item :: item in c.factorLedger ==> c.factorLedger[item] != [])
    && (|c.setup.sequences| <= |c.setup.rows| <= c.capacity ==> forall t :: t in c.traceLedger ==>
        c.traceLedger[t] != [])
  }

  lemma MandatorySelected(m: Matrix, setup: Setup, capacity: nat)
    requires Ready(setup) && setup.mandatoryCount == |m.mandatory| <= capacity
    requires Covering.MandatoryRows(m) <= setup.rows
    ensures forall given :: given in m.mandatory ==>
              exists kept :: kept in Selected(setup, capacity) && kept.row == given.values && kept.mandatory
  {
    SelectionKeepsMandatory(setup, capacity);
    forall given | given in m.mandatory
      ensures exists kept :: kept in Selected(setup, capacity) && kept.row == given.values && kept.mandatory
    {
      var i :| 0 <= i < |m.mandatory| && m.mandatory[i] == given;
      assert setup.rows[i] == Covering.MandatoryRows(m)[i] == given.values;
      assert CandidateAt(setup, i) in Selected(setup, capacity);
    }
  }

  lemma WithinCapacity(ceilings: Ceilings, template: Case, maxCases: Option<nat>, n: nat)
    requires Authorized(ceilings) && Countable(template) && n <= Capacity(ceilings, template, maxCases)
    ensures Within(Times(n, template), ceilings)
  {
    hide Capacity;
    var most := Capacity(ceilings, template, maxCases);
    Monotone(n, most, template.packets);
    Monotone(n, most, template.bytes);
    Monotone(n, most, template.duration);
  }

  lemma LedgersComplete(setup: Setup, capacity: nat, required: set<FactorTuple>, traces: set<Trace>, strength: nat)
    requires Ready(setup)
    requires forall item :: item in required ==> Covering.RowsCover(setup.rows, item)
    requires Together(setup.sequences, strength, traces)
    ensures |setup.rows| <= capacity ==> forall item :: item in required ==>
                FactorCoverage(Selected(setup, capacity), item) != []
    ensures |setup.sequences| <= |setup.rows| <= capacity ==> forall t :: t in traces ==>
                TraceCoverage(Selected(setup, capacity), t) != []
  {
    if |setup.rows| <= capacity {
      forall item | item in required ensures FactorCoverage(Selected(setup, capacity), item) != [] {
        UntruncatedFactorCoverage(setup, capacity, item);
      }
      if |setup.sequences| <= |setup.rows| {
        forall t | t in traces ensures TraceCoverage(Selected(setup, capacity), t) != [] {
          assert Together(setup.sequences, strength, {t});
          UntruncatedTraceCoverage(setup, capacity, t, strength);
        }
      }
    }
  }

  lemma SelectedFromRows(setup: Setup, capacity: nat)
    requires Ready(setup)
    ensures |Selected(setup, capacity)| == Min(capacity, |setup.rows|)
    ensures forall c :: c in Selected(setup, capacity) ==>
                exists i :: 0 <= i < |setup.rows| && c == CandidateAt(setup, i)
  {
    RankingFacts(setup);
    forall c | c in Selected(setup, capacity) ensures c in Ranking(setup) {
    }
  }

  /** Pair rows with traces, or report the first row that has no target. */
  method Place(rows: seq<Assignment>, targets: TargetIndex) returns (ok: bool)
    requires forall row :: row in rows ==> Placeable(row)
    ensures ok <==> forall row :: row in rows ==> PlaceOf(row) in targets
  {
    for i := 0 to |rows|
      invariant forall k :: 0 <= k < i ==> PlaceOf(rows[k]) in targets
    {
      assert rows[i] in rows;
      if PlaceOf(rows[i]) !in targets {
        return false;
      }
    }
    ok := true;
  }

  /** What generation hands to ranking and planning. */
  ghost predicate Prepared(m: Matrix, source: Manifest, actions: Trace, maxActions: nat, strength: nat,
                           setup: Setup, required: set<FactorTuple>, traces: set<Trace>) {
    && Ready(setup) && setup.mandatoryCount == |m.mandatory| && Covering.MandatoryRows(m) <= setup.rows
    && (forall row :: row in setup.rows ==> ValidRow(m, row))
    && (forall s :: s in setup.sequences ==> ActionTraces.Candidate(actions, maxActions, s))
    && (forall item :: item in required <==> Covering.Requested(m, item) && Covering.Permitted(m, item))
    && (forall t :: t in traces <==> |t| == strength && Reachable(actions, maxActions, t))
    && (forall item :: item in required ==> Covering.RowsCover(setup.rows, item))
    && Together(setup.sequences, strength, traces)
    && (forall t :: t in source.targets ==> t.host.Literal?)
    && (forall key :: key in setup.targets ==> Indexed(source.targets, key, setup.targets[key]))
  }

  lemma Assembled(m: Matrix, source: Manifest, actions: Trace, maxActions: nat, strength: nat,
                  fingerprint: Candidate -> string, c: Compilation,
                  limit: Option<nat>, required: set<FactorTuple>, traces: set<Trace>)
    requires Prepared(m, source, actions, maxActions, strength, c.setup, required, traces)
    requires c.selected == Selected(c.setup, c.capacity) && Authorized(source.ceilings) && |m.mandatory| <= c.capacity
    requires Template(source.cases).Some? && Countable(Template(source.cases).value)
    requires c.capacity == Capacity(source.ceilings, Template(source.cases).value, limit)
    requires |c.plan.steps| == |c.selected| && c.plan.totals == Times(|c.selected|, Template(source.cases).value)
    requires c.setup.risks == m.risks && FirstCall(source.cases, Template(source.cases).value)
    requires NamedAfter(source.name, c.plan.name)
    requires forall k :: 0 <= k < |c.selected| ==>
               StepRuns(m, c.selected, k, Template(source.cases).value, fingerprint, c.plan.steps[k])
    requires c.factorLedger == map item | item in required :: FactorCoverage(c.selected, item)
    requires c.traceLedger == map t | t in traces :: TraceCoverage(c.selected, t)
    ensures CompiledWell(m, source, actions, maxActions, strength, fingerprint, c)
  {
    hide ValidRow, Covering.Requested, Covering.Permitted, ActionTraces.Candidate, OrderedSubsequences, Times, Within,
      Selected, FactorCoverage, TraceCoverage, Capacity, Reachable, Covering.RowsCover, Together, Ledgered, Template,
      StepRuns, SelectionMeets, Ready, FirstCall, NamedAfter;
    forall k | 0 <= k < |c.selected| ensures StepNamed(c.selected, k, fingerprint, c.plan.steps[k]) {
      SelectedNamed(m, c.selected, k, Template(source.cases).value, fingerprint, c.plan.steps[k]);
    }
    hide StepNamed;
    SelectionIsMet(c.setup, c.capacity);
    MandatorySelected(m, c.setup, c.capacity);
    SelectedFromRows(c.setup, c.capacity);
    AssembledLedgers(m, source, actions, maxActions, strength, c, required, traces);
    WithinCapacity(source.ceilings, Template(source.cases).value, limit, |c.selected|);
  }

  lemma AssembledLedgers(m: Matrix, source: Manifest, actions: Trace, maxActions: nat, strength: nat, c: Compilation,
                         required: set<FactorTuple>, traces: set<Trace>)
    requires Prepared(m, source, actions, maxActions, strength, c.setup, required, traces)
    requires c.selected == Selected(c.setup, c.capacity)
    requires c.factorLedger == map item | item in required :: FactorCoverage(c.selected, item)
    requires c.traceLedger == map t | t in traces :: TraceCoverage(c.selected, t)
    ensures Ledgered(m, actions, maxActions, strength, c)
  {
    hide ValidRow, Covering.Requested, Covering.Permitted, ActionTraces.Candidate, OrderedSubsequences,
      Selected, FactorCoverage, TraceCoverage, Reachable, Covering.RowsCover, Together, Ready, ListsRows, ListsTraces;
    LedgersComplete(c.setup, c.capacity, required, traces, strength);
    forall item ensures ListsRows(c.selected, item, FactorCoverage(c.selected, item)) {
      CoverageLists(c.selected, item, []);
    }
    forall t ensures ListsTraces(c.selected, t, TraceCoverage(c.selected, t)) {
      CoverageLists(c.selected, [], t);
    }
  }

  /** Rank, truncate, plan, and write the ledgers. */
  method PlanSelection(m: Matrix, source: Manifest, ghost actions: Trace, ghost maxActions: nat, ghost strength: nat,
                       setup: Setup, required: set<FactorTuple>, traces: set<Trace>, template: Case, limit: Option<nat>,
                         capacity: nat,
                       fingerprint: Candidate -> string, digest: string)
    returns (r: Result<Compilation, CompileError>)
    requires WellTyped(m) && Accepted(m) && source.matrix == Some(m) && Authorized(source.ceilings)
    requires Prepared(m, source, actions, maxActions, strength, setup, required, traces) && setup.risks == m.risks
    requires Template(source.cases) == Some(template) && Countable(template) && template.kind == Call
             && template.count == 1
    requires capacity == Capacity(source.ceilings, template, limit) && |m.mandatory| <= capacity
    ensures r.Ok? ==> CompiledWell(m, source, actions, maxActions, strength, fingerprint, r.value)
    ensures r.Ok? ==> r.value.setup == setup && r.value.capacity == capacity && r.value.plan.digest == digest
    ensures match PlanFault(source, Min(capacity, |setup.rows|))
            case Some(fault) => r == Err(PlanFailed(fault))
            case None => r.Ok?
  {
    hide ValidRow, Covering.Requested, Covering.Permitted, ActionTraces.Candidate, PlanFault, PlanOf, Times, Within,
      Selected, FactorCoverage, TraceCoverage, Indexed, WellTyped, CompiledWell, Capacity, Reachable,
        Covering.RowsCover,
      Together, Template, Covering.MandatoryRows, Accounted, StepRuns, SelectionMeets, FirstCall, NamedAfter;
    TemplateIsFirst(source.cases);
    MatrixNameReads(source.name);
    var selected := Selected(setup, capacity);
    SelectedFromRows(setup, capacity);
    WithinCapacity(source.ceilings, template, limit, |selected|);
    forall s | s in setup.sequences ensures ValidCall(s) {
      CandidateIsCall(actions, maxActions, s);
    }
    RewrittenPlan(m, source, setup, template, selected, fingerprint, digest);
    var plan := CompilePlan(Rewritten(source, CasesFor(selected, template, fingerprint)), digest, LiteralOnly(), map[]);
    if plan.Err? {
      return Err(PlanFailed(plan.error));
    }
    PlanNamed(source, CasesFor(selected, template, fingerprint), digest, plan.value);
    var factorLedger := map item | item in required :: FactorCoverage(selected, item);
    var traceLedger := map t | t in traces :: TraceCoverage(selected, t);
    var compilation := Compilation(setup, capacity, selected, plan.value, factorLedger, traceLedger);
    forall k | 0 <= k < |selected|
      ensures StepRuns(m, selected, k, template, fingerprint, plan.value.steps[k])
    {
      SelectedRun(m, source, template, selected, fingerprint, digest, plan.value, k);
    }
    Assembled(m, source, actions, maxActions, strength, fingerprint, compilation, limit, required, traces);
    r := Ok(compilation);
  }

  /** What the row generator promises and the compiler relies on. */
  ghost predicate RowsGenerated(m: Matrix, covering: Covering.CoveringArray) {
    && Accepted(m) && covering.rows != [] && Covering.MandatoryRows(m) <= covering.rows
    && (forall row :: row in covering.rows ==> ValidRow(m, row))
    && (forall item :: item in covering.required <==> Covering.Requested(m, item) && Covering.Permitted(m, item))
    && (forall item :: item in covering.required ==> Covering.RowsCover(covering.rows, item))
  }

  /** What the trace generator promises and the compiler relies on. */
  ghost predicate TracesGenerated(actions: Trace, maxActions: nat, strength: nat, traces: SequenceCover) {
    && 1 <= strength <= maxActions && Hangup in actions
    && (forall s :: s in traces.sequences ==> ActionTraces.Candidate(actions, maxActions, s))
    && (forall t :: t in traces.required <==> |t| == strength && Reachable(actions, maxActions, t))
    && Together(traces.sequences, strength, traces.required) && |traces.sequences| <= |traces.required|
  }

  /**
   Index the targets and put every row, with a trace, on one. The traces are dealt out by dividing by their
   number, so the compiler fails when the allowed actions cannot make a trace of the asked strength.
   */
  method Prepare(m: Matrix, source: Manifest, ghost actions: Trace, ghost maxActions: nat, ghost strength: nat,
                 covering: Covering.CoveringArray, traces: SequenceCover, histories: seq<History>)
    returns (r: Result<Setup, CompileError>)
    requires WellTyped(m) && HasPlaceFactors(m)
    requires RowsGenerated(m, covering) && TracesGenerated(actions, maxActions, strength, traces)
    ensures r.Ok? ==> Prepared(m, source, actions, maxActions, strength, r.value, covering.required, traces.required)
    ensures r.Ok? ==> r.value.rows == covering.rows && r.value.sequences == traces.sequences
    ensures r.Ok? ==> r.value.risks == m.risks && r.value.histories == histories
    ensures r == Err(BadTargets) <==> !Indexable(source.targets)
    ensures r == Err(NoSequences) <==> Indexable(source.targets) && !LongEnough(actions, strength)
    ensures r == Err(NoTargetForRow) <==>
              && Indexable(source.targets) && LongEnough(actions, strength)
              && exists row :: row in covering.rows && Placeable(row) && !Served(source.targets, row)
    ensures r.Err? ==> r.error in {BadTargets, NoSequences, NoTargetForRow}
  {
    hide ValidRow, Covering.Requested, Covering.Permitted, ActionTraces.Candidate, Indexed, WellTyped, HasPlaceFactors,
      Reachable, Covering.RowsCover, Together, Covering.MandatoryRows, TracesGenerated, LongEnough, Indexable, Served;
    NoTraces(actions, maxActions, strength, traces);
    var targets := IndexTargets(source.targets);
    if targets.Err? {
      return Err(targets.error);
    }
    var rows, sequences := covering.rows, traces.sequences;
    if sequences == [] {
      return Err(NoSequences);
    }
    forall row | row in rows
      ensures Placeable(row) && (PlaceOf(row) in targets.value <==> Served(source.targets, row))
    {
      ValidRowsPlaceable(m, row);
      IndexServes(source.targets, targets.value, row);
    }
    var placed := Place(rows, targets.value);
    if !placed {
      return Err(NoTargetForRow);
    }
    var setup := Setup(rows, |m.mandatory|, sequences, targets.value, m.risks, histories);
    SetupPrepared(m, source, actions, maxActions, strength, setup, covering, traces);
    r := Ok(setup);
  }

  lemma IndexServes(targets: seq<Target>, index: TargetIndex, row: Assignment)
    requires Placeable(row)
    requires forall t :: t in targets ==> t.host.Literal? && KeyOf(t) in index
    requires forall key :: key in index ==> Indexed(targets, key, index[key])
    ensures PlaceOf(row) in index <==> Served(targets, row)
  {
    if PlaceOf(row) in index {
      assert Indexed(targets, PlaceOf(row), index[PlaceOf(row)]);
    }
  }

  lemma SetupPrepared(m: Matrix, source: Manifest, actions: Trace, maxActions: nat, strength: nat, setup: Setup,
                      covering: Covering.CoveringArray, traces: SequenceCover)
    requires RowsGenerated(m, covering) && TracesGenerated(actions, maxActions, strength, traces)
    requires setup.rows == covering.rows && setup.sequences == traces.sequences && setup.mandatoryCount == |m.mandatory|
    requires Ready(setup)
    requires forall t :: t in source.targets ==> t.host.Literal?
    requires forall key :: key in setup.targets ==> Indexed(source.targets, key, setup.targets[key])
    ensures Prepared(m, source, actions, maxActions, strength, setup, covering.required, traces.required)
  {
    hide ValidRow, Covering.Requested, Covering.Permitted, ActionTraces.Candidate, Indexed, Reachable,
      Covering.RowsCover,
      Together, Covering.MandatoryRows, Ready;
  }

  /** What is wrong with the source once rows and traces exist, in the order the compiler looks. */
  ghost function FaultOf(m: Matrix, source: Manifest, actions: Trace, strength: nat, maxCases: Option<int>)
    : Option<CompileError>
    requires Authorized(source.ceilings)
  {
    var found := Template(source.cases);
    if found.None? || found.value.count != 1 then Some(NoTemplate)
    else if !Positive(found.value) then Some(ZeroBudget)
    else if maxCases.Some? && !(1 <= maxCases.value <= U64_MAX) then Some(BadMaxCases)
    else
      var capacity := Capacity(source.ceilings, found.value, if maxCases.Some? then Some(maxCases.value) else None);
      if capacity < 1 then Some(NoCapacity)
      else if capacity < |m.mandatory| then Some(CannotKeepMandatory)
      else if !Indexable(source.targets) then Some(BadTargets)
      else if !LongEnough(actions, strength) then Some(NoSequences)
      else None
  }

  ghost predicate Repeats(source: Manifest, t: Case) {
    FirstCall(source.cases, t) && t.count == 1
  }

  predicate Limits(maxCases: Option<int>) {
    maxCases.None? || 1 <= maxCases.value < 0x1_0000_0000_0000_0000
  }

  /** Each fault, by what is wrong. */
  lemma FaultsAre(m: Matrix, source: Manifest, actions: Trace, strength: nat, maxCases: Option<int>, t: Case)
    requires Authorized(source.ceilings)
    ensures var fault := FaultOf(m, source, actions, strength, maxCases);
            && (fault == Some(NoTemplate) <==> forall first :: !Repeats(source, first))
            && (Repeats(source, t) ==>
                  && (fault == Some(ZeroBudget) <==> t.packets == 0 || t.bytes == 0 || t.duration == 0)
                  && (t.packets > 0 && t.bytes > 0 && t.duration > 0 ==>
                        && (fault == Some(BadMaxCases) <==> !Limits(maxCases))
                        && (Limits(maxCases) ==>
                              && (fault == Some(NoCapacity) <==> !Pays(source.ceilings, t, maxCases, 1))
                              && (fault == Some(CannotKeepMandatory) <==>
                                  && Pays(source.ceilings, t, maxCases, 1)
                                  && !Pays(source.ceilings, t, maxCases, |m.mandatory|)))))
  {
    TemplateIsFirst(source.cases);
    hide Template, FirstCall, Capacity, Indexable, LongEnough, Pays;
    if Template(source.cases).Some? && Template(source.cases).value.count == 1 {
      assert Repeats(source, Template(source.cases).value);
    }
    if Repeats(source, t) && Positive(t) && Limits(maxCases) {
      var limit: Option<nat> := if maxCases.Some? then Some(maxCases.value) else None;
      CapacityIsMost(source.ceilings, t, maxCases, limit);
      PaysLess(source.ceilings, t, maxCases, |m.mandatory|, Capacity(source.ceilings, t, limit));
      PaysLess(source.ceilings, t, maxCases, 1, Capacity(source.ceilings, t, limit));
    }
  }

  lemma PaysLess(c: Ceilings, template: Case, maxCases: Option<int>, less: nat, n: nat)
    requires Authorized(c)
    ensures less <= n && Pays(c, template, maxCases, n) ==> Pays(c, template, maxCases, less)
  {
    ProductsRise(less, n, template.packets);
    ProductsRise(less, n, template.bytes);
    ProductsRise(less, n, template.duration);
  }

  /** How many of n candidates the budget keeps. */
  ghost function KeptCount(source: Manifest, maxCases: Option<int>, n: nat): nat
    requires Authorized(source.ceilings)
  {
    var found := Template(source.cases);
    if found.None? || !Positive(found.value) || (maxCases.Some? && maxCases.value < 0) then 0
    else Min(Capacity(source.ceilings, found.value, if maxCases.Some? then Some(maxCases.value) else None), n)
  }

  /** What becomes of generated rows when the source has no fault. */
  ghost function OutcomeOf(source: Manifest, maxCases: Option<int>, rows: seq<Assignment>): Option<CompileError>
    requires Authorized(source.ceilings)
  {
    if exists row :: row in rows && Placeable(row) && !Served(source.targets, row) then Some(NoTargetForRow)
    else
      match PlanFault(source, KeptCount(source, maxCases, |rows|))
      case Some(fault) => Some(PlanFailed(fault))
      case None => None
  }

  predicate GenerationFailed(e: CompileError) {
    e.MatrixFailed? || e.SequencesFailed?
  }

  /**
   The compiler as a whole. Two of its failures are divisions by zero: `ZeroBudget` by a per-run budget that
   nothing has checked yet, `NoSequences` by the number of selected traces. Once there are rows and traces the outcome
   is the first fault of the source; without one, a row no target serves, a matrix transport that is not authorized,
   targets that do not resolve, or a selection above the planner limit; and without those a compilation.
   */
  method CompileMatrixCampaign(m: Matrix, source: Manifest, actions: Trace, maxActions: int, strength: int,
                               maxCases: Option<int>, histories: seq<History>,
                               rowDigest: (nat, Factor, Scalar) -> nat, traceDigest: (nat, Trace) -> nat,
                               fingerprint: Candidate -> string, digest: string)
    returns (r: Result<Compilation, CompileError>, ghost rows: seq<Assignment>)
    requires WellTyped(m) && HasPlaceFactors(m) && source.matrix == Some(m) && Authorized(source.ceilings)
    ensures r.Ok? ==>
                1 <= strength <= maxActions
                  && CompiledWell(m, source, actions, maxActions, strength, fingerprint, r.value)
    ensures r.Ok? ==>
                r.value.setup.rows == rows && r.value.setup.histories == histories && r.value.plan.digest == digest
    ensures r.Ok? ==> MostPaid(source.ceilings, Template(source.cases).value, maxCases, r.value.capacity)
    ensures forall row :: row in rows ==> ValidRow(m, row) && Placeable(row)
    ensures r.Err? && r.error.SequencesFailed? ==> !GoodActions(actions, maxActions, strength)
    ensures r == Err(MatrixFailed(Endless)) ==> Covering.Clashing(m)
    ensures r.Ok? || !GenerationFailed(r.error) ==>
              && !Covering.Clashing(m) && GoodActions(actions, maxActions, strength)
              && match FaultOf(m, source, actions, strength, maxCases)
                 case Some(fault) => r == Err(fault)
                 case None =>
                   match OutcomeOf(source, maxCases, rows)
                   case Some(error) => r == Err(error)
                   case None => r.Ok?
  {
    hide Prepared, CompiledWell, WellTyped, HasPlaceFactors, ActionTraces.Candidate, PlanFault, Capacity, Template,
      ValidRow,
      LongEnough, Indexable, Served, RowsGenerated, TracesGenerated, Covering.Clashing, MostPaid;
    rows := [];
    var generated := Generate(m, actions, maxActions, strength, rowDigest, traceDigest);
    if generated.Err? {
      r := Err(generated.error);
      return;
    }
    var covering, traces := generated.value.0, generated.value.1;
    rows := covering.rows;
    GeneratedAreValid(m, covering);
    var found := Template(source.cases);
    if found.None? || found.value.count != 1 {
      r := Err(NoTemplate);
      return;
    }
    var template := found.value;
    TemplateIsCase(source.cases);
    if !Positive(template) {
      r := Err(ZeroBudget);
      return;
    }
    if maxCases.Some? && !(1 <= maxCases.value <= U64_MAX) {
      r := Err(BadMaxCases);
      return;
    }
    var limit: Option<nat> := if maxCases.Some? then Some(maxCases.value) else None;
    var capacity := Capacity(source.ceilings, template, limit);
    if capacity < 1 {
      r := Err(NoCapacity);
      return;
    }
    if capacity < |m.mandatory| {
      r := Err(CannotKeepMandatory);
      return;
    }
    FundedIsCountable(source.ceilings, template, limit);
    CapacityIsMost(source.ceilings, template, maxCases, limit);
    var prepared := Prepare(m, source, actions, maxActions, strength, covering, traces, histories);
    if prepared.Err? {
      r := Err(prepared.error);
      return;
    }
    r := PlanSelection(m, source, actions, maxActions, strength, prepared.value, covering.required, traces.required,
                       template, limit, capacity, fingerprint, digest);
  }

  lemma GeneratedAreValid(m: Matrix, covering: Covering.CoveringArray)
    requires RowsGenerated(m, covering) && HasPlaceFactors(m)
    ensures Accepted(m) && forall row :: row in covering.rows ==> ValidRow(m, row) && Placeable(row)
  {
    forall row | row in covering.rows ensures ValidRow(m, row) && Placeable(row) {
      ValidRowsPlaceable(m, row);
    }
  }

  /** Both generators, rows first. */
  method Generate(m: Matrix, actions: Trace, maxActions: int, strength: int,
                  rowDigest: (nat, Factor, Scalar) -> nat, traceDigest: (nat, Trace) -> nat)
    returns (r: Result<(Covering.CoveringArray, SequenceCover), CompileError>)
    requires WellTyped(m)
    ensures r.Ok? ==> && GoodActions(actions, maxActions, strength) && RowsGenerated(m, r.value.0)
                      && TracesGenerated(actions, maxActions, strength, r.value.1)
    ensures r.Ok? ==> !Covering.Clashing(m)
    ensures r == Err(MatrixFailed(Endless)) ==> Covering.Clashing(m)
    ensures r.Err? ==> GenerationFailed(r.error)
    ensures r.Err? && r.error.SequencesFailed? ==> !GoodActions(actions, maxActions, strength)
  {
    hide ValidRow, Covering.Requested, Covering.Permitted, ActionTraces.Candidate, WellTyped,
      Reachable, Covering.RowsCover, Together, Covering.MandatoryRows, Covering.ExcludedTuples, Covering.Reasons,
      Covering.Clashing, Covering.Listing, PickedGreedily;
    var covering := Covering.GenerateCoveringArray(m, rowDigest);
    if covering.Err? {
      return Err(MatrixFailed(covering.error));
    }
    var traces := GenerateEventSequences(actions, maxActions, strength, traceDigest);
    if traces.Err? {
      return Err(SequencesFailed(traces.error));
    }
    r := Ok((covering.value, traces.value));
  }

  lemma {:induction false} TemplateIsCase(cases: seq<Case>)
    ensures Template(cases).Some? ==> Template(cases).value in cases && Template(cases).value.kind == Call
  {
    if cases != [] {
      TemplateIsCase(cases[1..]);
    }
  }

  lemma CandidateIsCall(actions: Trace, maxActions: nat, s: Trace)
    requires ActionTraces.Candidate(actions, maxActions, s)
    ensures ValidCall(s)
  {
  }

  /** Nothing is required exactly when the allowed actions cannot make a valid trace of the strength. */
  lemma NoLongTrace(actions: Trace, maxActions: nat, strength: nat, required: set<Trace>)
    requires Hangup in actions && 1 <= strength <= maxActions
    requires forall t :: t in required <==> |t| == strength && Reachable(actions, maxActions, t)
    ensures required == {} <==> !LongEnough(actions, strength)
  {
    hide ActionTraces.Candidate, LongEnough;
    LongTraces(actions, maxActions, strength);
    if LongEnough(actions, strength) {
      var s :| ActionTraces.Candidate(actions, maxActions, s) && |s| >= strength;
      PrefixReachable(actions, maxActions, strength, s);
      assert s[..strength] in required;
    } else if t :| t in required {
      var s :| ActionTraces.Candidate(actions, maxActions, s) && Scan(t, s);
      ScanMembers(t, s);
    }
  }

  /** So no sequence is selected exactly then. */
  lemma NoTraces(actions: Trace, maxActions: nat, strength: nat, traces: SequenceCover)
    requires TracesGenerated(actions, maxActions, strength, traces)
    ensures traces.sequences == [] <==> !LongEnough(actions, strength)
  {
    hide ActionTraces.Candidate, LongEnough, Reachable;
    NoLongTrace(actions, maxActions, strength, traces.required);
    if traces.sequences == [] {
      NothingRequired(traces.sequences, strength, traces.required);
    }
  }

  lemma NothingRequired(sequences: seq<Trace>, strength: nat, required: set<Trace>)
    requires sequences == [] && Together(sequences, strength, required)
    ensures required == {}
  {
  }

  lemma PrefixReachable(actions: Trace, maxActions: nat, strength: nat, s: Trace)
    requires ActionTraces.Candidate(actions, maxActions, s) && strength <= |s|
    ensures Reachable(actions, maxActions, s[..strength])
  {
    hide ActionTraces.Candidate;
    PositionsScan(s[..strength], s, seq(strength, i requires 0 <= i < strength => i));
  }
}
