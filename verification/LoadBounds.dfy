/** What a load can do in a number of seconds, and that the budget of a step is the most it can do. */
module LoadBounds {
  import opened Prelude
  import opened Envelope

  // ----- loads, as the times at which things start, in seconds

  ghost predicate InHold(starts: seq<real>, hold: nat) {
    forall i :: 0 <= i < |starts| ==> 0.0 <= starts[i] < hold as real
  }

  /** How many start at or after `low` and before `high`. */
  function Between(starts: seq<real>, low: real, high: real): nat {
    if starts == [] then 0
    else
      var last := starts[|starts| - 1];
      Between(starts[..|starts| - 1], low, high) + if low <= last < high then 1 else 0
  }

  /** How many calls of that length are up at a time. */
  function Alive(starts: seq<real>, at: real, length: nat): nat {
    if starts == [] then 0
    else
      var last := starts[|starts| - 1];
      Alive(starts[..|starts| - 1], at, length) + if last <= at < last + length as real then 1 else 0
  }

  ghost predicate ConcurrentAtMost(starts: seq<real>, length: nat, most: nat) {
    forall at: real :: Alive(starts, at, length) <= most
  }

  ghost predicate PerSecondAtMost(starts: seq<real>, most: nat) {
    forall k: nat :: InSecond(starts, k) <= most
  }

  function InSecond(starts: seq<real>, k: nat): nat {
    Between(starts, k as real, (k + 1) as real)
  }

  /** Seconds of talk, second by second: the calls up at each full second of the hold. */
  function TalkSeconds(starts: seq<real>, length: nat, hold: nat): nat {
    if hold == 0 then 0 else TalkSeconds(starts, length, hold - 1) + Alive(starts, (hold - 1) as real, length)
  }

  // ----- upper bounds

  lemma {:induction false} BetweenAdds(starts: seq<real>, low: real, middle: real, high: real)
    requires low <= middle <= high
    ensures Between(starts, low, high) == Between(starts, low, middle) + Between(starts, middle, high)
  {
    if starts != [] {
      BetweenAdds(starts[..|starts| - 1], low, middle, high);
    }
  }

  lemma {:induction false} AllBetween(starts: seq<real>, low: real, high: real)
    requires forall i :: 0 <= i < |starts| ==> low <= starts[i] < high
    ensures Between(starts, low, high) == |starts|
  {
    if starts != [] {
      AllBetween(starts[..|starts| - 1], low, high);
    }
  }

  lemma {:induction false} NoneBetween(starts: seq<real>, low: real, high: real)
    ensures Between(starts, low, high) == 0 || exists i :: 0 <= i < |starts| && low <= starts[i] < high
  {
    if starts != [] {
      NoneBetween(starts[..|starts| - 1], low, high);
    }
  }

  /** The latest start in a stretch. */
  lemma {:induction false} LatestIn(starts: seq<real>, low: real, high: real) returns (latest: real)
    requires Between(starts, low, high) > 0
    ensures low <= latest < high
    ensures forall i :: 0 <= i < |starts| && low <= starts[i] < high ==> starts[i] <= latest
  {
    var n := |starts| - 1;
    var last := starts[n];
    if Between(starts[..n], low, high) > 0 {
      latest := LatestIn(starts[..n], low, high);
      if low <= last < high && last > latest {
        latest := last;
      }
    } else {
      NoneBetween(starts[..n], low, high);
      latest := last;
      forall i | 0 <= i < |starts| && low <= starts[i] < high ensures starts[i] <= latest {
        if i < n {
          NotCounted(starts[..n], low, high, i);
        }
      }
    }
  }

  lemma {:induction false} NotCounted(starts: seq<real>, low: real, high: real, i: nat)
    requires i < |starts| && Between(starts, low, high) == 0
    ensures !(low <= starts[i] < high)
  {
    var n := |starts| - 1;
    if i < n {
      NotCounted(starts[..n], low, high, i);
    }
  }

  /** Calls that start within one call length of each other are all up when the latest starts. */
  lemma {:induction false} TogetherAlive(starts: seq<real>, low: real, length: nat, at: real)
    requires low <= at < low + length as real
    requires forall i :: 0 <= i < |starts| && low <= starts[i] < low + length as real ==> starts[i] <= at
    ensures Between(starts, low, low + length as real) <= Alive(starts, at, length)
  {
    if starts != [] {
      TogetherAlive(starts[..|starts| - 1], low, length, at);
    }
  }

  lemma OneRotation(starts: seq<real>, low: real, length: nat, most: nat)
    requires ConcurrentAtMost(starts, length, most) && length > 0
    ensures Between(starts, low, low + length as real) <= most
  {
    if Between(starts, low, low + length as real) > 0 {
      var latest := LatestIn(starts, low, low + length as real);
      TogetherAlive(starts, low, length, latest);
    }
  }

  lemma {:induction false} Rotations(starts: seq<real>, length: nat, most: nat, n: nat)
    requires ConcurrentAtMost(starts, length, most) && length > 0
    ensures Between(starts, 0.0, (n * length) as real) <= n * most
  {
    if n == 0 {
      EmptyStretch(starts, 0.0);
    } else {
      var low, high := ((n - 1) * length) as real, (n * length) as real;
      Rotations(starts, length, most, n - 1);
      OneMore(n - 1, length);
      OneMore(n - 1, most);
      BetweenAdds(starts, 0.0, low, high);
      OneRotation(starts, low, length, most);
    }
  }

  lemma OneMore(n: nat, each: nat)
    ensures (n + 1) * each == n * each + each && n * each >= 0
  {
  }

  lemma {:induction false} EmptyStretch(starts: seq<real>, at: real)
    ensures Between(starts, at, at) == 0
  {
    if starts != [] {
      EmptyStretch(starts[..|starts| - 1], at);
    }
  }

  lemma {:induction false} Seconds(starts: seq<real>, most: nat, n: nat)
    requires PerSecondAtMost(starts, most)
    ensures Between(starts, 0.0, n as real) <= n * most
  {
    if n == 0 {
      EmptyStretch(starts, 0.0);
    } else {
      Seconds(starts, most, n - 1);
      OneMore(n - 1, most);
      BetweenAdds(starts, 0.0, (n - 1) as real, n as real);
      assert InSecond(starts, n - 1) <= most;
    }
  }

  lemma {:induction false} TalkAtMost(starts: seq<real>, length: nat, most: nat, hold: nat)
    requires ConcurrentAtMost(starts, length, most)
    ensures TalkSeconds(starts, length, hold) <= most * hold
  {
    if hold > 0 {
      TalkAtMost(starts, length, most, hold - 1);
    }
  }

  lemma RateBounds(starts: seq<real>, hold: nat, most: nat)
    requires InHold(starts, hold) && PerSecondAtMost(starts, most)
    ensures |starts| <= most * hold
  {
    AllBetween(starts, 0.0, hold as real);
    Seconds(starts, most, hold);
  }

  lemma ConcurrencyBounds(starts: seq<real>, hold: nat, length: nat, most: nat, rotations: nat)
    requires InHold(starts, hold) && ConcurrentAtMost(starts, length, most) && length > 0 && hold <= rotations * length
    ensures |starts| <= most * rotations
  {
    AllBetween(starts, 0.0, (rotations * length) as real);
    Rotations(starts, length, most, rotations);
  }

  // ----- loads that reach the bounds

  function Volley(at: real, most: nat): (r: seq<real>)
    ensures |r| == most && forall i :: 0 <= i < most ==> r[i] == at
  {
    seq(most, i => at)
  }

  /** So many calls at once, again and again, each volley as the one before ends. */
  function Volleys(most: nat, length: nat, n: nat): seq<real> {
    if n == 0 then [] else Volleys(most, length, n - 1) + Volley(((n - 1) * length) as real, most)
  }

  lemma {:induction false} VolleySize(most: nat, length: nat, n: nat)
    ensures |Volleys(most, length, n)| == most * n
  {
    if n > 0 {
      VolleySize(most, length, n - 1);
    }
  }

  lemma {:induction false} VolleysInHold(most: nat, length: nat, n: nat, hold: nat)
    requires n > 0 ==> (n - 1) * length < hold
    ensures InHold(Volleys(most, length, n), hold)
  {
    if n > 1 {
      OneMore(n - 2, length);
      VolleysInHold(most, length, n - 1, hold);
    }
    if n > 0 {
      OneMore(n - 1, length);
    }
  }

  lemma {:induction false} VolleyAlive(starts: seq<real>, when: real, most: nat, at: real, length: nat)
    ensures Alive(starts + Volley(when, most), at, length)
         == Alive(starts, at, length) + if when <= at < when + length as real then most else 0
  {
    if most == 0 {
      assert starts + Volley(when, 0) == starts;
    } else {
      var all := starts + Volley(when, most);
      assert all[..|all| - 1] == starts + Volley(when, most - 1);
      VolleyAlive(starts, when, most - 1, at, length);
    }
  }

  lemma {:induction false} VolleyBetween(starts: seq<real>, when: real, most: nat, low: real, high: real)
    ensures Between(starts + Volley(when, most), low, high)
         == Between(starts, low, high) + if low <= when < high then most else 0
  {
    if most == 0 {
      assert starts + Volley(when, 0) == starts;
    } else {
      var all := starts + Volley(when, most);
      assert all[..|all| - 1] == starts + Volley(when, most - 1);
      VolleyBetween(starts, when, most - 1, low, high);
    }
  }

  /** Exactly one volley is up at any time before the last one ends, and none after. */
  lemma {:induction false} VolleysAlive(most: nat, length: nat, n: nat, at: real)
    requires at >= 0.0
    ensures Alive(Volleys(most, length, n), at, length) == if at < (n * length) as real then most else 0
  {
    if n > 0 {
      VolleysAlive(most, length, n - 1, at);
      VolleyAlive(Volleys(most, length, n - 1), ((n - 1) * length) as real, most, at, length);
      OneMore(n - 1, length);
    }
  }

  lemma {:induction false} BeforeTheFirst(most: nat, length: nat, n: nat, at: real)
    requires at < 0.0
    ensures Alive(Volleys(most, length, n), at, length) == 0
  {
    if n > 0 {
      BeforeTheFirst(most, length, n - 1, at);
      VolleyAlive(Volleys(most, length, n - 1), ((n - 1) * length) as real, most, at, length);
      OneMore(n - 1, length);
    }
  }

  lemma VolleysConcurrent(most: nat, length: nat, n: nat)
    ensures ConcurrentAtMost(Volleys(most, length, n), length, most)
  {
    forall at: real ensures Alive(Volleys(most, length, n), at, length) <= most {
      if at >= 0.0 {
        VolleysAlive(most, length, n, at);
      } else {
        BeforeTheFirst(most, length, n, at);
      }
    }
  }

  lemma {:induction false} VolleysBySecond(most: nat, n: nat, k: nat)
    ensures InSecond(Volleys(most, 1, n), k) == if k < n then most else 0
  {
    if n > 0 {
      VolleysBySecond(most, n - 1, k);
      VolleyBetween(Volleys(most, 1, n - 1), ((n - 1) * 1) as real, most, k as real, (k + 1) as real);
    }
  }

  lemma VolleysPerSecond(most: nat, n: nat)
    ensures PerSecondAtMost(Volleys(most, 1, n), most)
  {
    forall k: nat ensures InSecond(Volleys(most, 1, n), k) <= most {
      VolleysBySecond(most, n, k);
    }
  }

  lemma {:induction false} VolleysTalk(most: nat, length: nat, n: nat, hold: nat, ends: nat)
    requires hold <= ends && ends == n * length
    ensures TalkSeconds(Volleys(most, length, n), length, hold) == hold * most
  {
    hide Alive, Volleys;
    if hold > 0 {
      VolleysTalk(most, length, n, hold - 1, ends);
      VolleysAlive(most, length, n, (hold - 1) as real);
      OneMore(hold - 1, most);
    }
  }

  // ----- the budget of a step

  /** Some load keeps the concurrent limit with that many calls, and none with more. */
  ghost predicate MostConcurrent(hold: nat, length: nat, limit: nat, calls: nat) {
    && (forall starts :: InHold(starts, hold) && ConcurrentAtMost(starts, length, limit) ==> |starts| <= calls)
    && exists starts :: InHold(starts, hold) && ConcurrentAtMost(starts, length, limit) && |starts| == calls
  }

  ghost predicate MostPerSecond(hold: nat, limit: nat, events: nat) {
    && (forall starts :: InHold(starts, hold) && PerSecondAtMost(starts, limit) ==> |starts| <= events)
    && exists starts :: InHold(starts, hold) && PerSecondAtMost(starts, limit) && |starts| == events
  }

  ghost predicate MostTalk(hold: nat, length: nat, limit: nat, seconds: nat) {
    && (forall starts :: InHold(starts, hold) && ConcurrentAtMost(starts, length, limit) ==>
          TalkSeconds(starts, length, hold) <= seconds)
    && exists starts :: InHold(starts, hold) && ConcurrentAtMost(starts, length, limit)
                        && TalkSeconds(starts, length, hold) == seconds
  }

  /**
   The most that can happen in a hold: as many calls as the concurrent limit or the rate allows, whichever is more,
   as many packets as their rate allows, and as many seconds of talk as the concurrent limit allows.
   */
  ghost predicate Peak(i: Intensity, hold: nat, length: nat, b: Budget) {
    && (exists concurrent: nat, rated: nat ::
          && MostConcurrent(hold, length, i.concurrentCalls, concurrent) && MostPerSecond(hold, i.callsPerSecond, rated)
          && b.calls == if concurrent < rated then rated else concurrent)
    && MostPerSecond(hold, i.mediaPacketsPerSecond, b.mediaPackets)
    && MostTalk(hold, length, i.concurrentCalls, b.callSeconds)
    && b.duration == hold
  }

  lemma RateReached(hold: nat, limit: nat)
    ensures MostPerSecond(hold, limit, limit * hold)
  {
    forall starts | InHold(starts, hold) && PerSecondAtMost(starts, limit) ensures |starts| <= limit * hold {
      RateBounds(starts, hold, limit);
    }
    VolleySize(limit, 1, hold);
    VolleysInHold(limit, 1, hold, hold);
    VolleysPerSecond(limit, hold);
  }

  lemma ConcurrencyReached(hold: nat, length: nat, limit: nat)
    requires length > 0
    ensures MostConcurrent(hold, length, limit, limit * CeilDiv(hold, length))
    ensures MostTalk(hold, length, limit, limit * hold)
  {
    var n := CeilDiv(hold, length);
    hide CeilDiv;
    forall starts | InHold(starts, hold) && ConcurrentAtMost(starts, length, limit)
      ensures |starts| <= limit * n && TalkSeconds(starts, length, hold) <= limit * hold
    {
      ConcurrencyBounds(starts, hold, length, limit, n);
      TalkAtMost(starts, length, limit, hold);
    }
    VolleySize(limit, length, n);
    VolleysInHold(limit, length, n, hold);
    VolleysConcurrent(limit, length, n);
    VolleysTalk(limit, length, n, hold, n * length);
  }

  lemma PeakOnce(i: Intensity, hold: nat, length: nat, a: Budget, b: Budget)
    requires Peak(i, hold, length, a) && Peak(i, hold, length, b)
    ensures a == b
  {
  }

  lemma WorstIsPeak(i: Intensity, hold: nat, length: nat)
    requires length > 0
    ensures Peak(i, hold, length, WorstCase(i, hold, length))
  {
    RateReached(hold, i.callsPerSecond);
    RateReached(hold, i.mediaPacketsPerSecond);
    ConcurrencyReached(hold, length, i.concurrentCalls);
    hide MostConcurrent, MostPerSecond, MostTalk, CeilDiv;
  }

  /** The budget of a step is exactly the most its load can do, when that fits 64 bits. */
  lemma StepBudgetExactly(i: Intensity, hold: nat, length: nat, b: Budget)
    requires length > 0 && hold <= U64_MAX
    ensures StepBudget(i, hold, length) == Some(b) <==>
            && Peak(i, hold, length, b)
            && b.calls <= U64_MAX && b.mediaPackets <= U64_MAX && b.callSeconds <= U64_MAX && b.duration <= U64_MAX
  {
    WorstIsPeak(i, hold, length);
    if Peak(i, hold, length, b) {
      PeakOnce(i, hold, length, b, WorstCase(i, hold, length));
    }
    hide Peak, WorstCase;
  }
}
