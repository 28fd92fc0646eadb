/** Pairing RTP packets seen before and after an impairment, first sent to first received per identity. */
module PairMeasurement {
  import opened Prelude
  import opened Sorting
  import opened Subsequences

  datatype Identity = Identity(ssrc: nat, sequence: nat, timestamp: nat, payloadType: nat, digest: string)

  /** A captured packet; times are integer microseconds. */
  datatype Packet = Packet(time: int, key: Identity)

  datatype Counts = Counts(matched: nat, lost: nat, duplicates: nat, reordered: nat, indexes: seq<nat>)

  datatype MeasureError = NegativeDelay

  // ----- what pairing means

  const KeyOf: Packet -> Identity := (p: Packet) => p.key

  function Keys(packets: seq<Packet>): (r: seq<Identity>)
    ensures |r| == |packets|
    ensures forall i :: 0 <= i < |r| ==> r[i] == packets[i].key
  {
    Map(KeyOf, packets)
  }

  /** Positions in `sent` that carry the key, in order. */
  function Occurrences(sent: seq<Packet>, key: Identity): seq<nat> {
    if sent == [] then []
    else Occurrences(sent[..|sent| - 1], key) + if sent[|sent| - 1].key == key then [|sent| - 1] else []
  }

  lemma {:induction false} OccurrencesCount(sent: seq<Packet>, key: Identity)
    ensures |Occurrences(sent, key)| == multiset(Keys(sent))[key]
  {
    if sent != [] {
      var n := |sent| - 1;
      OccurrencesCount(sent[..n], key);
      assert Keys(sent) == Keys(sent[..n]) + [sent[n].key];
    } else {
      assert Keys(sent) == [];
    }
  }

  ghost predicate Places(sent: seq<Packet>, key: Identity, o: seq<nat>) {
    && (forall i :: 0 <= i < |o| ==> o[i] < |sent| && sent[o[i]].key == key)
    && forall i, j :: 0 <= i < j < |o| ==> o[i] < o[j]
  }

  lemma {:induction false} OccurrencesPlaces(sent: seq<Packet>, key: Identity)
    ensures Places(sent, key, Occurrences(sent, key))
  {
    if sent != [] {
      OccurrencesPlaces(sent[..|sent| - 1], key);
    }
  }

  lemma OccurrencesFacts(sent: seq<Packet>, key: Identity)
    ensures |Occurrences(sent, key)| == multiset(Keys(sent))[key]
    ensures forall x :: x in Occurrences(sent, key) ==> x < |sent| && sent[x].key == key
    ensures forall i, j :: 0 <= i < j < |Occurrences(sent, key)| ==>
                Occurrences(sent, key)[i] < Occurrences(sent, key)[j]
  {
    hide Occurrences, Keys;
    OccurrencesCount(sent, key);
    OccurrencesPlaces(sent, key);
  }

  /** The sent packet the i-th received one is paired with: the next unused one of its identity. */
  function Partner(sent: seq<Packet>, received: seq<Packet>, i: nat): Option<nat>
    requires i < |received|
  {
    var all, used := Occurrences(sent, received[i].key), multiset(Keys(received[..i]))[received[i].key];
    if used < |all| then Some(all[used]) else None
  }

  /** Partners of the first n received packets, in arrival order. */
  function Partners(sent: seq<Packet>, received: seq<Packet>, n: nat): seq<nat>
    requires n <= |received|
  {
    if n == 0 then []
    else
      match Partner(sent, received, n - 1)
      case Some(x) => Partners(sent, received, n - 1) + [x]
      case None => Partners(sent, received, n - 1)
  }

  ghost predicate Causal(sent: seq<Packet>, received: seq<Packet>, i: nat)
    requires i < |received|
  {
    Partner(sent, received, i).Some? ==>
      Partner(sent, received, i).value < |sent| && sent[Partner(sent, received, i).value].time <= received[i].time
  }

  /** How many positions are below an earlier one. */
  function Inversions(s: seq<nat>, highWater: int): nat {
    if s == [] then 0
    else if s[0] < highWater then 1 + Inversions(s[1..], highWater)
    else Inversions(s[1..], s[0])
  }

  // ----- facts about pairing

  lemma PartnerIsSent(sent: seq<Packet>, received: seq<Packet>, i: nat)
    requires i < |received| && Partner(sent, received, i).Some?
    ensures Partner(sent, received, i).value < |sent|
    ensures sent[Partner(sent, received, i).value].key == received[i].key
  {
    OccurrencesFacts(sent, received[i].key);
    assert Partner(sent, received, i).value in Occurrences(sent, received[i].key);
  }

  lemma KeysGrow(received: seq<Packet>, i: nat, j: nat)
    requires i < j <= |received|
    ensures multiset(Keys(received[..i])) + multiset{received[i].key} <= multiset(Keys(received[..j]))
    decreases j - i
  {
    assert Keys(received[..i + 1]) == Keys(received[..i]) + [received[i].key];
    if i + 1 < j {
      KeysGrow(received, i + 1, j);
    }
  }

  /** No sent packet is used twice. */
  lemma PartnersDiffer(sent: seq<Packet>, received: seq<Packet>, i: nat, j: nat)
    requires i < j < |received|
    requires Partner(sent, received, i).Some? && Partner(sent, received, j).Some?
    ensures Partner(sent, received, i) != Partner(sent, received, j)
  {
    PartnerIsSent(sent, received, i);
    PartnerIsSent(sent, received, j);
    var key := received[i].key;
    if received[j].key == key {
      OccurrencesFacts(sent, key);
      KeysGrow(received, i, j);
      var a, b := multiset(Keys(received[..i]))[key], multiset(Keys(received[..j]))[key];
      assert a < b;
      assert Occurrences(sent, key)[a] < Occurrences(sent, key)[b];
    }
  }

  lemma {:induction false} PartnersOrigin(sent: seq<Packet>, received: seq<Packet>, n: nat)
    requires n <= |received|
    ensures forall x :: x in Partners(sent, received, n) ==>
              x < |sent| && exists i :: 0 <= i < n && Partner(sent, received, i) == Some(x)
    ensures Distinct(Partners(sent, received, n))
  {
    hide Partner;
    if n > 0 {
      PartnersOrigin(sent, received, n - 1);
      if Partner(sent, received, n - 1).Some? {
        var x := Partner(sent, received, n - 1).value;
        PartnerIsSent(sent, received, n - 1);
        var before := Partners(sent, received, n - 1);
        forall k | 0 <= k < |before| ensures before[k] != x {
          assert before[k] in before;
          var i :| 0 <= i < n - 1 && Partner(sent, received, i) == Some(before[k]);
          PartnersDiffer(sent, received, i, n - 1);
        }
      }
    }
  }

  ghost predicate Gains(before: multiset<Identity>, after: multiset<Identity>, k: Identity, more: bool) {
    after == if more then before + multiset{k} else before
  }

  /** What is common to `a` and `b` gains k when `b` does, as long as `a` has more of it. */
  lemma CommonGains(a: multiset<Identity>, b: multiset<Identity>, c: multiset<Identity>,
                    common: multiset<Identity>, after: multiset<Identity>, k: Identity)
    requires Gains(b, c, k, true) && common == a * b && Gains(common, after, k, b[k] < a[k])
    ensures after == a * c
  {
    if b[k] < a[k] {
      assert a * (b + multiset{k}) == a * b + multiset{k};
    } else {
      assert a * (b + multiset{k}) == a * b;
    }
  }

  predicate Within(indexes: seq<nat>, n: nat) {
    forall k :: 0 <= k < |indexes| ==> indexes[k] < n
  }

  /** The identities at the given sent positions. */
  function KeysAt(sent: seq<Packet>, indexes: seq<nat>): (r: seq<Identity>)
    requires Within(indexes, |sent|)
    ensures |r| == |indexes|
    ensures forall k :: 0 <= k < |r| ==> r[k] == sent[indexes[k]].key
  {
    seq(|indexes|, k requires 0 <= k < |indexes| => sent[indexes[k]].key)
  }

  lemma {:induction false} PartnersInRange(sent: seq<Packet>, received: seq<Packet>, n: nat)
    requires n <= |received|
    ensures Within(Partners(sent, received, n), |sent|)
  {
    hide Partner;
    if n > 0 {
      PartnersInRange(sent, received, n - 1);
      if Partner(sent, received, n - 1).Some? {
        PartnerIsSent(sent, received, n - 1);
      }
    }
  }

  lemma PartnerWhen(sent: seq<Packet>, received: seq<Packet>, i: nat)
    requires i < |received|
    ensures Partner(sent, received, i).Some? <==>
            multiset(Keys(received[..i]))[received[i].key] < multiset(Keys(sent))[received[i].key]
  {
    OccurrencesFacts(sent, received[i].key);
    hide Keys, Occurrences;
  }

  lemma NoKeysYet(sent: seq<Packet>, received: seq<Packet>)
    ensures multiset(Keys(received[..0])) == multiset{} && KeysAt(sent, []) == []
  {
    assert Keys(received[..0]) == [];
  }

  lemma OneMoreKey(received: seq<Packet>, i: nat)
    requires i < |received|
    ensures Gains(multiset(Keys(received[..i])), multiset(Keys(received[..i + 1])), received[i].key, true)
  {
    assert Keys(received[..i + 1]) == Keys(received[..i]) + [received[i].key];
  }

  lemma OnePartnerMore(sent: seq<Packet>, received: seq<Packet>, n: nat)
    requires 0 < n <= |received|
    requires Within(Partners(sent, received, n), |sent|)
    requires Within(Partners(sent, received, n - 1), |sent|)
    ensures Gains(multiset(KeysAt(sent, Partners(sent, received, n - 1))),
                  multiset(KeysAt(sent, Partners(sent, received, n))),
                  received[n - 1].key, Partner(sent, received, n - 1).Some?)
  {
    hide Partner;
    if Partner(sent, received, n - 1).Some? {
      PartnerIsSent(sent, received, n - 1);
      assert KeysAt(sent, Partners(sent, received, n))
             == KeysAt(sent, Partners(sent, received, n - 1)) + [received[n - 1].key];
    }
  }

  /** The identities matched so far, and those seen so far. */
  ghost function Matched(sent: seq<Packet>, received: seq<Packet>, n: nat): multiset<Identity>
    requires n <= |received|
  {
    PartnersInRange(sent, received, n);
    multiset(KeysAt(sent, Partners(sent, received, n)))
  }

  ghost function Seen(packets: seq<Packet>, n: nat): multiset<Identity>
    requires n <= |packets|
  {
    multiset(Keys(packets[..n]))
  }

  lemma MatchedStep(sent: seq<Packet>, received: seq<Packet>, n: nat)
    requires 0 < n <= |received|
    ensures Gains(Seen(received, n - 1), Seen(received, n), received[n - 1].key, true)
    ensures Gains(Matched(sent, received, n - 1), Matched(sent, received, n), received[n - 1].key,
                  Seen(received, n - 1)[received[n - 1].key] < Seen(sent, |sent|)[received[n - 1].key])
  {
    assert sent[..|sent|] == sent;
    PartnersInRange(sent, received, n - 1);
    PartnersInRange(sent, received, n);
    OneMoreKey(received, n - 1);
    PartnerWhen(sent, received, n - 1);
    OnePartnerMore(sent, received, n);
    hide Keys, KeysAt, Partner, Partners, Within, Gains;
  }

  lemma {:induction false} MatchedIsCommon(sent: seq<Packet>, received: seq<Packet>, n: nat)
    requires n <= |received|
    ensures Matched(sent, received, n) == Seen(sent, |sent|) * Seen(received, n)
  {
    hide Matched, Seen, Gains;
    if n == 0 {
      NothingMatched(sent, received);
    } else {
      MatchedIsCommon(sent, received, n - 1);
      MatchedStep(sent, received, n);
      CommonGains(Seen(sent, |sent|), Seen(received, n - 1), Seen(received, n),
                  Matched(sent, received, n - 1), Matched(sent, received, n), received[n - 1].key);
    }
  }

  lemma NothingMatched(sent: seq<Packet>, received: seq<Packet>)
    ensures Matched(sent, received, 0) == Seen(sent, |sent|) * Seen(received, 0)
  {
    NoKeysYet(sent, received);
    hide Keys, KeysAt;
  }

  /** The matched identities are exactly the common part of the two identity multisets. */
  lemma MatchedIsIntersection(sent: seq<Packet>, received: seq<Packet>, n: nat)
    requires n <= |received|
    ensures Within(Partners(sent, received, n), |sent|)
    ensures multiset(KeysAt(sent, Partners(sent, received, n))) == multiset(Keys(sent)) * multiset(Keys(received[..n]))
  {
    PartnersInRange(sent, received, n);
    MatchedIsCommon(sent, received, n);
    assert sent[..|sent|] == sent;
    hide Keys, KeysAt, Partners, Within;
  }

  /** No inversion is counted exactly when the positions rise. */
  lemma {:induction false} NoInversions(s: seq<nat>, highWater: int)
    requires Distinct(s)
    ensures Inversions(s, highWater) == 0 <==>
            (forall i :: 0 <= i < |s| ==> highWater <= s[i]) && forall i, j :: 0 <= i < j < |s| ==> s[i] < s[j]
  {
    if s != [] {
      var t := s[1..];
      NoInversions(t, if s[0] < highWater then highWater else s[0]);
      if s[0] >= highWater {
        assert (forall j :: 0 <= j < |t| ==> s[0] <= t[j]) <==> (forall j :: 1 <= j < |s| ==> s[0] < s[j]) by {
          assert forall j :: 1 <= j < |s| ==> t[j - 1] == s[j] && s[0] != s[j];
          if forall j :: 1 <= j < |s| ==> s[0] < s[j] {
            forall j | 0 <= j < |t| ensures s[0] <= t[j] {
              assert t[j] == s[j + 1];
            }
          }
        }
        RiseSplits(s);
      }
    }
  }

  lemma RiseSplits(s: seq<nat>)
    requires s != []
    ensures (forall i, j :: 0 <= i < j < |s| ==> s[i] < s[j]) <==>
            (forall j :: 1 <= j < |s| ==> s[0] < s[j]) && forall i, j :: 0 <= i < j < |s| - 1 ==> s[1..][i] < s[1..][j]
  {
    if (forall j :: 1 <= j < |s| ==> s[0] < s[j]) && forall i, j :: 0 <= i < j < |s| - 1 ==> s[1..][i] < s[1..][j] {
      forall i, j | 0 <= i < j < |s| ensures s[i] < s[j] {
        if i > 0 {
          assert s[1..][i - 1] < s[1..][j - 1];
        }
      }
    }
  }

  // ----- the measurement

  /** The queue of a key holds the sent positions not yet used. */
  ghost predicate Pending(sent: seq<Packet>, received: seq<Packet>, i: nat, queues: map<Identity, seq<nat>>,
                          key: Identity)
    requires i <= |received|
  {
    var all, used := Occurrences(sent, key), multiset(Keys(received[..i]))[key];
    if key in queues then queues[key] == all[Min(used, |all|)..] else all == []
  }

  method Enqueue(sent: seq<Packet>) returns (queues: map<Identity, seq<nat>>)
    ensures forall key :: if key in queues then queues[key] == Occurrences(sent, key) else Occurrences(sent, key) == []
  {
    queues := map[];
    for i := 0 to |sent|
      invariant forall key ::
                    if key in queues then queues[key] == Occurrences(sent[..i], key)
                    else Occurrences(sent[..i], key) == []
    {
      assert sent[..i + 1][..i] == sent[..i];
      var key := sent[i].key;
      queues := queues[key := (if key in queues then queues[key] else []) + [i]];
    }
    assert sent[..|sent|] == sent;
  }

  /**
   Match, count and classify. The measurement is refused exactly when some pair would travel back
   in time; otherwise matched, lost and duplicate packets are the multiset intersection and the
   two differences, every used sent packet is used once, and nothing is reordered exactly when
   the matched send positions rise.
   */
  method MeasurePair(sent: seq<Packet>, received: seq<Packet>) returns (r: Result<Counts, MeasureError>)
    ensures r.Ok? <==> forall i :: 0 <= i < |received| ==> Causal(sent, received, i)
    ensures r.Ok? ==> r.value.matched == |multiset(Keys(sent)) * multiset(Keys(received))|
    ensures r.Ok? ==> r.value.matched + r.value.lost == |sent|
    ensures r.Ok? ==> r.value.matched + r.value.duplicates == |received|
    ensures r.Ok? ==> r.value.indexes == Partners(sent, received, |received|)
    ensures r.Ok? ==> |r.value.indexes| == r.value.matched && Distinct(r.value.indexes)
    ensures r.Ok? ==> Within(r.value.indexes, |sent|)
                      && multiset(KeysAt(sent, r.value.indexes)) == multiset(Keys(sent)) * multiset(Keys(received))
    ensures r.Ok? ==> (r.value.reordered == 0 <==>
                       forall i, j :: 0 <= i < j < |r.value.indexes| ==> r.value.indexes[i] < r.value.indexes[j])
  {
    hide Pending, Occurrences, Inversions, Keys, Partner, Causal;
    var queues := Enqueue(sent);
    var indexes: seq<nat>, duplicates, matched := [], 0, 0;
    NothingUsed(sent, received, queues);
    for i := 0 to |received|
      invariant forall k :: 0 <= k < i ==> Causal(sent, received, k)
      invariant indexes == Partners(sent, received, i) && matched == |indexes| && matched + duplicates == i
      invariant forall key :: Pending(sent, received, i, queues, key)
    {
      var packet := received[i];
      var key := packet.key;
      OneUsed(sent, received, i, i + 1, queues);
      WhenCausal(sent, received, i);
      if key in queues && queues[key] != [] {
        var index := queues[key][0];
        queues := queues[key := queues[key][1..]];
        if packet.time < sent[index].time {
          assert !Causal(sent, received, i);
          return Err(NegativeDelay);
        }
        indexes := indexes + [index];
        matched := matched + 1;
      } else {
        duplicates := duplicates + 1;
      }
    }
    assert received[..|received|] == received;
    MatchedIsIntersection(sent, received, |received|);
    assert |multiset(KeysAt(sent, indexes))| == |indexes|;
    PartnersOrigin(sent, received, |received|);
    MatchedAtMost(sent, received);
    var lost := if |sent| > matched then |sent| - matched else 0;
    var reordered := CountReordered(indexes);
    r := Ok(Counts(matched, lost, duplicates, reordered, indexes));
  }

  lemma WhenCausal(sent: seq<Packet>, received: seq<Packet>, i: nat)
    requires i < |received|
    ensures Partner(sent, received, i).Some? ==> Partner(sent, received, i).value < |sent|
    ensures Causal(sent, received, i) <==>
              (Partner(sent, received, i).Some? ==> sent[Partner(sent, received, i).value].time <= received[i].time)
  {
    hide Partner;
    if Partner(sent, received, i).Some? {
      PartnerIsSent(sent, received, i);
    }
  }

  lemma NothingUsed(sent: seq<Packet>, received: seq<Packet>, queues: map<Identity, seq<nat>>)
    requires forall key :: if key in queues then queues[key] == Occurrences(sent, key) else Occurrences(sent, key) == []
    ensures forall key :: Pending(sent, received, 0, queues, key)
  {
    assert Keys(received[..0]) == [];
  }

  /** Receiving one packet advances the queue of its own key only. */
  lemma OneUsed(sent: seq<Packet>, received: seq<Packet>, i: nat, n: nat, queues: map<Identity, seq<nat>>)
    requires i < |received| && n == i + 1 && forall key :: Pending(sent, received, i, queues, key)
    ensures var key := received[i].key;
            var next := if key in queues && queues[key] != [] then queues[key := queues[key][1..]] else queues;
            forall other :: Pending(sent, received, n, next, other)
    ensures var key := received[i].key;
            if key in queues && queues[key] != [] then Partner(sent, received, i) == Some(queues[key][0])
            else Partner(sent, received, i) == None
  {
    hide Occurrences;
    var key := received[i].key;
    assert Pending(sent, received, i, queues, key);
    OneMoreKey(received, i);
    hide Keys;
    var next := if key in queues && queues[key] != [] then queues[key := queues[key][1..]] else queues;
    forall other ensures Pending(sent, received, n, next, other) {
      assert Pending(sent, received, i, queues, other);
    }
  }

  lemma MatchedAtMost(sent: seq<Packet>, received: seq<Packet>)
    ensures |multiset(Keys(sent)) * multiset(Keys(received))| <= |sent|
  {
    var a, b := multiset(Keys(sent)), multiset(Keys(received));
    assert a == a * b + (a - b);
  }

  method CountReordered(indexes: seq<nat>) returns (reordered: nat)
    requires Distinct(indexes)
    ensures reordered == Inversions(indexes, -1)
    ensures reordered == 0 <==> forall i, j :: 0 <= i < j < |indexes| ==> indexes[i] < indexes[j]
  {
    reordered := 0;
    var highWater: int := -1;
    for i := 0 to |indexes|
      invariant reordered + Inversions(indexes[i..], highWater) == Inversions(indexes, -1)
    {
      assert indexes[i..][0] == indexes[i] && indexes[i..][1..] == indexes[i + 1..];
      if indexes[i] < highWater {
        reordered := reordered + 1;
      } else {
        highWater := indexes[i];
      }
    }
    NoInversions(indexes, -1);
  }

  /** Arrival order changes which packets count as reordered, never which identities match and how often. */
  lemma CountsIgnoreArrivalOrder(sent: seq<Packet>, received: seq<Packet>, permuted: seq<Packet>)
    requires multiset(received) == multiset(permuted)
    ensures |Partners(sent, received, |received|)| == |Partners(sent, permuted, |permuted|)| && |received| == |permuted|
    ensures Within(Partners(sent, received, |received|), |sent|)
    ensures Within(Partners(sent, permuted, |permuted|), |sent|)
    ensures multiset(KeysAt(sent, Partners(sent, received, |received|)))
            == multiset(KeysAt(sent, Partners(sent, permuted, |permuted|)))
  {
    assert |multiset(received)| == |multiset(permuted)|;
    assert received[..|received|] == received && permuted[..|permuted|] == permuted;
    MapPermutes(KeyOf, received, permuted);
    MatchedIsIntersection(sent, received, |received|);
    MatchedIsIntersection(sent, permuted, |permuted|);
    assert |multiset(KeysAt(sent, Partners(sent, received, |received|)))| == |Partners(sent, received, |received|)|;
    assert |multiset(KeysAt(sent, Partners(sent, permuted, |permuted|)))| == |Partners(sent, permuted, |permuted|)|;
  }
}
