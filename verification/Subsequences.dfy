/** Finite enumerations: subsequences, combinations and cartesian products. */
module Subsequences {

  /** One left-to-right scan that consumes the haystack once, as an iterator does. */
  predicate Scan<T(==)>(needle: seq<T>, haystack: seq<T>) {
    if needle == [] then true
    else if haystack == [] then false
    else if needle[0] == haystack[0] then Scan(needle[1..], haystack[1..])
    else Scan(needle, haystack[1..])
  }

  /** The declarative meaning: strictly increasing positions spell the needle. */
  ghost predicate Embeds<T>(needle: seq<T>, haystack: seq<T>, positions: seq<nat>) {
    && |positions| == |needle|
    && (forall i :: 0 <= i < |positions| ==> positions[i] < |haystack| && haystack[positions[i]] == needle[i])
    && (forall i, j :: 0 <= i < j < |positions| ==> positions[i] < positions[j])
  }

  lemma {:induction false} ScanFindsPositions<T>(needle: seq<T>, haystack: seq<T>) returns (positions: seq<nat>)
    requires Scan(needle, haystack)
    ensures Embeds(needle, haystack, positions)
  {
    if needle == [] {
      positions := [];
    } else if needle[0] == haystack[0] {
      var rest := ScanFindsPositions(needle[1..], haystack[1..]);
      positions := [0] + seq(|rest|, i requires 0 <= i < |rest| => rest[i] + 1);
    } else {
      var rest := ScanFindsPositions(needle, haystack[1..]);
      positions := seq(|rest|, i requires 0 <= i < |rest| => rest[i] + 1);
    }
  }

  lemma {:induction false} PositionsScan<T>(needle: seq<T>, haystack: seq<T>, positions: seq<nat>)
    requires Embeds(needle, haystack, positions)
    ensures Scan(needle, haystack)
    decreases |haystack|
  {
    if needle != [] {
      var n := |positions|;
      if positions[0] == 0 || needle[0] == haystack[0] {
        PositionsScan(needle[1..], haystack[1..], seq(n - 1, i requires 0 <= i < n - 1 => positions[i + 1] - 1));
      } else {
        PositionsScan(needle, haystack[1..], seq(n, i requires 0 <= i < n => positions[i] - 1));
      }
    }
  }

  /** The greedy scan decides exactly whether the needle embeds. */
  lemma ScanIsEmbedding<T>(needle: seq<T>, haystack: seq<T>)
    ensures Scan(needle, haystack) <==> exists positions :: Embeds(needle, haystack, positions)
  {
    if Scan(needle, haystack) {
      var positions := ScanFindsPositions(needle, haystack);
    }
    if positions :| Embeds(needle, haystack, positions) {
      PositionsScan(needle, haystack, positions);
    }
  }

  lemma {:induction false} ScanReflexive<T>(s: seq<T>)
    ensures Scan(s, s)
  {
    if s != [] {
      ScanReflexive(s[1..]);
    }
  }

  lemma ScanTransitive<T>(a: seq<T>, b: seq<T>, c: seq<T>)
    requires Scan(a, b) && Scan(b, c)
    ensures Scan(a, c)
  {
    var p := ScanFindsPositions(a, b);
    var q := ScanFindsPositions(b, c);
    PositionsScan(a, c, seq(|p|, i requires 0 <= i < |p| => q[p[i]]));
  }

  /** Dropping one element leaves a subsequence. */
  lemma DropOneScan<T>(s: seq<T>, k: nat)
    requires k < |s|
    ensures Scan(s[..k] + s[k + 1..], s)
  {
    PositionsScan(s[..k] + s[k + 1..], s,
                  seq(|s| - 1, i requires 0 <= i < |s| - 1 => if i < k then i else i + 1));
  }

  /** Members of a subsequence are members, and it is no longer than the whole. */
  lemma ScanMembers<T>(needle: seq<T>, haystack: seq<T>)
    requires Scan(needle, haystack)
    ensures |needle| <= |haystack|
    ensures forall x :: x in needle ==> x in haystack
  {
    var p := ScanFindsPositions(needle, haystack);
    forall x | x in needle ensures x in haystack {
      var i :| 0 <= i < |needle| && needle[i] == x;
      assert haystack[p[i]] == x;
    }
    if |needle| > 0 {
      IncreasingAtLeast(p, |p| - 1);
    }
  }

  lemma {:induction false} IncreasingAtLeast(p: seq<nat>, i: nat)
    requires i < |p|
    requires forall i, j :: 0 <= i < j < |p| ==> p[i] < p[j]
    ensures p[i] >= i
  {
    if i > 0 {
      IncreasingAtLeast(p, i - 1);
    }
  }

  predicate Distinct<T(==)>(s: seq<T>) {
    forall i, j :: 0 <= i < j < |s| ==> s[i] != s[j]
  }

  lemma ScanDistinct<T>(needle: seq<T>, haystack: seq<T>)
    requires Scan(needle, haystack) && Distinct(haystack)
    ensures Distinct(needle)
  {
    var p := ScanFindsPositions(needle, haystack);
    forall i, j | 0 <= i < j < |needle| ensures needle[i] != needle[j] {
      assert p[i] < p[j];
      assert haystack[p[i]] != haystack[p[j]];
    }
  }

  function PrefixAll<T>(x: T, ts: seq<seq<T>>): (r: seq<seq<T>>)
    ensures |r| == |ts|
    ensures forall i :: 0 <= i < |ts| ==> r[i] == [x] + ts[i]
  {
    seq(|ts|, i requires 0 <= i < |ts| => [x] + ts[i])
  }

  lemma PrefixAllMembers<T>(x: T, ts: seq<seq<T>>, t: seq<T>)
    ensures t in PrefixAll(x, ts) <==> t != [] && t[0] == x && t[1..] in ts
  {
    if t in PrefixAll(x, ts) {
      var i :| 0 <= i < |ts| && PrefixAll(x, ts)[i] == t;
      assert t[1..] == ts[i];
    }
    if t != [] && t[0] == x && t[1..] in ts {
      var i :| 0 <= i < |ts| && ts[i] == t[1..];
      assert PrefixAll(x, ts)[i] == [x] + t[1..] == t;
    }
  }

  /** All length-k selections in position order. */
  function Combinations<T>(s: seq<T>, k: nat): seq<seq<T>>
    decreases s
  {
    if k == 0 then [[]]
    else if s == [] then []
    else PrefixAll(s[0], Combinations(s[1..], k - 1)) + Combinations(s[1..], k)
  }

  lemma CombinationsStep<T>(s: seq<T>, k: nat, t: seq<T>)
    requires s != [] && k > 0
    ensures t in Combinations(s, k) <==>
            || (t != [] && t[0] == s[0] && t[1..] in Combinations(s[1..], k - 1))
            || t in Combinations(s[1..], k)
  {
    PrefixAllMembers(s[0], Combinations(s[1..], k - 1), t);
  }

  lemma ScanStep<T>(t: seq<T>, s: seq<T>)
    requires s != [] && t != []
    ensures Scan(t, s) <==> (t[0] == s[0] && Scan(t[1..], s[1..])) || Scan(t, s[1..])
  {
    if t[0] == s[0] && Scan(t, s[1..]) {
      ScanTail(t, s[1..]);
    }
  }

  lemma CombinationsEnd<T>(s: seq<T>, k: nat, t: seq<T>)
    requires k == 0 || s == []
    ensures t in Combinations(s, k) <==> |t| == k && Scan(t, s)
  {
  }

  /** Enumerating positions and scanning agree on membership, for every length. */
  lemma {:induction false} CombinationsAreScans<T>(s: seq<T>, k: nat, t: seq<T>)
    ensures t in Combinations(s, k) <==> |t| == k && Scan(t, s)
    decreases |s|
  {
    hide Combinations, Scan;
    if k == 0 || s == [] {
      CombinationsEnd(s, k, t);
    } else {
      CombinationsStep(s, k, t);
      if t != [] {
        ScanStep(t, s);
      }
      CombinationsAreScans(s[1..], k, t);
      if t != [] {
        CombinationsAreScans(s[1..], k - 1, t[1..]);
      }
    }
  }

  lemma ScanTail<T>(t: seq<T>, s: seq<T>)
    requires t != [] && Scan(t, s)
    ensures Scan(t[1..], s)
  {
    DropOneScan(t, 0);
    assert t[..0] + t[1..] == t[1..];
    ScanTransitive(t[1..], t, s);
  }

  /** The cartesian product, first domain slowest. */
  function Product<T>(domains: seq<seq<T>>): seq<seq<T>> {
    if domains == [] then [[]]
    else Spread(domains[0], Product(domains[1..]))
  }

  function Spread<T>(values: seq<T>, tails: seq<seq<T>>): seq<seq<T>> {
    if values == [] then [] else PrefixAll(values[0], tails) + Spread(values[1..], tails)
  }

  lemma {:induction false} SpreadMembers<T>(values: seq<T>, tails: seq<seq<T>>, t: seq<T>)
    ensures t in Spread(values, tails) <==> t != [] && t[0] in values && t[1..] in tails
  {
    if values != [] {
      PrefixAllMembers(values[0], tails, t);
      SpreadMembers(values[1..], tails, t);
      assert values == [values[0]] + values[1..];
    }
  }

  /** The product holds exactly the pointwise choices. */
  lemma {:induction false} ProductMembers<T>(domains: seq<seq<T>>, t: seq<T>)
    ensures t in Product(domains) <==>
            |t| == |domains| && forall i :: 0 <= i < |t| ==> t[i] in domains[i]
  {
    if domains != [] {
      SpreadMembers(domains[0], Product(domains[1..]), t);
      if t != [] {
        ProductMembers(domains[1..], t[1..]);
        if |t| == |domains| && forall i :: 0 <= i < |t| - 1 ==> t[1..][i] in domains[1..][i] {
          forall i | 1 <= i < |t| ensures t[i] in domains[i] {
            assert t[1..][i - 1] in domains[1..][i - 1];
          }
        }
      }
    }
  }

  lemma {:induction false} SpreadDistinct<T>(values: seq<T>, tails: seq<seq<T>>)
    requires Distinct(values) && Distinct(tails)
    ensures Distinct(Spread(values, tails))
  {
    if values != [] {
      var v, here, later := values[0], PrefixAll(values[0], tails), Spread(values[1..], tails);
      SpreadDistinct(values[1..], tails);
      forall i, j | 0 <= i < |here| && 0 <= j < |later| ensures here[i] != later[j] {
        SpreadMembers(values[1..], tails, later[j]);
        assert later[j] in later;
        assert here[i][0] == v;
      }
      forall i, j | 0 <= i < j < |here| ensures here[i] != here[j] {
        assert here[i][1..] == tails[i] && here[j][1..] == tails[j];
      }
    }
  }

  /** Products of duplicate-free domains list every choice once. */
  lemma {:induction false} ProductDistinct<T>(domains: seq<seq<T>>)
    requires forall i :: 0 <= i < |domains| ==> Distinct(domains[i])
    ensures Distinct(Product(domains))
  {
    if domains != [] {
      ProductDistinct(domains[1..]);
      SpreadDistinct(domains[0], Product(domains[1..]));
    }
  }

  lemma {:induction false} SpreadSize<T>(values: seq<T>, tails: seq<seq<T>>)
    ensures |Spread(values, tails)| == |values| * |tails|
  {
    if values != [] {
      SpreadSize(values[1..], tails);
    }
  }

  /** A sequence without repetition is no longer than a set that holds its members. */
  lemma {:induction false} DistinctFits<T>(s: seq<T>, whole: set<T>)
    requires Distinct(s) && forall i :: 0 <= i < |s| ==> s[i] in whole
    ensures |s| <= |whole|
  {
    if s != [] {
      var n := |s| - 1;
      DistinctFits(s[..n], whole - {s[n]});
    }
  }

  lemma {:induction false} PrefixAllCount<T>(x: T, ts: seq<seq<T>>, t: seq<T>)
    ensures multiset(PrefixAll(x, ts))[t] == if t != [] && t[0] == x then multiset(ts)[t[1..]] else 0
  {
    if ts != [] {
      var n := |ts| - 1;
      PrefixAllCount(x, ts[..n], t);
      assert ts == ts[..n] + [ts[n]];
      assert PrefixAll(x, ts) == PrefixAll(x, ts[..n]) + [[x] + ts[n]];
      if t != [] && t[0] == x {
        assert t == [x] + t[1..];
      }
      assert ([x] + ts[n])[1..] == ts[n];
    }
  }

  /** A choice is listed once for every pair of places its head and its tail are listed at. */
  lemma {:induction false} SpreadCount<T>(values: seq<T>, tails: seq<seq<T>>, t: seq<T>)
    requires t != []
    ensures multiset(Spread(values, tails))[t] == multiset(values)[t[0]] * multiset(tails)[t[1..]]
  {
    if values != [] {
      SpreadCount(values[1..], tails, t);
      PrefixAllCount(values[0], tails, t);
      assert values == [values[0]] + values[1..];
      OneMoreTimes(multiset(values[1..])[t[0]], multiset(tails)[t[1..]]);
    }
  }

  lemma OneMoreTimes(a: nat, b: nat)
    ensures (a + 1) * b == a * b + b
  {
  }

  lemma {:induction false} DistinctCount<T>(s: seq<T>, x: T)
    requires Distinct(s)
    ensures multiset(s)[x] <= 1
  {
    if s != [] {
      var n := |s| - 1;
      DistinctCount(s[..n], x);
      assert s == s[..n] + [s[n]];
      assert s[n] !in s[..n];
    }
  }
}
