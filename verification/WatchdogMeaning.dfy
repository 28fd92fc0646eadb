/** What a capture deserves, told without the counters and the reader of the watchdog. */
module WatchdogMeaning {
  import opened Prelude
  import opened Sorting
  import opened Bytes
  import opened Pcap
  import opened CaptureWatchdog

  // ----- ceilings

  /** In microseconds. */
  function Moment(r: Record): nat {
    r.fraction + 1_000_000 * r.seconds
  }

  /** The letters of INVITE, and the space behind them. */
  predicate SaysInvite(packet: seq<byte>, i: nat) {
    && i + 7 <= |packet| && packet[i] == 0x49 && packet[i + 1] == 0x4E && packet[i + 2] == 0x56
    && packet[i + 3] == 0x49 && packet[i + 4] == 0x54 && packet[i + 5] == 0x45 && packet[i + 6] == 0x20
  }

  ghost predicate Calling(r: Record) {
    exists i: nat :: SaysInvite(r.packet, i)
  }

  /** Not more than a second before a moment. */
  predicate Lately(r: Record, now: nat) {
    Moment(r) + 1_000_000 >= now
  }

  ghost function Late(records: seq<Record>, now: nat): set<nat> {
    set i: nat | i < |records| && Lately(records[i], now)
  }

  ghost function Calls(records: seq<Record>): set<nat> {
    set i: nat | i < |records| && Calling(records[i])
  }

  /** Running totals of the wire lengths. */
  ghost predicate Sums(records: seq<Record>, sums: seq<nat>) {
    && |sums| == |records| + 1 && sums[0] == 0
    && forall i :: 0 <= i < |records| ==> sums[i + 1] == sums[i] + records[i].original
  }

  ghost predicate Breaks(m: Maxima, records: seq<Record>, v: Violation)
    requires records != []
  {
    var now := Moment(records[|records| - 1]);
    match v
    case PacketCeiling => |records| > m.packets
    case ByteCeiling => exists sums :: Sums(records, sums) && sums[|records|] > m.bytes
    case PacketRate => |Late(records, now)| > m.packetsPerSecond
    case CallCeiling => |Calls(records)| > m.calls
    case CallRate => |Calls(records) * Late(records, now)| > m.callsPerSecond
    case _ => false
  }

  function Turn(v: Violation): nat {
    match v
    case PacketCeiling => 0
    case ByteCeiling => 1
    case PacketRate => 2
    case CallCeiling => 3
    case CallRate => 4
    case _ => 5
  }

  /** The first ceiling that is broken, in the order they are looked at. */
  ghost predicate BreaksFirst(m: Maxima, records: seq<Record>, v: Violation)
    requires records != []
  {
    Breaks(m, records, v) && forall other :: Breaks(m, records, other) ==> Turn(v) <= Turn(other)
  }

  ghost predicate KeepsAll(m: Maxima, records: seq<Record>)
    requires records != []
  {
    forall v :: !Breaks(m, records, v)
  }

  /** The capture breaks a ceiling when its n-th record arrives, and none before. */
  ghost predicate BrokenAt(m: Maxima, records: seq<Record>, n: nat, v: Violation) {
    && 0 < n <= |records| && BreaksFirst(m, records[..n], v)
    && forall k :: 0 < k < n ==> KeepsAll(m, records[..k])
  }

  lemma CallingIs(r: Record)
    ensures PlacesCall(r) <==> Calling(r)
  {
    forall i: nat ensures CallAt(r.packet, i) <==> SaysInvite(r.packet, i) {
      if i + 7 <= |r.packet| {
        var s := r.packet[i..i + 7];
        assert s == [r.packet[i], r.packet[i + 1], r.packet[i + 2], r.packet[i + 3], r.packet[i + 4], r.packet[i + 5],
                     r.packet[i + 6]];
      }
    }
    if Calling(r) {
      var i: nat :| SaysInvite(r.packet, i);
      assert CallAt(r.packet, i);
    }
    hide CallAt, SaysInvite;
  }

  lemma MomentIs(r: Record)
    ensures TimeOf(r) == Moment(r)
  {
  }

  lemma {:induction false} SumsFound(records: seq<Record>) returns (sums: seq<nat>)
    ensures Sums(records, sums) && sums[|records|] == TotalBytes(records)
  {
    if records == [] {
      sums := [0];
    } else {
      var front := SumsFound(records[..|records| - 1]);
      sums := front + [TotalBytes(records)];
    }
  }

  lemma {:induction false} SumsOnce(records: seq<Record>, a: seq<nat>, b: seq<nat>, i: nat)
    requires Sums(records, a) && Sums(records, b) && i <= |records|
    ensures a[i] == b[i]
  {
    if i > 0 {
      SumsOnce(records, a, b, i - 1);
    }
  }

  lemma {:induction false} LateCounted(records: seq<Record>, now: nat)
    ensures RecentCount(Map(TimeOf, records), now) == |Late(records, now)|
  {
    if records != [] {
      var n := |records| - 1;
      LateCounted(records[..n], now);
      assert Map(TimeOf, records)[..n] == Map(TimeOf, records[..n]);
      MomentIs(records[n]);
      assert Late(records, now) == Late(records[..n], now) + if Lately(records[n], now) then {n} else {};
    }
  }

  lemma {:induction false} CallsCounted(records: seq<Record>)
    ensures |CallTimes(records)| == |Calls(records)|
  {
    if records != [] {
      var n := |records| - 1;
      CallsCounted(records[..n]);
      CallingIs(records[n]);
      hide Calling, PlacesCall;
      assert Calls(records) == Calls(records[..n]) + if Calling(records[n]) then {n} else {};
    }
  }

  lemma {:induction false} LateCallsCounted(records: seq<Record>, now: nat)
    ensures RecentCount(CallTimes(records), now) == |Calls(records) * Late(records, now)|
  {
    if records != [] {
      var n := |records| - 1;
      LateCallsCounted(records[..n], now);
      CallingIs(records[n]);
      MomentIs(records[n]);
      hide Calling, PlacesCall;
      var before := Calls(records[..n]) * Late(records[..n], now);
      var counted := Calling(records[n]) && Lately(records[n], now);
      assert Calls(records) * Late(records, now) == before + if counted then {n} else {};
      var times := CallTimes(records);
      if Calling(records[n]) {
        assert times[..|times| - 1] == CallTimes(records[..n]);
      } else {
        assert times == CallTimes(records[..n]);
      }
    }
  }

  lemma ByteSums(m: Maxima, records: seq<Record>)
    ensures TotalBytes(records) > m.bytes <==> exists sums :: Sums(records, sums) && sums[|records|] > m.bytes
  {
    var found := SumsFound(records);
    forall sums | Sums(records, sums) ensures sums[|records|] == TotalBytes(records) {
      SumsOnce(records, sums, found, |records|);
    }
    hide TotalBytes, Sums;
  }

  /** One ceiling against one count. */
  predicate Over(m: Maxima, v: Violation, packets: nat, bytes: nat, late: nat, calls: nat, lateCalls: nat) {
    match v
    case PacketCeiling => packets > m.packets
    case ByteCeiling => bytes > m.bytes
    case PacketRate => late > m.packetsPerSecond
    case CallCeiling => calls > m.calls
    case CallRate => lateCalls > m.callsPerSecond
    case _ => false
  }

  lemma CeilingsInTurn(m: Maxima, packets: nat, bytes: nat, late: nat, calls: nat, lateCalls: nat)
    ensures var first := Ceilings(m, packets, bytes, late, calls, lateCalls);
            && (first == None <==> forall v :: !Over(m, v, packets, bytes, late, calls, lateCalls))
            && forall v :: first == Some(v) <==>
                           && Over(m, v, packets, bytes, late, calls, lateCalls)
                           && forall other :: Over(m, other, packets, bytes, late, calls, lateCalls) ==>
                                                Turn(v) <= Turn(other)
  {
    assert Over(m, PacketCeiling, packets, bytes, late, calls, lateCalls) <==> packets > m.packets;
    assert Over(m, ByteCeiling, packets, bytes, late, calls, lateCalls) <==> bytes > m.bytes;
    assert Over(m, PacketRate, packets, bytes, late, calls, lateCalls) <==> late > m.packetsPerSecond;
    assert Over(m, CallCeiling, packets, bytes, late, calls, lateCalls) <==> calls > m.calls;
    assert Over(m, CallRate, packets, bytes, late, calls, lateCalls) <==> lateCalls > m.callsPerSecond;
  }

  lemma BreaksIs(m: Maxima, records: seq<Record>, v: Violation)
    requires records != []
    ensures var now := TimeOf(records[|records| - 1]);
            Breaks(m, records, v) <==>
            Over(m, v, |records|, TotalBytes(records), RecentCount(Map(TimeOf, records), now), |CallTimes(records)|,
                 RecentCount(CallTimes(records), now))
  {
    var now := Moment(records[|records| - 1]);
    MomentIs(records[|records| - 1]);
    ByteSums(m, records);
    LateCounted(records, now);
    CallsCounted(records);
    LateCallsCounted(records, now);
    hide TimeOf, Moment, TotalBytes, RecentCount, CallTimes, Late, Calls, Sums;
  }

  /** The verdict on a record is the first ceiling that the records up to it break. */
  lemma VerdictExactly(m: Maxima, records: seq<Record>, v: Violation)
    requires records != []
    ensures Verdict(m, records) == Some(v) <==> BreaksFirst(m, records, v)
    ensures Verdict(m, records) == None <==> KeepsAll(m, records)
  {
    var now := TimeOf(records[|records| - 1]);
    CeilingsInTurn(m, |records|, TotalBytes(records), RecentCount(Map(TimeOf, records), now), |CallTimes(records)|,
                   RecentCount(CallTimes(records), now));
    forall other
      ensures Breaks(m, records, other) <==>
              Over(m, other, |records|, TotalBytes(records), RecentCount(Map(TimeOf, records), now),
                   |CallTimes(records)|, RecentCount(CallTimes(records), now))
    {
      BreaksIs(m, records, other);
    }
    hide Breaks, Over, Ceilings, Turn, TotalBytes, RecentCount, CallTimes, TimeOf;
  }

  lemma VerdictNow(m: Maxima, records: seq<Record>)
    requires records != []
    ensures var n := |records|;
            && (FirstVerdict(m, records[..n - 1]) == None <==> forall k :: 0 < k < n ==> KeepsAll(m, records[..k])) ==>
               (FirstVerdict(m, records) == None <==> forall k :: 0 < k <= n ==> KeepsAll(m, records[..k]))
  {
    var n := |records|;
    assert records[..n] == records;
    if v :| Verdict(m, records) == Some(v) {
      VerdictExactly(m, records, v);
    } else {
      VerdictExactly(m, records, PacketCeiling);
    }
    hide Verdict, KeepsAll;
  }

  /** The verdict on a capture is that on the first record that breaks anything. */
  lemma {:induction false} FirstBroken(m: Maxima, records: seq<Record>, v: Violation) returns (n: nat)
    ensures FirstVerdict(m, records) == Some(v) ==> BrokenAt(m, records, n, v)
    ensures FirstVerdict(m, records) == None <==> forall k :: 0 < k <= |records| ==> KeepsAll(m, records[..k])
  {
    hide Verdict, KeepsAll, BreaksFirst;
    n := |records|;
    if records != [] {
      var front := records[..n - 1];
      assert forall k :: 0 <= k < n ==> front[..k] == records[..k];
      assert records[..n] == records;
      VerdictExactly(m, records, v);
      VerdictNow(m, records);
      var first := FirstBroken(m, front, v);
      if FirstVerdict(m, front).Some? {
        n := first;
      }
    }
  }

  lemma FirstVerdictExactly(m: Maxima, records: seq<Record>, v: Violation)
    ensures FirstVerdict(m, records) == Some(v) <==> exists n: nat :: BrokenAt(m, records, n, v)
  {
    hide Verdict, KeepsAll, BreaksFirst;
    var found := FirstBroken(m, records, v);
    forall n: nat | BrokenAt(m, records, n, v) ensures FirstVerdict(m, records) == Some(v) {
      BrokenIsFirst(m, records, n, v);
    }
  }

  lemma BrokenIsFirst(m: Maxima, records: seq<Record>, n: nat, v: Violation)
    requires BrokenAt(m, records, n, v)
    ensures FirstVerdict(m, records) == Some(v)
  {
    hide Verdict, KeepsAll, BreaksFirst;
    var seen := records[..n];
    var before := seen[..n - 1];
    forall k | 0 < k <= |before| ensures KeepsAll(m, before[..k]) {
      assert before[..k] == records[..k];
    }
    var none := FirstBroken(m, before, v);
    VerdictExactly(m, seen, v);
    assert FirstVerdict(m, seen) == Some(v);
    FirstVerdictStays(m, records, n);
  }

  // ----- a capture, seen whole

  /** The records of a file and where each begins, up to where no further one is complete and small enough. */
  ghost predicate Layout(order: Order, file: seq<byte>, starts: seq<nat>, records: seq<Record>) {
    && |starts| == |records| + 1 && starts[0] == 24
    && (forall k :: 0 <= k < |records| ==> Lies(order, file, starts[k], records[k], starts[k + 1]))
    && !exists r, end :: Lies(order, file, starts[|records|], r, end)
  }

  /** A record of at most a mebibyte: four words, the third of which counts the bytes that follow. */
  ghost predicate Lies(order: Order, file: seq<byte>, start: nat, r: Record, end: nat) {
    && start + 16 <= |file| && end == start + 16 + |r.packet| && end <= |file| && |r.packet| <= 1_048_576
    && r.packet == file[start + 16..end]
    && r.seconds == Word(order, file, start) && r.fraction == Word(order, file, start + 4)
    && |r.packet| == Word(order, file, start + 8) && r.original == Word(order, file, start + 12)
  }

  ghost predicate NoCapture(file: seq<byte>) {
    |file| >= 24 && file[..4] != [0xd4, 0xc3, 0xb2, 0xa1] && file[..4] != [0xa1, 0xb2, 0xc3, 0xd4]
  }

  ghost predicate InOrder(order: Order, file: seq<byte>) {
    |file| >= 24 && file[..4] == if order == Little then [0xd4, 0xc3, 0xb2, 0xa1] else [0xa1, 0xb2, 0xc3, 0xd4]
  }

  /** The header at the end of the records announces more than a mebibyte. */
  ghost predicate TooLargeNext(order: Order, file: seq<byte>, start: nat) {
    start + 16 <= |file| && Word(order, file, start + 8) > 1_048_576
  }

  ghost predicate Deserves(m: Maxima, file: seq<byte>, v: Violation) {
    || (v == FormatInvalid && NoCapture(file))
    || exists order, starts, records ::
      && InOrder(order, file) && Layout(order, file, starts, records)
      && (|| (exists n: nat :: BrokenAt(m, records, n, v))
          || (v == RecordTooLarge && TooLargeNext(order, file, starts[|records|])
              && forall k :: 0 < k <= |records| ==> KeepsAll(m, records[..k])))
  }

  lemma LiesIs(order: Order, file: seq<byte>, at: nat, r: Record, end: nat)
    ensures Lies(order, file, at, r, end) <==>
            Readable(order, file, at) != [] && Readable(order, file, at)[0] == r && end == at + 16 + |r.packet|
  {
    RecordIncluded(order, file, at);
    if at + 16 <= |file| && Included(order, file, at) <= RECORD_LIMIT && at + 16 + Included(order, file, at) <= |file| {
      var shown := RecordAt(order, file, at);
      hide Word;
      if Lies(order, file, at, r, end) {
        assert r == shown;
      }
    }
  }

  lemma {:induction false} LayoutOnce(order: Order, file: seq<byte>, starts: seq<nat>, records: seq<Record>, k: nat)
    requires Layout(order, file, starts, records) && k <= |records|
    ensures Readable(order, file, 24) == records[..k] + Readable(order, file, starts[k])
    ensures starts[k] == Span(records[..k])
  {
    hide Readable, Lies;
    if k == 0 {
      assert records[..0] == [];
    } else {
      var at := starts[k - 1];
      LayoutOnce(order, file, starts, records, k - 1);
      LiesIs(order, file, at, records[k - 1], starts[k]);
      ReadableStep(order, file, at);
      SpanGrows(records, k - 1);
      var rest := Readable(order, file, at);
      assert rest == [rest[0]] + rest[1..];
      assert records[..k] == records[..k - 1] + [records[k - 1]];
    }
  }

  lemma LayoutIsRead(order: Order, file: seq<byte>, starts: seq<nat>, records: seq<Record>)
    requires Layout(order, file, starts, records)
    ensures records == Readable(order, file, 24) && starts[|records|] == Span(records)
  {
    var n := |records|;
    LayoutOnce(order, file, starts, records, n);
    assert records[..n] == records;
    var rest := Readable(order, file, starts[n]);
    hide Readable, Lies;
    if rest != [] {
      LiesIs(order, file, starts[n], rest[0], starts[n] + 16 + |rest[0].packet|);
    }
  }

  lemma LayoutFound(order: Order, file: seq<byte>) returns (starts: seq<nat>)
    requires |file| >= 24
    ensures Layout(order, file, starts, Readable(order, file, 24))
    ensures starts[|Readable(order, file, 24)|] == Span(Readable(order, file, 24))
  {
    var records := Readable(order, file, 24);
    var n := |records|;
    starts := seq(n + 1, k requires 0 <= k <= n => Span(records[..k]));
    hide Readable, Lies;
    assert records[..n] == records && records[..0] == [];
    forall k | 0 <= k < n ensures Lies(order, file, starts[k], records[k], starts[k + 1]) {
      ReadableFrom(order, file, k);
      SpanGrows(records, k);
      assert records[k..][0] == records[k];
      LiesIs(order, file, starts[k], records[k], starts[k + 1]);
    }
    ReadableFrom(order, file, n);
    forall r, end ensures !Lies(order, file, starts[n], r, end) {
      LiesIs(order, file, starts[n], r, end);
    }
  }

  lemma LaidOutExactly(m: Maxima, order: Order, file: seq<byte>, starts: seq<nat>, records: seq<Record>, v: Violation)
    requires InOrder(order, file) && Layout(order, file, starts, records)
    ensures Outcome(m, file) == Some(v) <==>
            || (exists n: nat :: BrokenAt(m, records, n, v))
            || (v == RecordTooLarge && TooLargeNext(order, file, starts[|records|])
                && forall k :: 0 < k <= |records| ==> KeepsAll(m, records[..k]))
  {
    LayoutIsRead(order, file, starts, records);
    FirstVerdictExactly(m, records, v);
    var n := FirstBroken(m, records, v);
    NeverTooLarge(m, records);
    hide FirstVerdict, Readable, Span, Layout, KeepsAll, BrokenAt;
  }

  lemma {:induction false} NeverTooLarge(m: Maxima, records: seq<Record>)
    ensures FirstVerdict(m, records) != Some(RecordTooLarge) && FirstVerdict(m, records) != Some(FormatInvalid)
  {
    if records != [] {
      NeverTooLarge(m, records[..|records| - 1]);
      hide TotalBytes, RecentCount, CallTimes, TimeOf;
    }
  }

  /** What is reported about a capture is what it deserves, and nothing is reported of one that deserves nothing. */
  lemma OutcomeExactly(m: Maxima, file: seq<byte>, v: Violation)
    ensures Outcome(m, file) == Some(v) <==> Deserves(m, file, v)
  {
    hide FirstVerdict, Readable, Span, Lies, KeepsAll, BrokenAt, TooLargeNext;
    forall order, starts, records | InOrder(order, file) && Layout(order, file, starts, records)
      ensures Outcome(m, file) == Some(v) <==>
              || (exists n: nat :: BrokenAt(m, records, n, v))
              || (v == RecordTooLarge && TooLargeNext(order, file, starts[|records|])
                  && forall k :: 0 < k <= |records| ==> KeepsAll(m, records[..k]))
    {
      LaidOutExactly(m, order, file, starts, records, v);
    }
    if |file| >= 24 && OrderOf(file).Some? {
      var order := OrderOf(file).value;
      var starts := LayoutFound(order, file);
      assert InOrder(order, file);
    }
  }

  lemma StoppedWhereBroken(m: Maxima, records: seq<Record>, n: nat, v: Violation)
    requires FirstAt(m, records, n) && Verdict(m, records[..n]) == Some(v)
    ensures BrokenAt(m, records, n, v)
  {
    hide Verdict, FirstVerdict, KeepsAll, BreaksFirst;
    VerdictExactly(m, records[..n], v);
    var none := FirstBroken(m, records[..n - 1], v);
    forall k | 0 < k < n ensures KeepsAll(m, records[..k]) {
      assert records[..n - 1][..k] == records[..k];
    }
  }

  /**
   Whatever prefixes of a capture the watchdog is shown, it reports nothing that the capture does not deserve, and a
   broken ceiling with exactly the records counted up to the one that breaks it. Once it has been shown the whole
   capture often enough, it reports what the capture deserves.
   */
  lemma ReportsExactly(m: Maxima, snapshots: seq<Snapshot>, file: seq<byte>, v: Violation)
    requires Monotone(RecordsOf(file)) && forall i :: 0 <= i < |snapshots| ==> AppendOnly(snapshots[i], file)
    ensures var w := Run(m, snapshots);
            && (w.violation == Some(v) ==> Deserves(m, file, v))
            && (w.violation == Some(v) && v != FormatInvalid && v != RecordTooLarge ==>
                  BrokenAt(m, RecordsOf(file), w.tally.packets, v))
            && (FullReads(snapshots, file) > |RecordsOf(file)| ==> (w.violation == Some(v) <==> Deserves(m, file, v)))
  {
    WatchdogIsExact(m, snapshots, file);
    OutcomeExactly(m, file, v);
    hide Run, Outcome, Deserves, FirstAt, Verdict, RecordsOf, BrokenAt, FullReads;
    var w := Run(m, snapshots);
    if w.violation == Some(v) && v != FormatInvalid && v != RecordTooLarge {
      StoppedWhereBroken(m, RecordsOf(file), w.tally.packets, v);
    }
  }
}
