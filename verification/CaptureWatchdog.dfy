/** Enforcing traffic ceilings on a capture file while it is still being written. */
module CaptureWatchdog {
  import opened Prelude
  import opened Sorting
  import opened Bytes
  import opened Pcap

  datatype Maxima = Maxima(packets: nat, bytes: nat, packetsPerSecond: nat, calls: nat, callsPerSecond: nat)

  datatype Violation = FormatInvalid | RecordTooLarge | PacketCeiling | ByteCeiling | PacketRate | CallCeiling
                     | CallRate

  const RECORD_LIMIT: nat := 1024 * 1024

  /** One second, in the microseconds all times are kept in. */
  const SECOND: nat := 1_000_000

  /** The text that marks a call being placed, with its space. */
  const INVITE: seq<byte> := [0x49, 0x4E, 0x56, 0x49, 0x54, 0x45, 0x20]

  predicate CallAt(packet: seq<byte>, i: nat) {
    i + |INVITE| <= |packet| && packet[i..i + |INVITE|] == INVITE
  }

  predicate PlacesCall(r: Record) {
    exists i :: 0 <= i < |r.packet| && CallAt(r.packet, i)
  }

  function TimeOf(r: Record): int {
    r.seconds * SECOND + r.fraction
  }

  // ----- the specification: brute-force counts over everything seen

  function TotalBytes(records: seq<Record>): nat {
    if records == [] then 0 else TotalBytes(records[..|records| - 1]) + records[|records| - 1].original
  }

  function CallTimes(records: seq<Record>): seq<int> {
    if records == [] then []
    else
      CallTimes(records[..|records| - 1])
      + if PlacesCall(records[|records| - 1]) then [TimeOf(records[|records| - 1])] else []
  }

  /** How many times fall within the second that ends now. */
  function RecentCount(times: seq<int>, now: int): nat {
    if times == [] then 0
    else RecentCount(times[..|times| - 1], now) + if times[|times| - 1] >= now - SECOND then 1 else 0
  }

  function Ceilings(m: Maxima, packets: nat, bytes: nat, recentPackets: nat, calls: nat, recentCalls: nat)
    : Option<Violation>
  {
    if packets > m.packets then Some(PacketCeiling)
    else if bytes > m.bytes then Some(ByteCeiling)
    else if recentPackets > m.packetsPerSecond then Some(PacketRate)
    else if calls > m.calls then Some(CallCeiling)
    else if recentCalls > m.callsPerSecond then Some(CallRate)
    else None
  }

  /** What is exceeded once the last of these records arrives. */
  function Verdict(m: Maxima, records: seq<Record>): Option<Violation> {
    if records == [] then None
    else
      var now := TimeOf(records[|records| - 1]);
      Ceilings(m, |records|, TotalBytes(records), RecentCount(Map(TimeOf, records), now),
               |CallTimes(records)|, RecentCount(CallTimes(records), now))
  }

  /** The verdict at the first record that exceeds anything. */
  function FirstVerdict(m: Maxima, records: seq<Record>): Option<Violation> {
    if records == [] then None
    else
      match FirstVerdict(m, records[..|records| - 1])
      case Some(v) => Some(v)
      case None => Verdict(m, records)
  }

  // ----- the incremental counters

  datatype Tally = Tally(packets: nat, bytes: nat, calls: nat, packetTimes: seq<int>, callTimes: seq<int>)

  const EMPTY: Tally := Tally(0, 0, 0, [], [])

  /** Drop leading times that are more than a second old. */
  function Trim(times: seq<int>, now: int): seq<int> {
    if times != [] && times[0] < now - SECOND then Trim(times[1..], now) else times
  }

  function Count(t: Tally, r: Record): Tally {
    var now := TimeOf(r);
    var calling := PlacesCall(r);
    Tally(t.packets + 1, t.bytes + r.original, t.calls + if calling then 1 else 0, Trim(t.packetTimes + [now], now),
          if calling then Trim(t.callTimes + [now], now) else t.callTimes)
  }

  function TallyOf(records: seq<Record>): Tally {
    if records == [] then EMPTY else Count(TallyOf(records[..|records| - 1]), records[|records| - 1])
  }

  function Exceeded(m: Maxima, t: Tally): Option<Violation> {
    Ceilings(m, t.packets, t.bytes, |t.packetTimes|, t.calls, |t.callTimes|)
  }

  ghost predicate Monotone(records: seq<Record>) {
    forall i, j :: 0 <= i < j < |records| ==> TimeOf(records[i]) <= TimeOf(records[j])
  }

  ghost predicate Rising(times: seq<int>) {
    forall i, j :: 0 <= i < j < |times| ==> times[i] <= times[j]
  }

  // ----- the deques hold exactly the recent times

  /** Trimming early, then again, is trimming late. */
  lemma {:induction false} TrimAgain(times: seq<int>, earlier: int, now: int)
    requires earlier <= now
    ensures Trim(Trim(times, earlier) + [now], now) == Trim(times + [now], now)
  {
    if times != [] && times[0] < earlier - SECOND {
      TrimAgain(times[1..], earlier, now);
      assert (times + [now])[1..] == times[1..] + [now];
    }
  }

  lemma {:induction false} RecentFromFront(times: seq<int>, now: int)
    requires times != []
    ensures RecentCount(times, now) == RecentCount(times[1..], now) + if times[0] >= now - SECOND then 1 else 0
  {
    var n := |times| - 1;
    if n > 0 {
      RecentFromFront(times[..n], now);
      assert times[..n][1..] == times[1..][..n - 1];
    } else {
      assert times[..0] == [] && times[1..] == [];
    }
  }

  lemma {:induction false} AllRecent(times: seq<int>, now: int)
    requires forall i :: 0 <= i < |times| ==> times[i] >= now - SECOND
    ensures RecentCount(times, now) == |times|
  {
    if times != [] {
      AllRecent(times[..|times| - 1], now);
    }
  }

  lemma {:induction false} TrimCounts(times: seq<int>, now: int)
    requires Rising(times)
    ensures |Trim(times, now)| == RecentCount(times, now)
  {
    if times != [] && times[0] < now - SECOND {
      RecentFromFront(times, now);
      TrimCounts(times[1..], now);
    } else {
      AllRecent(times, now);
    }
  }

  lemma {:induction false} LaterIsFewer(times: seq<int>, earlier: int, now: int)
    requires earlier <= now
    ensures RecentCount(times, now) <= RecentCount(times, earlier)
  {
    if times != [] {
      LaterIsFewer(times[..|times| - 1], earlier, now);
    }
  }

  lemma {:induction false} CallTimesRise(records: seq<Record>)
    requires Monotone(records)
    ensures Rising(CallTimes(records))
    ensures forall t :: t in CallTimes(records) ==> exists i :: 0 <= i < |records| && TimeOf(records[i]) == t
  {
    if records != [] {
      var n := |records| - 1;
      CallTimesRise(records[..n]);
      var front := CallTimes(records[..n]);
      forall i | 0 <= i < |front| ensures exists k :: 0 <= k < n && TimeOf(records[k]) == front[i] {
        assert front[i] in front;
        var k :| 0 <= k < n && TimeOf(records[..n][k]) == front[i];
        assert TimeOf(records[k]) == front[i];
      }
    }
  }

  /** A deque that is trimmed at every time it takes in. */
  function Deque(times: seq<int>): seq<int> {
    if times == [] then [] else Trim(Deque(times[..|times| - 1]) + [times[|times| - 1]], times[|times| - 1])
  }

  /** Its length is the number of times in the second that ends with the last one. */
  lemma {:induction false} DequeTrims(times: seq<int>)
    requires Rising(times) && times != []
    ensures Deque(times) == Trim(times, times[|times| - 1])
  {
    var n := |times| - 1;
    if n > 0 {
      DequeTrims(times[..n]);
      TrimAgain(times[..n], times[n - 1], times[n]);
      assert times == times[..n] + [times[n]];
    } else {
      assert times[..0] == [] && Deque(times[..0]) == [] && [] + [times[0]] == times;
    }
  }

  lemma {:induction false} TallyFacts(records: seq<Record>)
    ensures var t := TallyOf(records);
            && t.packets == |records| && t.bytes == TotalBytes(records) && t.calls == |CallTimes(records)|
            && t.packetTimes == Deque(Map(TimeOf, records)) && t.callTimes == Deque(CallTimes(records))
  {
    hide Trim, PlacesCall, TimeOf;
    if records != [] {
      var n := |records| - 1;
      TallyFacts(records[..n]);
      assert Map(TimeOf, records)[..n] == Map(TimeOf, records[..n]);
      var calls := CallTimes(records);
      if PlacesCall(records[n]) {
        assert calls[..|calls| - 1] == CallTimes(records[..n]);
      } else {
        assert calls == CallTimes(records[..n]);
      }
    }
  }

  ghost predicate Quiet(m: Maxima, records: seq<Record>) {
    forall k :: 0 <= k < |records| ==> Exceeded(m, TallyOf(records[..k])) == None
  }

  /** Until something is exceeded, the counters and the brute-force counts give the same verdict. */
  lemma VerdictsAgree(m: Maxima, records: seq<Record>)
    requires Monotone(records) && Quiet(m, records)
    ensures Exceeded(m, TallyOf(records)) == Verdict(m, records)
  {
    TallyFacts(records);
    if records != [] {
      PacketsCounted(records);
      RecentCallsBounded(records);
      if !PlacesCall(records[|records| - 1]) {
        assert Exceeded(m, TallyOf(records[..|records| - 1])) == None;
      }
      hide TallyOf, TotalBytes, Deque, CallTimes, RecentCount, PlacesCall, TimeOf;
    }
  }

  lemma NoneRecent(now: int)
    ensures RecentCount([], now) == 0
  {
  }

  lemma PacketsCounted(records: seq<Record>)
    requires Monotone(records) && records != []
    ensures |Deque(Map(TimeOf, records))| == RecentCount(Map(TimeOf, records), TimeOf(records[|records| - 1]))
  {
    hide TimeOf;
    DequeTrims(Map(TimeOf, records));
    TrimCounts(Map(TimeOf, records), TimeOf(records[|records| - 1]));
  }

  /** The call deque is exact at a call, and elsewhere holds at least the recent ones and nothing new. */
  lemma RecentCallsBounded(records: seq<Record>)
    requires Monotone(records) && records != []
    ensures var last, now := records[|records| - 1], TimeOf(records[|records| - 1]);
            && RecentCount(CallTimes(records), now) <= |Deque(CallTimes(records))|
            && (PlacesCall(last) ==> RecentCount(CallTimes(records), now) == |Deque(CallTimes(records))|)
            && (!PlacesCall(last) ==> TallyOf(records).callTimes == TallyOf(records[..|records| - 1]).callTimes)
            && (!PlacesCall(last) ==> |CallTimes(records)| == |CallTimes(records[..|records| - 1])|)
  {
    hide TimeOf, Deque, RecentCount, PlacesCall;
    var calls, now := CallTimes(records), TimeOf(records[|records| - 1]);
    CallTimesRise(records);
    if calls == [] {
      NoneRecent(now);
    } else {
      var last := calls[|calls| - 1];
      assert last in calls;
      var k :| 0 <= k < |records| && TimeOf(records[k]) == last;
      assert last <= now;
      DequeTrims(calls);
      TrimCounts(calls, last);
      LaterIsFewer(calls, last, now);
    }
  }

  lemma {:induction false} NothingExceeded(m: Maxima, records: seq<Record>)
    requires Monotone(records) && Quiet(m, records) && Exceeded(m, TallyOf(records)) == None
    ensures FirstVerdict(m, records) == None
  {
    hide Verdict, TallyOf, Exceeded;
    if records != [] {
      var n := |records| - 1;
      assert forall k :: 0 <= k < n ==> records[..n][..k] == records[..k];
      assert Exceeded(m, TallyOf(records[..n])) == None;
      NothingExceeded(m, records[..n]);
      VerdictsAgree(m, records);
    }
  }

  lemma {:induction false} FirstVerdictStays(m: Maxima, records: seq<Record>, n: nat)
    requires n <= |records| && FirstVerdict(m, records[..n]).Some?
    ensures FirstVerdict(m, records) == FirstVerdict(m, records[..n])
    decreases |records| - n
  {
    if n < |records| {
      assert records[..n + 1][..n] == records[..n];
      FirstVerdictStays(m, records, n + 1);
    } else {
      assert records[..n] == records;
    }
  }

  lemma NothingYet(m: Maxima)
    ensures Exceeded(m, TallyOf([])) == None
  {
  }

  /** The n-th record is the first at which the brute-force counts exceed anything. */
  ghost predicate FirstAt(m: Maxima, records: seq<Record>, n: nat) {
    0 < n <= |records| && FirstVerdict(m, records[..n - 1]) == None && Verdict(m, records[..n]).Some?
  }

  lemma ExceededNow(m: Maxima, seen: seq<Record>)
    requires Monotone(seen) && Quiet(m, seen) && Exceeded(m, TallyOf(seen)).Some?
    ensures seen != [] && FirstVerdict(m, seen[..|seen| - 1]) == None
    ensures FirstVerdict(m, seen) == Verdict(m, seen) == Exceeded(m, TallyOf(seen))
  {
    NothingYet(m);
    QuietFront(m, seen);
    hide Verdict, Exceeded, TallyOf, Monotone;
    NothingExceeded(m, seen[..|seen| - 1]);
    VerdictsAgree(m, seen);
  }

  lemma QuietFront(m: Maxima, seen: seq<Record>)
    requires Monotone(seen) && Quiet(m, seen) && seen != []
    ensures var before := seen[..|seen| - 1];
            Monotone(before) && Quiet(m, before) && Exceeded(m, TallyOf(before)) == None
  {
    hide Exceeded, TallyOf, TimeOf;
    var before := seen[..|seen| - 1];
    assert forall k :: 0 <= k < |before| ==> before[..k] == seen[..k];
  }

  /** The first record at which the counters exceed anything is the first at which the brute-force counts do. */
  lemma FirstExceeded(m: Maxima, records: seq<Record>, n: nat)
    requires n <= |records| && Monotone(records[..n]) && Quiet(m, records[..n])
             && Exceeded(m, TallyOf(records[..n])).Some?
    ensures FirstVerdict(m, records) == Exceeded(m, TallyOf(records[..n]))
    ensures FirstAt(m, records, n) && Verdict(m, records[..n]) == Exceeded(m, TallyOf(records[..n]))
  {
    hide Verdict, Exceeded, TallyOf, Quiet, Monotone;
    var seen := records[..n];
    ExceededNow(m, seen);
    FirstVerdictStays(m, records, n);
    assert seen[..n - 1] == records[..n - 1];
  }

  // ----- reading a file that grows

  /** Complete records of acceptable size, up to the first that is neither. */
  function Readable(order: Order, file: seq<byte>, at: nat): seq<Record>
    decreases |file| - at
  {
    if at + RECORD_HEADER > |file| then []
    else if Included(order, file, at) > RECORD_LIMIT then []
    else if at + RECORD_HEADER + Included(order, file, at) > |file| then []
    else [RecordAt(order, file, at)] + Readable(order, file, at + RECORD_HEADER + Included(order, file, at))
  }

  /** Where the records end. */
  function Span(records: seq<Record>): nat {
    if records == [] then FILE_HEADER
    else Span(records[..|records| - 1]) + RECORD_HEADER + |records[|records| - 1].packet|
  }

  predicate Oversized(order: Order, file: seq<byte>, at: nat) {
    at + RECORD_HEADER <= |file| && Included(order, file, at) > RECORD_LIMIT
  }

  function RecordsOf(file: seq<byte>): seq<Record> {
    if |file| < FILE_HEADER || OrderOf(file).None? then [] else Readable(OrderOf(file).value, file, FILE_HEADER)
  }

  /** What there is to report about a capture, seen whole. */
  function Outcome(m: Maxima, file: seq<byte>): Option<Violation> {
    if |file| < FILE_HEADER then None
    else if OrderOf(file).None? then Some(FormatInvalid)
    else
      match FirstVerdict(m, RecordsOf(file))
      case Some(v) => Some(v)
      case None => if Oversized(OrderOf(file).value, file, Span(RecordsOf(file))) then Some(RecordTooLarge) else None
  }

  lemma ReadableStep(order: Order, file: seq<byte>, at: nat)
    requires Readable(order, file, at) != []
    ensures var next := at + RECORD_HEADER + |Readable(order, file, at)[0].packet|;
            next <= |file| && Readable(order, file, next) == Readable(order, file, at)[1..]
  {
    RecordIncluded(order, file, at);
    hide RecordAt, Included;
  }

  lemma {:induction false} ReadableFrom(order: Order, file: seq<byte>, n: nat)
    requires |file| >= FILE_HEADER && n <= |Readable(order, file, FILE_HEADER)|
    ensures var records := Readable(order, file, FILE_HEADER);
            && Span(records[..n]) <= |file|
            && Readable(order, file, Span(records[..n])) == records[n..]
  {
    var records := Readable(order, file, FILE_HEADER);
    hide Readable;
    if n > 0 {
      ReadableFrom(order, file, n - 1);
      SpanGrows(records, n - 1);
      ReadableStep(order, file, Span(records[..n - 1]));
      hide Span;
      assert records[n - 1..][0] == records[n - 1] && records[n - 1..][1..] == records[n..];
    } else {
      assert records[..0] == [] && records[0..] == records;
    }
  }

  lemma RecordIncluded(order: Order, file: seq<byte>, at: nat)
    ensures at + RECORD_HEADER <= |file| && at + RECORD_HEADER + Included(order, file, at) <= |file| ==>
              |RecordAt(order, file, at).packet| == Included(order, file, at)
  {
  }

  // ----- one poll

  /** Two reads of the file: its headers, then, unless it cannot be opened again, the packet. */
  datatype Snapshot = Snapshot(headers: seq<byte>, body: Option<seq<byte>>)

  datatype Watch = Watch(offset: nat, order: Option<Order>, tally: Tally, violation: Option<Violation>)

  const START: Watch := Watch(FILE_HEADER, None, EMPTY, None)

  /** Both reads saw some prefix of the same capture. */
  predicate AppendOnly(s: Snapshot, file: seq<byte>) {
    s.headers <= file && (s.body.Some? ==> s.body.value <= file)
  }

  /** Header words from the first read, packet bytes from the second. */
  function RecordShown(order: Order, s: Snapshot, at: nat): Record
    requires s.body.Some? && at + RECORD_HEADER <= |s.headers|
    requires at + RECORD_HEADER + Included(order, s.headers, at) <= |s.body.value|
  {
    Record(Word(order, s.headers, at), Word(order, s.headers, at + 4), Word(order, s.headers, at + 12),
           s.body.value[at + RECORD_HEADER..at + RECORD_HEADER + Included(order, s.headers, at)])
  }

  function TakeRecord(m: Maxima, w: Watch, s: Snapshot): Watch
    requires w.order.Some?
  {
    var order, at := w.order.value, w.offset;
    if at + RECORD_HEADER > |s.headers| then w
    else
      var included := Included(order, s.headers, at);
      if included > RECORD_LIMIT then w.(violation := Some(RecordTooLarge))
      else if s.body.None? || at + RECORD_HEADER + included > |s.body.value| then w
      else
        var tally := Count(w.tally, RecordShown(order, s, at));
        Watch(at + RECORD_HEADER + included, w.order, tally, Exceeded(m, tally))
  }

  function Poll(m: Maxima, w: Watch, s: Snapshot): Watch
  {
    if w.violation.Some? then w
    else if w.order.None? && |s.headers| >= FILE_HEADER then
      match OrderOf(s.headers)
      case Some(order) => TakeRecord(m, w.(order := Some(order)), s)
      case None => w.(violation := Some(FormatInvalid))
    else if w.order.Some? then TakeRecord(m, w, s)
    else w
  }

  /** The state after polling each snapshot in turn. */
  function Run(m: Maxima, snapshots: seq<Snapshot>): Watch
  {
    if snapshots == [] then START else Poll(m, Run(m, snapshots[..|snapshots| - 1]), snapshots[|snapshots| - 1])
  }

  // ----- what has been processed is a prefix of the capture

  ghost predicate Processed(m: Maxima, w: Watch, file: seq<byte>, n: nat) {
    && |file| >= FILE_HEADER && OrderOf(file).Some? && w.order == OrderOf(file)
    && n <= |RecordsOf(file)|
    && w.offset == Span(RecordsOf(file)[..n]) && w.tally == TallyOf(RecordsOf(file)[..n])
    && Quiet(m, RecordsOf(file)[..n])
    && if w.violation == Some(RecordTooLarge) then
         n == |RecordsOf(file)| && Oversized(w.order.value, file, w.offset) && Exceeded(m, w.tally) == None
       else w.violation == Exceeded(m, w.tally)
  }

  /** Either no header was complete yet, or some prefix of the records was counted. */
  ghost predicate Follows(m: Maxima, w: Watch, file: seq<byte>, n: nat) {
    && n <= |RecordsOf(file)|
    && (|| (n == 0 && w == START)
        || (n == 0 && w == START.(violation := Some(FormatInvalid)) && |file| >= FILE_HEADER && OrderOf(file).None?)
        || Processed(m, w, file, n))
  }

  lemma QuietLonger(m: Maxima, records: seq<Record>, n: nat)
    requires n < |records| && Quiet(m, records[..n]) && Exceeded(m, TallyOf(records[..n])) == None
    ensures Quiet(m, records[..n + 1])
  {
    var longer := records[..n + 1];
    forall k | 0 <= k < |longer| ensures Exceeded(m, TallyOf(longer[..k])) == None {
      assert longer[..k] == records[..k];
      if k < n {
        assert records[..n][..k] == records[..k];
      }
    }
  }

  /** A record complete where the counted ones end is the next record. */
  lemma NextRecord(order: Order, file: seq<byte>, n: nat)
    requires |file| >= FILE_HEADER && OrderOf(file) == Some(order) && n <= |RecordsOf(file)|
    requires var at := Span(RecordsOf(file)[..n]);
             at + RECORD_HEADER <= |file| && Included(order, file, at) <= RECORD_LIMIT
             && at + RECORD_HEADER + Included(order, file, at) <= |file|
    ensures var at := Span(RecordsOf(file)[..n]);
            && n < |RecordsOf(file)| && Span(RecordsOf(file)[..n + 1]) == at + RECORD_HEADER + Included(order, file, at)
            && RecordsOf(file)[n] == RecordAt(order, file, at)
  {
    var records := RecordsOf(file);
    var at := Span(records[..n]);
    ReadableFrom(order, file, n);
    RecordIncluded(order, file, at);
    ReadableStarts(order, file, at);
    hide Included, RecordAt, OrderOf, Readable, RecordsOf;
    assert records[n..][0] == records[n];
    SpanGrows(records, n);
  }

  lemma ReadableStarts(order: Order, file: seq<byte>, at: nat)
    requires at + RECORD_HEADER <= |file| && Included(order, file, at) <= RECORD_LIMIT
    requires at + RECORD_HEADER + Included(order, file, at) <= |file|
    ensures Readable(order, file, at) != [] && Readable(order, file, at)[0] == RecordAt(order, file, at)
  {
  }

  lemma SpanGrows(records: seq<Record>, n: nat)
    requires n < |records|
    ensures Span(records[..n + 1]) == Span(records[..n]) + RECORD_HEADER + |records[n].packet|
  {
    assert records[..n + 1][..n] == records[..n];
  }

  /** A snapshot shows the records of the capture it was taken of. */
  lemma SnapshotShows(order: Order, s: Snapshot, file: seq<byte>, at: nat)
    requires AppendOnly(s, file) && at + RECORD_HEADER <= |s.headers|
    ensures Included(order, s.headers, at) == Included(order, file, at)
    ensures s.body.Some? && at + RECORD_HEADER + Included(order, s.headers, at) <= |s.body.value| ==>
              RecordShown(order, s, at) == RecordAt(order, file, at)
  {
    RecordsAreStable(order, s.headers, file, at);
    SameWords(order, s.headers, file, at);
    hide Word;
    var n := Included(order, s.headers, at);
    if s.body.Some? && at + RECORD_HEADER + n <= |s.body.value| {
      assert file[at + RECORD_HEADER..at + RECORD_HEADER + n]
             == s.body.value[at + RECORD_HEADER..at + RECORD_HEADER + n];
    }
  }

  lemma SameWords(order: Order, file: seq<byte>, longer: seq<byte>, at: nat)
    requires file <= longer && at + RECORD_HEADER <= |file|
    ensures Word(order, longer, at) == Word(order, file, at)
    ensures Word(order, longer, at + 4) == Word(order, file, at + 4)
    ensures Word(order, longer, at + 12) == Word(order, file, at + 12)
  {
    assert longer[at..at + 4] == file[at..at + 4];
    assert longer[at + 4..at + 8] == file[at + 4..at + 8];
    assert longer[at + 12..at + 16] == file[at + 12..at + 16];
  }

  ghost predicate Counted(m: Maxima, w: Watch, after: Watch, records: seq<Record>, n: nat) {
    && n < |records|
    && after
       == Watch(Span(records[..n + 1]), w.order, Count(w.tally, records[n]), Exceeded(m, Count(w.tally, records[n])))
  }

  /** A poll waits, or finds an oversized record where the records end, or counts the next record. */
  lemma TakeCases(m: Maxima, w: Watch, s: Snapshot, file: seq<byte>, n: nat)
    requires AppendOnly(s, file) && |file| >= FILE_HEADER && OrderOf(file).Some? && w.order == OrderOf(file)
    requires n <= |RecordsOf(file)| && w.offset == Span(RecordsOf(file)[..n])
    ensures var after := TakeRecord(m, w, s);
            || after == w
            || (after == w.(violation := Some(RecordTooLarge)) && Oversized(w.order.value, file, w.offset)
                && n == |RecordsOf(file)|)
            || Counted(m, w, after, RecordsOf(file), n)
    ensures s.headers == file && Oversized(w.order.value, file, w.offset) ==>
              TakeRecord(m, w, s) == w.(violation := Some(RecordTooLarge))
    ensures s.headers == file && s.body == Some(file) && n < |RecordsOf(file)| ==>
              Counted(m, w, TakeRecord(m, w, s), RecordsOf(file), n)
  {
    var order, at, records := w.order.value, w.offset, RecordsOf(file);
    ReadableFrom(order, file, n);
    if n < |records| {
      assert records[n..][0] == records[n];
    }
    hide RecordsOf, Span, OrderOf, Exceeded, Count;
    if at + RECORD_HEADER <= |s.headers| {
      SnapshotShows(order, s, file, at);
      hide Included, RecordShown, RecordAt;
      var included := Included(order, s.headers, at);
      if included > RECORD_LIMIT {
        assert records[n..] == [];
      } else if s.body.Some? && at + RECORD_HEADER + included <= |s.body.value| {
        NextRecord(order, file, n);
      }
    }
  }

  lemma TakeKeeps(m: Maxima, w: Watch, s: Snapshot, file: seq<byte>, n: nat) returns (after: nat)
    requires AppendOnly(s, file) && w.violation == None && Processed(m, w, file, n)
    ensures n <= after <= n + 1 && Processed(m, TakeRecord(m, w, s), file, after)
    ensures s.headers == file && s.body == Some(file) && n < |RecordsOf(file)| ==> after == n + 1
    ensures s.headers == file && Oversized(w.order.value, file, w.offset) ==> TakeRecord(m, w, s).violation.Some?
  {
    TakeCases(m, w, s, file, n);
    hide RecordsOf, Span, TallyOf, Quiet, OrderOf, Exceeded, TakeRecord, Oversized, Count;
    if n < |RecordsOf(file)| && Counted(m, w, TakeRecord(m, w, s), RecordsOf(file), n) {
      QuietLonger(m, RecordsOf(file), n);
      MoreTallied(RecordsOf(file), n);
      NotOversizeVerdict(m, Count(w.tally, RecordsOf(file)[n]));
      after := n + 1;
    } else {
      after := n;
    }
  }

  lemma NotOversizeVerdict(m: Maxima, t: Tally)
    ensures Exceeded(m, t) != Some(RecordTooLarge) && Exceeded(m, t) != Some(FormatInvalid)
  {
  }

  lemma MoreTallied(records: seq<Record>, n: nat)
    requires n < |records|
    ensures TallyOf(records[..n + 1]) == Count(TallyOf(records[..n]), records[n])
  {
    assert records[..n + 1][..n] == records[..n];
  }

  // ----- whole runs

  function FullReads(snapshots: seq<Snapshot>, file: seq<byte>): nat {
    if snapshots == [] then 0
    else
      FullReads(snapshots[..|snapshots| - 1], file)
      + if snapshots[|snapshots| - 1] == Snapshot(file, Some(file)) then 1 else 0
  }

  lemma PollKeeps(m: Maxima, w: Watch, s: Snapshot, file: seq<byte>, n: nat) returns (after: nat)
    requires AppendOnly(s, file) && Follows(m, w, file, n)
    ensures n <= after <= n + 1 && Follows(m, Poll(m, w, s), file, after)
    ensures s == Snapshot(file, Some(file)) && w.violation == None && n < |RecordsOf(file)| ==> after == n + 1
    ensures s.headers == file && |file| >= FILE_HEADER && w.violation == None ==>
              Poll(m, w, s).violation.Some? || OrderOf(file).Some?
    ensures s.headers == file && |file| >= FILE_HEADER && w.violation == None && OrderOf(file).Some?
            && Oversized(OrderOf(file).value, file, Span(RecordsOf(file)[..n])) ==>
              Poll(m, w, s).violation.Some?
  {
    after := n;
    assert RecordsOf(file) != [] ==> |file| >= FILE_HEADER && OrderOf(file).Some?;
    hide TakeRecord, RecordsOf, Oversized;
    if w.violation == None {
      if w.order.None? && |s.headers| >= FILE_HEADER {
        assert s.headers[..4] == file[..4];
        if OrderOf(file).Some? {
          StartProcessed(m, file);
          after := TakeKeeps(m, START.(order := OrderOf(file)), s, file, 0);
        }
      } else if w.order.Some? {
        after := TakeKeeps(m, w, s, file, n);
      }
    }
  }

  lemma StartProcessed(m: Maxima, file: seq<byte>)
    requires |file| >= FILE_HEADER && OrderOf(file).Some?
    ensures Processed(m, START.(order := OrderOf(file)), file, 0)
  {
  }

  /**
   Over any run of polls of a capture that only grows, the counters are those of a prefix of its
   records; each poll of the whole file without a violation counts one more.
   */
  lemma {:induction false} RunKeeps(m: Maxima, snapshots: seq<Snapshot>, file: seq<byte>) returns (n: nat)
    requires forall i :: 0 <= i < |snapshots| ==> AppendOnly(snapshots[i], file)
    ensures Follows(m, Run(m, snapshots), file, n)
    ensures var w, full := Run(m, snapshots), FullReads(snapshots, file);
            w.violation == None && |file| >= FILE_HEADER ==>
              && n >= Min(full, |RecordsOf(file)|)
              && (full > |RecordsOf(file)| ==>
                    OrderOf(file).Some? && !Oversized(OrderOf(file).value, file, Span(RecordsOf(file))))
  {
    n := 0;
    if snapshots != [] {
      var front, last := snapshots[..|snapshots| - 1], snapshots[|snapshots| - 1];
      var before := RunKeeps(m, front, file);
      n := PollKeeps(m, Run(m, front), last, file, before);
      hide Poll, Follows, RecordsOf, Oversized, AppendOnly;
      assert RecordsOf(file)[..|RecordsOf(file)|] == RecordsOf(file);
      ViolationStays(m, Run(m, front), last);
    }
  }

  lemma ViolationStays(m: Maxima, w: Watch, s: Snapshot)
    ensures w.violation.Some? ==> Poll(m, w, s) == w
  {
  }

  /**
   How many records were counted when the report was made: none for a file that is no capture, all of them for a
   record too large to read, and otherwise all up to the first that exceeds a ceiling, which gives the reason.
   */
  ghost predicate StoppedAt(m: Maxima, w: Watch, file: seq<byte>) {
    match w.violation
    case None => true
    case Some(FormatInvalid) => w.tally.packets == 0
    case Some(RecordTooLarge) => w.tally.packets == |RecordsOf(file)| && FirstVerdict(m, RecordsOf(file)) == None
    case Some(reason) =>
      FirstAt(m, RecordsOf(file), w.tally.packets) && Verdict(m, RecordsOf(file)[..w.tally.packets]) == Some(reason)
  }

  /** A watchdog that reports something reports what the whole capture deserves. */
  lemma NoFalseAlarm(m: Maxima, w: Watch, file: seq<byte>, n: nat)
    requires Follows(m, w, file, n) && Monotone(RecordsOf(file)) && w.violation.Some?
    ensures w.violation == Outcome(m, file) && StoppedAt(m, w, file)
  {
    var records := RecordsOf(file);
    hide TallyOf, Count, Exceeded, Verdict, RecordsOf, Oversized;
    if Processed(m, w, file, n) {
      assert Monotone(records[..n]);
      TallyFacts(records[..n]);
      NotOversizeVerdict(m, w.tally);
      if w.violation == Some(RecordTooLarge) {
        assert records[..n] == records;
        NothingExceeded(m, records);
      } else {
        FirstExceeded(m, records, n);
      }
    }
  }

  lemma MissesNothing(m: Maxima, w: Watch, file: seq<byte>)
    requires Follows(m, w, file, |RecordsOf(file)|) && Monotone(RecordsOf(file)) && w.violation == None
    requires |file| >= FILE_HEADER ==>
               OrderOf(file).Some? && !Oversized(OrderOf(file).value, file, Span(RecordsOf(file)))
    ensures Outcome(m, file) == None
  {
    var records := RecordsOf(file);
    hide TallyOf, Count, Exceeded, Verdict, RecordsOf, Oversized;
    assert records[..|records|] == records;
    NothingYet(m);
    if |file| >= FILE_HEADER {
      if w == START {
        assert records == [];
        assert Quiet(m, records);
      }
      NothingExceeded(m, records);
    }
  }

  /**
   For a capture whose times never go back: whatever prefixes the polls see, a violation reported
   is the one the brute-force counts give for the whole capture, made at the record they first give
   it at, and once the whole capture has been polled more often than it has records, the report is
   exact either way.
   */
  lemma WatchdogIsExact(m: Maxima, snapshots: seq<Snapshot>, file: seq<byte>)
    requires Monotone(RecordsOf(file)) && forall i :: 0 <= i < |snapshots| ==> AppendOnly(snapshots[i], file)
    ensures Run(m, snapshots).violation == None || Run(m, snapshots).violation == Outcome(m, file)
    ensures FullReads(snapshots, file) > |RecordsOf(file)| ==> Run(m, snapshots).violation == Outcome(m, file)
    ensures StoppedAt(m, Run(m, snapshots), file)
  {
    var n := RunKeeps(m, snapshots, file);
    var w := Run(m, snapshots);
    hide Run, RecordsOf, Outcome, Oversized, FullReads;
    if w.violation.Some? {
      hide StoppedAt;
      NoFalseAlarm(m, w, file, n);
    } else if FullReads(snapshots, file) > |RecordsOf(file)| {
      NoRecords(file);
      assert n <= |RecordsOf(file)| by { FollowsBounded(m, w, file, n); }
      MissesNothing(m, w, file);
    }
  }

  lemma NoRecords(file: seq<byte>)
    ensures |file| < FILE_HEADER ==> RecordsOf(file) == []
  {
  }

  lemma FollowsBounded(m: Maxima, w: Watch, file: seq<byte>, n: nat)
    requires Follows(m, w, file, n)
    ensures n <= |RecordsOf(file)|
  {
  }

  /** What has been counted is always a prefix of the capture's records. */
  lemma CountsAPrefix(m: Maxima, snapshots: seq<Snapshot>, file: seq<byte>) returns (n: nat)
    requires forall i :: 0 <= i < |snapshots| ==> AppendOnly(snapshots[i], file)
    ensures n <= |RecordsOf(file)| && Run(m, snapshots).tally == TallyOf(RecordsOf(file)[..n])
  {
    n := RunKeeps(m, snapshots, file);
    assert RecordsOf(file)[..0] == [];
    hide Run, RecordsOf;
  }

  // ----- the watchdog itself

  class Watchdog {
    const maxima: Maxima
    var offset: nat
    var endian: Option<Order>
    var packets: nat
    var byteCount: nat
    var calls: nat
    var packetTimes: seq<int>
    var callTimes: seq<int>
    var violation: Option<Violation>

    constructor (maxima: Maxima)
      ensures this.maxima == maxima && State() == START
    {
      this.maxima := maxima;
      offset, endian, packets, byteCount, calls := FILE_HEADER, None, 0, 0, 0;
      packetTimes, callTimes, violation := [], [], None;
    }

    ghost function State(): Watch
      reads this
    {
      Watch(offset, endian, Tally(packets, byteCount, calls, packetTimes, callTimes), violation)
    }

    /** One turn of the loop: at most one record is taken from what the file shows. */
    method Look(s: Snapshot)
        modifies this
      ensures State() == Poll(maxima, old(State()), s)
    {
      hide Count, Exceeded, Included, RecordShown, OrderOf;
      if violation.Some? {
        return;
      }
      if endian.None? && |s.headers| >= FILE_HEADER {
        endian := OrderOf(s.headers);
        if endian.None? {
          violation := Some(FormatInvalid);
          return;
        }
      }
      if endian.Some? && |s.headers| >= offset + RECORD_HEADER {
        var included := Included(endian.value, s.headers, offset);
        if included > RECORD_LIMIT {
          violation := Some(RecordTooLarge);
          return;
        }
        if s.body.None? || |s.body.value| < offset + RECORD_HEADER + included {
          return;
        }
        var r := RecordShown(endian.value, s, offset);
        offset := offset + RECORD_HEADER + included;
        Absorb(r);
      }
    }

    /** Count one record and compare every counter with its ceiling. */
    method Absorb(r: Record)
      requires violation.None?
      modifies this
      ensures State()
              == old(State()).(tally := Count(old(State()).tally, r),
                               violation := Exceeded(maxima, Count(old(State()).tally, r)))
    {
      hide PlacesCall, TimeOf, Trim;
      var timestamp := TimeOf(r);
      packets, byteCount := packets + 1, byteCount + r.original;
      packetTimes := DropOld(packetTimes + [timestamp], timestamp);
      if PlacesCall(r) {
        calls := calls + 1;
        callTimes := DropOld(callTimes + [timestamp], timestamp);
      }
      if packets > maxima.packets {
        violation := Some(PacketCeiling);
      } else if byteCount > maxima.bytes {
        violation := Some(ByteCeiling);
      } else if |packetTimes| > maxima.packetsPerSecond {
        violation := Some(PacketRate);
      } else if calls > maxima.calls {
        violation := Some(CallCeiling);
      } else if |callTimes| > maxima.callsPerSecond {
        violation := Some(CallRate);
      }
    }

    method Follow(snapshots: seq<Snapshot>)
      requires State() == START
      modifies this
      ensures State() == Run(maxima, snapshots)
    {
      hide Poll;
      for i := 0 to |snapshots|
        invariant State() == Run(maxima, snapshots[..i])
      {
        assert snapshots[..i + 1][..i] == snapshots[..i];
        Look(snapshots[i]);
      }
      assert snapshots[..|snapshots|] == snapshots;
    }
  }

  method DropOld(times: seq<int>, now: int) returns (kept: seq<int>)
    ensures kept == Trim(times, now)
  {
    kept := times;
    while kept != [] && kept[0] < now - SECOND
      invariant Trim(kept, now) == Trim(times, now)
      decreases |kept|
    {
      kept := kept[1..];
    }
  }
}
