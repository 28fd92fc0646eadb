/** The bounded RTP packet plan of a media session, and the validator of its telephone events. */
module RtpPlan {
  import opened Prelude
  import opened Bytes

  const PACKETIZATION_MS: nat := 20
  const CLOCK_HZ: nat := 8000
  const MAX_DIGITS: nat := 16
  const MAX_REVISIONS: nat := 8
  const MAX_PACKETS: nat := 200
  const ASSET_BYTES: nat := 8000
  const SEQUENCE_START: nat := 1000
  const TIMESTAMP_START: nat := 0
  const SSRC: nat := 0x5A17C0DE
  const DTMF_DURATION_MS: nat := 100
  const DTMF_END_PACKETS: nat := 3
  const DTMF_GAP_MS: nat := 40
  const DTMF_VOLUME: nat := 10

  const PROGRESS: nat := DTMF_DURATION_MS / PACKETIZATION_MS
  const PER_DIGIT: nat := PROGRESS + DTMF_END_PACKETS - 1
  const AUDIO_PACKETS: nat := ASSET_BYTES / 160
  const ADVANCE_MS: nat := DTMF_DURATION_MS + (DTMF_END_PACKETS - 1) * PACKETIZATION_MS + DTMF_GAP_MS

  datatype Kind = Audio | TelephoneEvent

  datatype Revision = Revision(
    activation: nat,
    source: string, sourcePort: nat, destination: string, destinationPort: nat,
    codecPayload: nat,
    eventPayload: Option<nat>)

  datatype Session = Session(digits: string, revisions: seq<Revision>, asset: seq<byte>, assetUnchanged: bool)

  datatype Packet = Packet(
    scheduled: nat, revision: nat, kind: Kind, sequence: nat, timestamp: nat, payloadType: nat, marker: bool, ssrc: nat,
    source: string, sourcePort: nat, destination: string, destinationPort: nat,
    payload: seq<byte>)

  datatype MediaError = AssetChanged | NoEventPayload | TooManyPackets | BadDigits | BadCount | Discontinuous
                      | Reappeared | BadGrouping | BadDigit

  function EventCode(digit: char): Option<nat> {
    if '0' <= digit <= '9' then Some(digit as nat - '0' as nat)
    else if digit == '*' then Some(10)
    else if digit == '#' then Some(11)
    else if 'A' <= digit <= 'D' then Some(12 + digit as nat - 'A' as nat)
    else None
  }

  predicate Dialable(digits: string) {
    |digits| <= MAX_DIGITS && forall i :: 0 <= i < |digits| ==> EventCode(digits[i]).Some?
  }

  /** What loading a session guarantees. */
  predicate ValidSession(s: Session) {
    && Dialable(s.digits)
    && 1 <= |s.revisions| <= MAX_REVISIONS && s.revisions[0].activation == 0
    && (forall i, j :: 0 <= i < j < |s.revisions| ==> s.revisions[i].activation < s.revisions[j].activation)
    && (forall i :: 0 <= i < |s.revisions| ==>
          && s.revisions[i].activation <= 980 && s.revisions[i].activation % PACKETIZATION_MS == 0
          && s.revisions[i].codecPayload <= 127
          && (s.digits != [] ==> s.revisions[i].eventPayload.Some? && 96 <= s.revisions[i].eventPayload.value <= 127))
  }

  // ----- which revision is active

  ghost predicate ActiveAt(revisions: seq<Revision>, ms: nat, k: nat) {
    && k < |revisions| && revisions[k].activation <= ms
    && forall j :: k < j < |revisions| ==> revisions[j].activation > ms
  }

  method RevisionAt(revisions: seq<Revision>, ms: nat) returns (k: nat)
    requires revisions != [] && revisions[0].activation == 0
    requires forall i, j :: 0 <= i < j < |revisions| ==> revisions[i].activation < revisions[j].activation
    ensures ActiveAt(revisions, ms, k)
  {
    k := 0;
    for i := 0 to |revisions|
      invariant k < |revisions| && revisions[k].activation <= ms
      invariant forall j :: k < j < i ==> revisions[j].activation > ms
      invariant i > 0 ==> k == i - 1
    {
      if revisions[i].activation <= ms {
        k := i;
      } else {
        break;
      }
    }
  }

  // ----- the plan

  function EventDuration(rate: nat, k: nat): nat {
    Min(k + 1, PROGRESS) * PACKETIZATION_MS * rate / 1000
  }

  predicate EndBit(k: nat) {
    k >= PROGRESS - 1
  }

  /** Event code, end bit and volume, then the duration so far, per section 2.3 of RFC 4733. */
  function EventPayload(rate: nat, code: nat, k: nat): seq<byte>
    requires code < 256 && k < PER_DIGIT && EventDuration(rate, k) < 0x1_0000
  {
    [code, (if EndBit(k) then 128 else 0) + DTMF_VOLUME] + PackBig(EventDuration(rate, k), 2)
  }

  /** A packet's routing and payload type are those of the revision active when it is scheduled. */
  ghost predicate Routed(s: Session, p: Packet) {
    && ActiveAt(s.revisions, p.scheduled, p.revision)
    && var r := s.revisions[p.revision];
       && p.source == r.source && p.sourcePort == r.sourcePort
       && p.destination == r.destination && p.destinationPort == r.destinationPort
       && (p.kind == Audio ==> p.payloadType == r.codecPayload)
       && (p.kind == TelephoneEvent ==> r.eventPayload == Some(p.payloadType))
  }

  ghost predicate AudioAt(s: Session, i: nat, p: Packet)
    requires |s.asset| == ASSET_BYTES && i < AUDIO_PACKETS
  {
    && p.kind == Audio && p.scheduled == i * PACKETIZATION_MS && p.sequence == SEQUENCE_START + i
    && p.timestamp == TIMESTAMP_START + i * 160 && p.marker == (i == 0) && p.ssrc == SSRC
    && p.payload == s.asset[i * 160..(i + 1) * 160] && Routed(s, p)
  }

  /** Where packet k of digit d stands among the events, and in the plan; when it is due and its timestamp. */
  function Place(d: nat, k: nat): (n: nat)
    ensures n == 7 * d + k
  {
    d * PER_DIGIT + k
  }

  function Slot(d: nat, k: nat): (n: nat)
    ensures n == 50 + 7 * d + k
  {
    AUDIO_PACKETS + Place(d, k)
  }

  function EventStart(d: nat): (ms: nat)
    ensures ms == 1000 + 180 * d
  {
    AUDIO_PACKETS * PACKETIZATION_MS + d * ADVANCE_MS
  }

  function EventTimestamp(d: nat): (t: nat)
    ensures t == 8000 + 1440 * d
  {
    TIMESTAMP_START + AUDIO_PACKETS * 160 + d * (ADVANCE_MS * CLOCK_HZ / 1000)
  }

  ghost predicate EventAt(s: Session, d: nat, k: nat, p: Packet)
    requires d < |s.digits| && k < PER_DIGIT && Dialable(s.digits)
  {
    && p.kind == TelephoneEvent
    && p.scheduled == EventStart(d) + k * PACKETIZATION_MS
    && p.sequence == SEQUENCE_START + Slot(d, k)
    && p.timestamp == EventTimestamp(d)
    && p.marker == (k == 0) && p.ssrc == SSRC
    && p.payload == EventPayload(CLOCK_HZ, EventCode(s.digits[d]).value, k) && Routed(s, p)
  }

  ghost predicate IsPlan(s: Session, packets: seq<Packet>) {
    && Dialable(s.digits) && |s.asset| == ASSET_BYTES
    && |packets| == Slot(|s.digits|, 0)
    && (forall i :: 0 <= i < AUDIO_PACKETS ==> AudioAt(s, i, packets[i]))
    && forall d, k :: 0 <= d < |s.digits| && 0 <= k < PER_DIGIT ==> EventAt(s, d, k, packets[Slot(d, k)])
  }

  method MakePacket(s: Session, scheduled: nat, sequence: nat, timestamp: nat, payload: seq<byte>, kind: Kind,
                    marker: bool)
    returns (r: Result<Packet, MediaError>)
    requires ValidSession(s) && (kind == TelephoneEvent ==> s.digits != [])
    ensures r.Ok? && Routed(s, r.value)
    ensures r.value.scheduled == scheduled && r.value.sequence == sequence && r.value.timestamp == timestamp
    ensures r.value.payload == payload && r.value.kind == kind && r.value.marker == marker && r.value.ssrc == SSRC
  {
    var index := RevisionAt(s.revisions, scheduled);
    var revision := s.revisions[index];
    var payloadType := if kind == Audio then Some(revision.codecPayload) else revision.eventPayload;
    if payloadType.None? {
      assert false;
    }
    r := Ok(Packet(scheduled, index, kind, sequence, timestamp, payloadType.value, marker, SSRC,
                   revision.source, revision.sourcePort, revision.destination, revision.destinationPort, payload));
  }

  method BuildAudio(s: Session) returns (packets: seq<Packet>)
    requires ValidSession(s) && |s.asset| == ASSET_BYTES
    ensures |packets| == AUDIO_PACKETS && forall i :: 0 <= i < AUDIO_PACKETS ==> AudioAt(s, i, packets[i])
  {
    hide Routed;
    var sequence := SEQUENCE_START;
    packets := [];
    for i := 0 to AUDIO_PACKETS
      invariant |packets| == i && sequence == SEQUENCE_START + i
      invariant forall j :: 0 <= j < i ==> AudioAt(s, j, packets[j])
    {
      var packet :=
        MakePacket(s, i * PACKETIZATION_MS, sequence, TIMESTAMP_START + i * 160, s.asset[i * 160..(i + 1) * 160],
                               Audio, i == 0);
      packets := packets + [packet.value];
      sequence := sequence + 1;
    }
  }

  method BuildDigit(s: Session, d: nat, start: nat, timestamp: nat, first: nat) returns (packets: seq<Packet>)
    requires ValidSession(s) && d < |s.digits|
    requires first == SEQUENCE_START + Slot(d, 0) && start == EventStart(d) && timestamp == EventTimestamp(d)
    ensures |packets| == PER_DIGIT && forall k :: 0 <= k < PER_DIGIT ==> EventAt(s, d, k, packets[k])
  {
    hide Routed;
    var code, sequence := EventCode(s.digits[d]).value, first;
    packets := [];
    for k := 0 to PER_DIGIT
      invariant |packets| == k && sequence == first + k
      invariant forall j :: 0 <= j < k ==> EventAt(s, d, j, packets[j])
    {
      var packet :=
        MakePacket(s, start + k * PACKETIZATION_MS, sequence, timestamp, EventPayload(CLOCK_HZ, code, k),
                   TelephoneEvent, k == 0);
      packets := packets + [packet.value];
      sequence := sequence + 1;
    }
  }

  ghost predicate EventsBuilt(s: Session, packets: seq<Packet>, n: nat)
    requires Dialable(s.digits) && n <= |s.digits| && |packets| == Slot(n, 0)
  {
    forall d, k :: 0 <= d < n && 0 <= k < PER_DIGIT ==> EventAt(s, d, k, packets[Slot(d, k)])
  }

  lemma DigitAppended(s: Session, packets: seq<Packet>, events: seq<Packet>, d: nat)
    requires Dialable(s.digits) && d < |s.digits| && |packets| == Slot(d, 0) && EventsBuilt(s, packets, d)
    requires |events| == PER_DIGIT && forall k :: 0 <= k < PER_DIGIT ==> EventAt(s, d, k, events[k])
    ensures |packets + events| == Slot(d + 1, 0) && EventsBuilt(s, packets + events, d + 1)
  {
    hide EventAt;
    var grown := packets + events;
    forall e, k | 0 <= e < d + 1 && 0 <= k < PER_DIGIT ensures EventAt(s, e, k, grown[Slot(e, k)]) {
      if e < d {
        assert grown[Slot(e, k)] == packets[Slot(e, k)];
      } else {
        assert grown[Slot(e, k)] == events[k];
      }
    }
  }

  /**
   Audio frames, then each digit's progress and repeated final packets. Neither the missing event
   payload nor the packet limit can be hit by a valid session.
   */
  method BuildPacketPlan(s: Session) returns (r: Result<seq<Packet>, MediaError>)
    requires ValidSession(s)
    ensures r.Ok? <==> |s.asset| == ASSET_BYTES && s.assetUnchanged
    ensures r.Ok? ==> IsPlan(s, r.value) && |r.value| <= MAX_PACKETS
    ensures r.Err? ==> r.error == AssetChanged
  {
    if |s.asset| != ASSET_BYTES || !s.assetUnchanged {
      return Err(AssetChanged);
    }
    var audio := BuildAudio(s);
    var packets, sequence := audio, SEQUENCE_START + |audio|;
    var eventStart, eventTimestamp := AUDIO_PACKETS * PACKETIZATION_MS, TIMESTAMP_START + AUDIO_PACKETS * 160;
    hide AudioAt, EventAt;
    for d := 0 to |s.digits|
      invariant audio <= packets && |packets| == Slot(d, 0) && sequence == SEQUENCE_START + |packets|
      invariant eventStart == EventStart(d) && eventTimestamp == EventTimestamp(d)
      invariant EventsBuilt(s, packets, d)
    {
      var events := BuildDigit(s, d, eventStart, eventTimestamp, sequence);
      DigitAppended(s, packets, events, d);
      packets := packets + events;
      sequence := sequence + |events|;
      eventStart := eventStart + ADVANCE_MS;
      eventTimestamp := eventTimestamp + ADVANCE_MS * CLOCK_HZ / 1000;
    }
    forall i | 0 <= i < AUDIO_PACKETS ensures AudioAt(s, i, packets[i]) {
      assert packets[i] == audio[i];
    }
    if |packets| > MAX_PACKETS {
      assert false;
    }
    r := Ok(packets);
  }

  // ----- properties of every plan

  lemma SlotOf(s: Session, packets: seq<Packet>, n: nat) returns (d: nat, k: nat)
    requires IsPlan(s, packets) && AUDIO_PACKETS <= n < |packets|
    ensures d < |s.digits| && k < PER_DIGIT && n == Slot(d, k)
  {
    var m := n - AUDIO_PACKETS;
    d, k := m / PER_DIGIT, m % PER_DIGIT;
  }

  /** Sequence numbers are consecutive and fit 16 bits; times strictly rise, audio first. */
  lemma PlanIsOrdered(s: Session, packets: seq<Packet>, n: nat)
    requires IsPlan(s, packets) && n < |packets|
    ensures packets[n].sequence == SEQUENCE_START + n <= 0xFFFF
    ensures n + 1 < |packets| ==> packets[n].scheduled < packets[n + 1].scheduled
    ensures packets[n].kind == Audio <==> n < AUDIO_PACKETS
    ensures packets[n].timestamp <= 0xFFFF_FFFF
  {
    hide Routed;
    if n >= AUDIO_PACKETS {
      var d, k := SlotOf(s, packets, n);
      assert EventAt(s, d, k, packets[Slot(d, k)]);
    } else {
      assert AudioAt(s, n, packets[n]);
    }
    if n + 1 >= AUDIO_PACKETS && n + 1 < |packets| {
      var d, k := SlotOf(s, packets, n + 1);
      assert EventAt(s, d, k, packets[Slot(d, k)]);
    } else if n + 1 < AUDIO_PACKETS {
      assert AudioAt(s, n + 1, packets[n + 1]);
    }
  }

  /** Every packet is due strictly after the ones before it. */
  lemma {:induction false} ScheduleRises(s: Session, packets: seq<Packet>, i: nat, j: nat)
    requires IsPlan(s, packets) && i < j < |packets|
    ensures packets[i].scheduled < packets[j].scheduled
    decreases j - i
  {
    hide IsPlan;
    PlanIsOrdered(s, packets, i);
    if i + 1 < j {
      ScheduleRises(s, packets, i + 1, j);
    }
  }

  /** Every revision is used, and its first packet falls exactly on its activation time. */
  lemma RevisionsStartOnTime(s: Session, packets: seq<Packet>, r: nat) returns (first: nat)
    requires ValidSession(s) && IsPlan(s, packets) && r < |s.revisions|
    ensures first < |packets| && packets[first].revision == r && packets[first].scheduled == s.revisions[r].activation
    ensures forall n :: 0 <= n < first ==> packets[n].revision < r
  {
    first := s.revisions[r].activation / PACKETIZATION_MS;
    assert AudioAt(s, first, packets[first]);
    assert packets[first].scheduled == s.revisions[r].activation;
    OneActive(s.revisions, packets[first].scheduled, r, packets[first].revision);
    forall n | 0 <= n < first ensures packets[n].revision < r {
      assert AudioAt(s, n, packets[n]);
    }
  }

  lemma OneActive(revisions: seq<Revision>, ms: nat, k: nat, other: nat)
    requires forall i, j :: 0 <= i < j < |revisions| ==> revisions[i].activation < revisions[j].activation
    requires k < |revisions| && revisions[k].activation == ms && ActiveAt(revisions, ms, other)
    ensures other == k
  {
  }

  // ----- the wire format

  /** Version 2, no padding, extension or sources, per section 5.1 of RFC 3550. */
  function WireBytes(p: Packet): seq<byte>
    requires p.payloadType <= 127 && p.sequence <= 0xFFFF && p.timestamp <= 0xFFFF_FFFF && p.ssrc <= 0xFFFF_FFFF
  {
    [0x80, (if p.marker then 0x80 else 0) + p.payloadType]
    + PackBig(p.sequence, 2) + PackBig(p.timestamp, 4) + PackBig(p.ssrc, 4) + p.payload
  }

  datatype Header = Header(version: nat, csrcCount: nat, marker: bool, payloadType: nat, sequence: nat, timestamp: nat,
                           ssrc: nat)

  function ReadHeader(wire: seq<byte>): Header
    requires |wire| >= 12
  {
    Header(wire[0] / 64, wire[0] % 16, wire[1] >= 128, wire[1] % 128,
           UnpackBig(wire[2..4]), UnpackBig(wire[4..8]), UnpackBig(wire[8..12]))
  }

  /** A receiver reads back every header field and the payload. */
  lemma WireRoundTrip(p: Packet)
    requires p.payloadType <= 127 && p.sequence <= 0xFFFF && p.timestamp <= 0xFFFF_FFFF && p.ssrc <= 0xFFFF_FFFF
    ensures |WireBytes(p)| == 12 + |p.payload| && WireBytes(p)[12..] == p.payload
    ensures ReadHeader(WireBytes(p)) == Header(2, 0, p.marker, p.payloadType, p.sequence, p.timestamp, p.ssrc)
  {
    PowersOf256();
    var wire := WireBytes(p);
    BigRoundTrip(p.sequence, 2);
    BigRoundTrip(p.timestamp, 4);
    BigRoundTrip(p.ssrc, 4);
    assert wire[2..4] == PackBig(p.sequence, 2);
    assert wire[4..8] == PackBig(p.timestamp, 4);
    assert wire[8..12] == PackBig(p.ssrc, 4);
  }

  /** Every planned packet can be put on the wire. */
  lemma PlannedPacketsFit(s: Session, packets: seq<Packet>, n: nat)
    requires ValidSession(s) && IsPlan(s, packets) && n < |packets|
    ensures packets[n].payloadType <= 127 && packets[n].sequence <= 0xFFFF && packets[n].timestamp <= 0xFFFF_FFFF
    ensures packets[n].ssrc <= 0xFFFF_FFFF
  {
    PlanIsOrdered(s, packets, n);
    if n < AUDIO_PACKETS {
      assert AudioAt(s, n, packets[n]);
    } else {
      var d, k := SlotOf(s, packets, n);
      assert EventAt(s, d, k, packets[Slot(d, k)]);
    }
  }

  // ----- the validator

  /** The event packets of a list, in order. */
  function Events(packets: seq<Packet>): seq<Packet> {
    if packets == [] then []
    else Events(packets[..|packets| - 1]) + if packets[|packets| - 1].kind == TelephoneEvent then
      [packets[|packets| - 1]] else []
  }

  predicate Continuous(events: seq<Packet>) {
    forall n :: 0 <= n < |events| - 1 ==> events[n + 1].sequence == events[n].sequence + 1
  }

  /**
   What the validator is for: seven packets a digit with one timestamp, a different timestamp for every
   digit, consecutive sequence numbers, the marker on the first packet, and the payload the digit calls for.
   */
  ghost predicate SpellsDigits(rate: nat, events: seq<Packet>, digits: string) {
    && Dialable(digits) && |events| == Place(|digits|, 0)
    && Continuous(events)
    && (forall d, k :: 0 <= d < |digits| && 0 <= k < PER_DIGIT ==> DigitPacket(rate, events, digits, d, k))
    && (forall d, e :: 0 <= d < e < |digits| ==> events[Place(d, 0)].timestamp != events[Place(e, 0)].timestamp)
  }

  ghost predicate DigitPacket(rate: nat, events: seq<Packet>, digits: string, d: nat, k: nat)
    requires |events| == Place(|digits|, 0) && d < |digits| && k < PER_DIGIT && Dialable(digits)
  {
    var p := events[Place(d, k)];
    && p.timestamp == events[Place(d, 0)].timestamp
    && p.marker == (k == 0)
    && CarriesEvent(rate, p.payload, EventCode(digits[d]).value, k)
  }

  /** The payload of packet k of an event; a duration that sixteen bits cannot hold is never carried. */
  predicate CarriesEvent(rate: nat, payload: seq<byte>, code: nat, k: nat)
    requires code < 256 && k < PER_DIGIT
  {
    EventDuration(rate, k) < 0x1_0000 && payload == EventPayload(rate, code, k)
  }

  lemma CodesDiffer(a: char, b: char)
    requires EventCode(a).Some? && EventCode(a) == EventCode(b)
    ensures a == b
  {
  }

  /** No packet list spells two different digit strings. */
  lemma DigitsAreUnique(events: seq<Packet>, a: string, b: string, rate: nat, other: nat)
    requires SpellsDigits(rate, events, a) && SpellsDigits(other, events, b)
    ensures a == b
  {
    assert |a| == |b|;
    forall d | 0 <= d < |a| ensures a[d] == b[d] {
      assert DigitPacket(rate, events, a, d, 0) && DigitPacket(other, events, b, d, 0);
      assert events[Place(d, 0)].payload[0] == EventCode(a[d]).value;
      CodesDiffer(a[d], b[d]);
    }
  }

  lemma {:induction false} EventsOfPlan(s: Session, packets: seq<Packet>, n: nat)
    requires IsPlan(s, packets) && n <= |packets|
    ensures Events(packets[..n]) == if n <= AUDIO_PACKETS then [] else packets[AUDIO_PACKETS..n]
  {
    if n > 0 {
      EventsOfPlan(s, packets, n - 1);
      PlanIsOrdered(s, packets, n - 1);
      assert packets[..n][..n - 1] == packets[..n - 1];
      hide IsPlan;
      if n > AUDIO_PACKETS {
        assert packets[AUDIO_PACKETS..n] == packets[AUDIO_PACKETS..n - 1] + [packets[n - 1]];
      }
    }
  }

  lemma PlanDigitPacket(s: Session, packets: seq<Packet>, events: seq<Packet>, d: nat, k: nat)
    requires IsPlan(s, packets) && events == packets[AUDIO_PACKETS..] && d < |s.digits| && k < PER_DIGIT
    ensures DigitPacket(CLOCK_HZ, events, s.digits, d, k)
  {
    hide Routed, EventPayload;
    assert EventAt(s, d, k, packets[Slot(d, k)]) && EventAt(s, d, 0, packets[Slot(d, 0)]);
    assert events[Place(d, k)] == packets[Slot(d, k)] && events[Place(d, 0)] == packets[Slot(d, 0)];
  }

  lemma PlanTimestampsDiffer(s: Session, packets: seq<Packet>, events: seq<Packet>, d: nat, e: nat)
    requires IsPlan(s, packets) && events == packets[AUDIO_PACKETS..] && d < e < |s.digits|
    ensures events[Place(d, 0)].timestamp != events[Place(e, 0)].timestamp
  {
    hide Routed, EventPayload;
    assert EventAt(s, d, 0, packets[Slot(d, 0)]) && EventAt(s, e, 0, packets[Slot(e, 0)]);
  }

  /** The plan of every valid session spells that session's digits. */
  lemma PlanSpellsDigits(s: Session, packets: seq<Packet>)
    requires ValidSession(s) && IsPlan(s, packets)
    ensures SpellsDigits(CLOCK_HZ, Events(packets), s.digits)
  {
    EventsOfPlan(s, packets, |packets|);
    assert packets[..|packets|] == packets;
    var events := Events(packets);
    assert events == packets[AUDIO_PACKETS..] && |events| == Place(|s.digits|, 0);
    forall n | 0 <= n < |events| - 1 ensures events[n + 1].sequence == events[n].sequence + 1 {
      PlanIsOrdered(s, packets, AUDIO_PACKETS + n);
      PlanIsOrdered(s, packets, AUDIO_PACKETS + n + 1);
    }
    hide DigitPacket, AudioAt, EventAt;
    forall d, k | 0 <= d < |s.digits| && 0 <= k < PER_DIGIT ensures DigitPacket(CLOCK_HZ, events, s.digits, d, k) {
      PlanDigitPacket(s, packets, events, d, k);
    }
    forall d, e | 0 <= d < e < |s.digits| ensures events[Place(d, 0)].timestamp != events[Place(e, 0)].timestamp {
      PlanTimestampsDiffer(s, packets, events, d, e);
    }
  }

  method SelectEvents(packets: seq<Packet>) returns (events: seq<Packet>)
    ensures events == Events(packets)
  {
    events := [];
    for i := 0 to |packets|
      invariant events == Events(packets[..i])
    {
      assert packets[..i + 1][..i] == packets[..i];
      if packets[i].kind == TelephoneEvent {
        events := events + [packets[i]];
      }
    }
    assert packets[..|packets|] == packets;
  }

  /** The four payload bytes decoded and compared field by field. */
  predicate DecodesAs(rate: nat, payload: seq<byte>, code: nat, k: nat) {
    && |payload| == 4
    && payload[1] / 64 % 2 == 0 && payload[1] % 64 == DTMF_VOLUME
    && payload[0] == code
    && UnpackBig(payload[2..4]) == EventDuration(rate, k)
    && (payload[1] >= 128 <==> EndBit(k))
  }

  lemma DecodingIsExact(rate: nat, payload: seq<byte>, code: nat, k: nat)
    requires code < 256 && k < PER_DIGIT
    ensures DecodesAs(rate, payload, code, k) <==> CarriesEvent(rate, payload, code, k)
  {
    if |payload| == 4 && EventDuration(rate, k) < 0x1_0000 {
      var expected := EventPayload(rate, code, k);
      assert expected[2..4] == PackBig(EventDuration(rate, k), 2);
      FlagsAreExact(payload[1], EndBit(k));
      DurationIsExact(rate, payload[2..4], k);
      hide UnpackBig, PackBig, EndBit, EventDuration;
      assert payload == [payload[0], payload[1]] + payload[2..4];
      assert expected == [expected[0], expected[1]] + expected[2..4];
    } else if |payload| == 4 {
      TwoBytesFit(payload[2..4]);
    }
  }

  lemma TwoBytesFit(bytes: seq<byte>)
    requires |bytes| == 2
    ensures UnpackBig(bytes) < 0x1_0000
  {
    PowersOf256();
    BigBounds(bytes);
  }

  lemma FlagsAreExact(flags: byte, end: bool)
    ensures flags / 64 % 2 == 0 && flags % 64 == DTMF_VOLUME && (flags >= 128 <==> end) <==>
            flags == (if end then 128 else 0) + DTMF_VOLUME
  {
  }

  lemma DurationIsExact(rate: nat, bytes: seq<byte>, k: nat)
    requires |bytes| == 2 && k < PER_DIGIT && EventDuration(rate, k) < 0x1_0000
    ensures UnpackBig(bytes) == EventDuration(rate, k) <==> bytes == PackBig(EventDuration(rate, k), 2)
  {
    PowersOf256();
    BigRoundTrip(EventDuration(rate, k), 2);
    BigRepack(bytes);
  }

  /** Where run g starts; the run after the last one would start at i. */
  ghost function StartAt(starts: seq<nat>, i: nat, g: nat): nat {
    if g < |starts| then starts[g] else i
  }

  ghost predicate Run(events: seq<Packet>, i: nat, group: seq<Packet>, starts: seq<nat>, g: nat) {
    var a, b := StartAt(starts, i, g), StartAt(starts, i, g + 1);
    && a < b <= i <= |events| && group == events[a..b]
    && forall j :: a <= j < b ==> events[j].timestamp == events[a].timestamp
  }

  /** The groups are the runs of equal timestamps, and no timestamp has two runs. */
  ghost predicate Grouped(events: seq<Packet>, i: nat, groups: seq<seq<Packet>>, starts: seq<nat>) {
    && |starts| == |groups| && StartAt(starts, i, 0) == 0
    && (forall g :: 0 <= g < |groups| ==> Run(events, i, groups[g], starts, g))
    && (forall g :: 0 <= g < |groups| ==> groups[g] != [])
    && (forall g, h :: 0 <= g < h < |groups| ==> groups[g][0].timestamp != groups[h][0].timestamp)
  }

  /** When the events spell the digits, the runs are exactly the digits so far. */
  ghost predicate InStep(i: nat, starts: seq<nat>) {
    |starts| == (i + 6) / 7 && forall g :: 0 <= g < |starts| ==> starts[g] == Place(g, 0)
  }

  lemma SpelledTimestamps(rate: nat, events: seq<Packet>, digits: string, i: nat)
    requires SpellsDigits(rate, events, digits) && i < |events|
    ensures i % 7 != 0 ==> events[i].timestamp == events[Place(i / 7, 0)].timestamp
    ensures i % 7 == 0 ==> forall d :: 0 <= d < i / 7 ==> events[Place(d, 0)].timestamp != events[i].timestamp
  {
    var d, k := i / 7, i % 7;
    assert DigitPacket(rate, events, digits, d, k);
    assert Place(d, k) == i;
  }

  lemma RunHead(events: seq<Packet>, i: nat, groups: seq<seq<Packet>>, starts: seq<nat>, g: nat)
    requires Grouped(events, i, groups, starts) && g < |groups|
    ensures starts[g] < |events| && groups[g] != [] && groups[g][0] == events[starts[g]]
  {
    assert Run(events, i, groups[g], starts, g);
  }

  lemma StayInStep(rate: nat, events: seq<Packet>, digits: string, i: nat, groups: seq<seq<Packet>>, starts: seq<nat>)
    requires SpellsDigits(rate, events, digits) && i < |events| && Grouped(events, i, groups, starts)
             && InStep(i, starts)
    ensures var extend := groups != [] && groups[|groups| - 1][0].timestamp == events[i].timestamp;
            && (!extend ==> forall g :: 0 <= g < |groups| ==> groups[g][0].timestamp != events[i].timestamp)
            && InStep(i + 1, if extend then starts else starts + [i])
  {
    SpelledTimestamps(rate, events, digits, i);
    hide SpellsDigits, Run;
    forall g | 0 <= g < |groups| ensures groups[g][0] == events[Place(g, 0)] {
      RunHead(events, i, groups, starts, g);
    }
  }

  lemma ExtendGroup(events: seq<Packet>, i: nat, groups: seq<seq<Packet>>, starts: seq<nat>)
    requires i < |events| && Grouped(events, i, groups, starts) && groups != []
    requires groups[|groups| - 1][0].timestamp == events[i].timestamp
    ensures Grouped(events, i + 1, groups[|groups| - 1 := groups[|groups| - 1] + [events[i]]], starts)
  {
    var n := |groups| - 1;
    RunHead(events, i, groups, starts, n);
    var grown := groups[n := groups[n] + [events[i]]];
    forall g | 0 <= g < |grown| ensures Run(events, i + 1, grown[g], starts, g) {
      assert Run(events, i, groups[g], starts, g);
      if g == n {
        assert events[starts[n]..i] + [events[i]] == events[starts[n]..i + 1];
      }
    }
    hide Run;
    assert forall g :: 0 <= g < |grown| ==> grown[g][0] == groups[g][0];
  }

  lemma OpenGroup(events: seq<Packet>, i: nat, groups: seq<seq<Packet>>, starts: seq<nat>)
    requires i < |events| && Grouped(events, i, groups, starts)
    requires forall g :: 0 <= g < |groups| ==> groups[g] != [] && groups[g][0].timestamp != events[i].timestamp
    ensures Grouped(events, i + 1, groups + [[events[i]]], starts + [i])
  {
    var grown, later := groups + [[events[i]]], starts + [i];
    forall g | 0 <= g < |grown| ensures Run(events, i + 1, grown[g], later, g) {
      if g < |groups| {
        assert Run(events, i, groups[g], starts, g);
      } else {
        assert events[i..i + 1] == [events[i]];
      }
    }
  }

  /** Split the events into runs of equal timestamps; a timestamp may not come back. */
  method GroupEvents(events: seq<Packet>, ghost digits: string, ghost rate: nat)
    returns (r: Result<seq<seq<Packet>>, MediaError>, ghost starts: seq<nat>)
    ensures r.Ok? ==> Grouped(events, |events|, r.value, starts)
    ensures r.Ok? && SpellsDigits(rate, events, digits) ==> InStep(|events|, starts)
    ensures r.Err? ==> !SpellsDigits(rate, events, digits)
  {
    hide SpellsDigits, Run;
    var groups: seq<seq<Packet>> := [];
    starts := [];
    for i := 0 to |events|
      invariant Grouped(events, i, groups, starts)
      invariant SpellsDigits(rate, events, digits) ==> InStep(i, starts)
    {
      var packet := events[i];
      if SpellsDigits(rate, events, digits) {
        StayInStep(rate, events, digits, i, groups, starts);
      }
      if groups != [] && groups[|groups| - 1][0].timestamp == packet.timestamp {
        ExtendGroup(events, i, groups, starts);
        groups := groups[|groups| - 1 := groups[|groups| - 1] + [packet]];
      } else {
        if exists g :: 0 <= g < |groups| && groups[g][0].timestamp == packet.timestamp {
          return Err(Reappeared), starts;
        }
        OpenGroup(events, i, groups, starts);
        groups, starts := groups + [[packet]], starts + [i];
      }
    }
    r := Ok(groups);
  }

  /** Marker on the first packet only, and every payload decoding to its place in the event. */
  method CheckGroup(group: seq<Packet>, code: nat, rate: nat) returns (ok: bool)
    requires code < 256
    ensures ok <==> |group| == PER_DIGIT && forall k :: 0 <= k < PER_DIGIT ==>
                      group[k].marker == (k == 0) && CarriesEvent(rate, group[k].payload, code, k)
  {
    if |group| != PER_DIGIT {
      return false;
    }
    for k := 0 to PER_DIGIT
      invariant forall j :: 0 <= j < k ==> group[j].marker == (j == 0) && CarriesEvent(rate, group[j].payload, code, j)
    {
      DecodingIsExact(rate, group[k].payload, code, k);
      if group[k].marker != (k == 0) || !DecodesAs(rate, group[k].payload, code, k) {
        return false;
      }
    }
    ok := true;
  }

  method CheckContinuity(events: seq<Packet>) returns (ok: bool)
    ensures ok <==> Continuous(events)
  {
    if events == [] {
      return true;
    }
    for n := 0 to |events| - 1
      invariant forall j :: 0 <= j < n ==> events[j + 1].sequence == events[j].sequence + 1
    {
      if events[n + 1].sequence != events[n].sequence + 1 {
        return false;
      }
    }
    ok := true;
  }

  /** Accepts exactly the packet lists that spell the expected digits. */
  method ValidateTelephoneEvents(packets: seq<Packet>, digits: string, rate: nat := CLOCK_HZ)
    returns (r: Result<(), MediaError>)
    ensures r.Ok? <==> SpellsDigits(rate, Events(packets), digits)
  {
    hide DigitPacket, EventPayload, Grouped, Run, Continuous, Events, InStep;
    if !Dialable(digits) {
      return Err(BadDigits);
    }
    var events := SelectEvents(packets);
    if |events| != Place(|digits|, 0) {
      return Err(BadCount);
    }
    var continuous := CheckContinuity(events);
    if !continuous {
      return Err(Discontinuous);
    }
    var grouped, starts := GroupEvents(events, digits, rate);
    if grouped.Err? {
      return Err(grouped.error);
    }
    var groups := grouped.value;
    SameLength(rate, events, digits, groups, starts);
    if |groups| != |digits| {
      return Err(BadGrouping);
    }
    hide SpellsDigits;
    GroupsStartAtZero(events, groups, starts);
    for d := 0 to |digits|
      invariant StartAt(starts, |events|, d) == Place(d, 0)
      invariant forall e :: 0 <= e < d ==> StartAt(starts, |events|, e) == Place(e, 0)
      invariant forall e, k :: 0 <= e < d && 0 <= k < PER_DIGIT ==> DigitPacket(rate, events, digits, e, k)
    {
      var ok := CheckGroup(groups[d], EventCode(digits[d]).value, rate);
      if !ok {
        RejectedGroup(rate, events, digits, groups, starts, d);
        return Err(BadDigit);
      }
      AcceptedGroup(rate, events, digits, groups, starts, d);
    }
    AllAccepted(rate, events, digits, groups, starts);
    r := Ok(());
  }

  lemma SameLength(rate: nat, events: seq<Packet>, digits: string, groups: seq<seq<Packet>>, starts: seq<nat>)
    requires Grouped(events, |events|, groups, starts) && |events| == Place(|digits|, 0)
    requires SpellsDigits(rate, events, digits) ==> InStep(|events|, starts)
    ensures SpellsDigits(rate, events, digits) ==> |groups| == |digits|
  {
    hide SpellsDigits, Run;
  }

  lemma GroupsStartAtZero(events: seq<Packet>, groups: seq<seq<Packet>>, starts: seq<nat>)
    requires Grouped(events, |events|, groups, starts)
    ensures |starts| == |groups| && StartAt(starts, |events|, 0) == 0
  {
  }

  lemma AcceptedGroup(rate: nat, events: seq<Packet>, digits: string, groups: seq<seq<Packet>>, starts: seq<nat>,
                      d: nat)
    requires Dialable(digits) && |events| == Place(|digits|, 0) && d < |digits| == |groups|
    requires Grouped(events, |events|, groups, starts) && StartAt(starts, |events|, d) == Place(d, 0)
    requires |groups[d]| == PER_DIGIT
    requires forall k :: 0 <= k < PER_DIGIT ==>
               groups[d][k].marker == (k == 0)
                 && CarriesEvent(rate, groups[d][k].payload, EventCode(digits[d]).value, k)
    ensures StartAt(starts, |events|, d + 1) == Place(d + 1, 0)
    ensures forall k :: 0 <= k < PER_DIGIT ==> DigitPacket(rate, events, digits, d, k)
  {
    hide EventPayload;
    assert Run(events, |events|, groups[d], starts, d);
    forall k | 0 <= k < PER_DIGIT ensures DigitPacket(rate, events, digits, d, k) {
      assert groups[d][k] == events[Place(d, k)];
    }
  }

  lemma AllAccepted(rate: nat, events: seq<Packet>, digits: string, groups: seq<seq<Packet>>, starts: seq<nat>)
    requires Dialable(digits) && |events| == Place(|digits|, 0) && |digits| == |groups| && Continuous(events)
    requires Grouped(events, |events|, groups, starts)
    requires forall e :: 0 <= e < |digits| ==> StartAt(starts, |events|, e) == Place(e, 0)
    requires forall e, k :: 0 <= e < |digits| && 0 <= k < PER_DIGIT ==> DigitPacket(rate, events, digits, e, k)
    ensures SpellsDigits(rate, events, digits)
  {
    hide DigitPacket, Run;
    forall d, e | 0 <= d < e < |digits| ensures events[Place(d, 0)].timestamp != events[Place(e, 0)].timestamp {
      RunHead(events, |events|, groups, starts, d);
      RunHead(events, |events|, groups, starts, e);
    }
  }

  lemma RejectedGroup(rate: nat, events: seq<Packet>, digits: string, groups: seq<seq<Packet>>, starts: seq<nat>,
                      d: nat)
    requires Dialable(digits) && |events| == Place(|digits|, 0) && d < |digits| == |groups|
    requires Grouped(events, |events|, groups, starts)
    requires SpellsDigits(rate, events, digits) ==> InStep(|events|, starts)
    requires !(|groups[d]| == PER_DIGIT && forall k :: 0 <= k < PER_DIGIT ==>
                 groups[d][k].marker == (k == 0)
                   && CarriesEvent(rate, groups[d][k].payload, EventCode(digits[d]).value, k))
    ensures !SpellsDigits(rate, events, digits)
  {
    hide EventPayload;
    assert Run(events, |events|, groups[d], starts, d);
    if SpellsDigits(rate, events, digits) {
      assert starts[d] == Place(d, 0) && StartAt(starts, |events|, d + 1) == Place(d + 1, 0);
      forall k | 0 <= k < PER_DIGIT
        ensures groups[d][k].marker == (k == 0)
                && CarriesEvent(rate, groups[d][k].payload, EventCode(digits[d]).value, k)
      {
        assert groups[d][k] == events[Place(d, k)];
        assert DigitPacket(rate, events, digits, d, k);
      }
    }
  }
}
