/** Removing media payload from a capture while keeping every record and its headers. */
module MediaStripper {
  import opened Prelude
  import opened Sorting
  import opened Bytes
  import opened Pcap

  datatype Ports = Ports(start: nat, end: nat, signaling: set<nat>)

  datatype StripError = TooShort | NotClassic | HeaderTruncated | PacketTruncated

  // ----- how much of a packet is header

  function Word16(packet: seq<byte>, at: nat): nat
    requires at + 2 <= |packet|
  {
    var high: nat, low: nat := packet[at], packet[at + 1];
    256 * high + low
  }

  const VLAN: nat := 0x8100
  const IPV4: nat := 0x0800
  const IPV6: nat := 0x86DD
  const UDP: nat := 17

  /** Where the network header starts: one VLAN tag may precede it. */
  function Network(packet: seq<byte>): nat
    requires |packet| >= 14
  {
    if Word16(packet, 12) == VLAN && |packet| >= 18 then 18 else 14
  }

  function EtherType(packet: seq<byte>): nat
    requires |packet| >= 14
  {
    if Word16(packet, 12) == VLAN && |packet| >= 18 then Word16(packet, 16) else Word16(packet, 12)
  }

  /** Where the UDP header starts, for packets that carry one. */
  function Transport(packet: seq<byte>): Option<nat> {
    if |packet| < 14 then None
    else
      var network, etherType := Network(packet), EtherType(packet);
      if etherType == IPV4 && |packet| >= network + 20 then
        if packet[network + 9] != UDP then None else Some(network + packet[network] % 16 * 4)
      else if etherType == IPV6 && |packet| >= network + 40 then
        if packet[network + 6] != UDP then None else Some(network + 40)
      else None
  }

  predicate IsMedia(packet: seq<byte>, udp: nat, ports: Ports)
    requires udp + 8 <= |packet|
  {
    var source, destination := Word16(packet, udp), Word16(packet, udp + 2);
    && source !in ports.signaling && destination !in ports.signaling
    && (ports.start <= source <= ports.end || ports.start <= destination <= ports.end)
  }

  /** The length kept of a media packet: UDP header and the fixed RTP header of section 5.1 of RFC 3550. */
  function MediaHeaderLength(packet: seq<byte>, ports: Ports): (r: Option<nat>)
    ensures r.Some? ==> r.value <= |packet|
  {
    match Transport(packet)
    case None => None
    case Some(udp) =>
      if |packet| < udp + 8 || !IsMedia(packet, udp, ports) then None
      else Some(Min(|packet|, udp + 8 + 12))
  }

  function StripPacket(packet: seq<byte>, ports: Ports): seq<byte> {
    match MediaHeaderLength(packet, ports)
    case Some(keep) => packet[..keep]
    case None => packet
  }

  function StripRecord(r: Record, ports: Ports): Record {
    r.(packet := StripPacket(r.packet, ports))
  }

  function StripRecords(records: seq<Record>, ports: Ports): (s: seq<Record>)
    ensures |s| == |records| && forall i :: 0 <= i < |s| ==> s[i] == StripRecord(records[i], ports)
  {
    Map((r: Record) => StripRecord(r, ports), records)
  }

  /** A cut packet still shows the same headers, so cutting again cuts nothing. */
  lemma HeadersSurvive(packet: seq<byte>, ports: Ports)
    requires MediaHeaderLength(packet, ports).Some?
    ensures var kept := StripPacket(packet, ports);
            Transport(kept) == Transport(packet) && MediaHeaderLength(kept, ports) == Some(|kept|)
  {
  }

  lemma StrippingTwice(packet: seq<byte>, ports: Ports)
    ensures StripPacket(StripPacket(packet, ports), ports) == StripPacket(packet, ports)
  {
  }

  // ----- the whole capture

  function ReadAll(order: Order, file: seq<byte>, at: nat): Result<seq<Record>, StripError>
    requires at <= |file|
    decreases |file| - at
  {
    if at == |file| then Ok([])
    else if at + RECORD_HEADER > |file| then Err(HeaderTruncated)
    else if at + RECORD_HEADER + Included(order, file, at) > |file| then Err(PacketTruncated)
    else Prepend([RecordAt(order, file, at)], ReadAll(order, file, at + RECORD_HEADER + Included(order, file, at)))
  }

  /** The records of a capture file, or why it is refused. */
  function Parse(file: seq<byte>): Result<seq<Record>, StripError> {
    if |file| < FILE_HEADER then Err(TooShort)
    else if OrderOf(file).None? then Err(NotClassic)
    else ReadAll(OrderOf(file).value, file, FILE_HEADER)
  }

  function Prepend(done: seq<Record>, rest: Result<seq<Record>, StripError>): Result<seq<Record>, StripError> {
    match rest
    case Ok(r) => Ok(done + r)
    case Err(e) => Err(e)
  }

  lemma PrependNext(done: seq<Record>, record: Record, rest: Result<seq<Record>, StripError>)
    ensures Prepend(done, Prepend([record], rest)) == Prepend(done + [record], rest)
  {
    if rest.Ok? {
      assert done + ([record] + rest.value) == (done + [record]) + rest.value;
    }
  }

  lemma PrependNothing(rest: Result<seq<Record>, StripError>)
    ensures Prepend([], rest) == rest
  {
    if rest.Ok? {
      assert [] + rest.value == rest.value;
    }
  }

  method StripMediaPayload(raw: seq<byte>, ports: Ports) returns (r: Result<seq<byte>, StripError>)
    ensures Parse(raw).Err? ==> r == Err(Parse(raw).error)
    ensures Parse(raw).Ok? ==>
              r == Ok(raw[..FILE_HEADER] + WriteAll(OrderOf(raw).value, StripRecords(Parse(raw).value, ports)))
  {
    hide StripRecord, RecordAt, Included, Write;
    if |raw| < FILE_HEADER {
      return Err(TooShort);
    }
    if OrderOf(raw).None? {
      return Err(NotClassic);
    }
    var order := OrderOf(raw).value;
    var output, offset := raw[..FILE_HEADER], FILE_HEADER;
    ghost var done: seq<Record> := [];
    PrependNothing(ReadAll(order, raw, offset));
    while offset < |raw|
      invariant FILE_HEADER <= offset <= |raw|
      invariant output == raw[..FILE_HEADER] + WriteAll(order, StripRecords(done, ports))
      invariant Parse(raw) == Prepend(done, ReadAll(order, raw, offset))
    {
      if offset + RECORD_HEADER > |raw| {
        return Err(HeaderTruncated);
      }
      var included := Included(order, raw, offset);
      if offset + RECORD_HEADER + included > |raw| {
        return Err(PacketTruncated);
      }
      var record := RecordAt(order, raw, offset);
      output := output + Write(order, StripRecord(record, ports));
      Extend(order, done, record, ports);
      PrependNext(done, record, ReadAll(order, raw, offset + RECORD_HEADER + included));
      done := done + [record];
      offset := offset + RECORD_HEADER + included;
    }
    assert done + [] == done;
    r := Ok(output);
  }

  lemma Extend(order: Order, done: seq<Record>, record: Record, ports: Ports)
    ensures WriteAll(order, StripRecords(done + [record], ports))
         == WriteAll(order, StripRecords(done, ports)) + Write(order, StripRecord(record, ports))
  {
    hide StripRecord, Write;
    var all := StripRecords(done + [record], ports);
    assert all[..|all| - 1] == StripRecords(done, ports);
  }

  // ----- what stripping keeps

  lemma {:induction false} ReadRecordsFit(order: Order, file: seq<byte>, at: nat)
    requires at <= |file| && ReadAll(order, file, at).Ok?
    ensures forall r :: r in ReadAll(order, file, at).value ==> Fits(r)
    decreases |file| - at
  {
    hide Fits, Write, RecordAt, Included;
    if at < |file| {
      ReadWrites(order, file, at);
      ReadRecordsFit(order, file, at + RECORD_HEADER + Included(order, file, at));
    }
  }

  function WriteFrom(order: Order, records: seq<Record>): seq<byte> {
    if records == [] then [] else Write(order, records[0]) + WriteFrom(order, records[1..])
  }

  lemma {:induction false} WriteFromAppends(order: Order, records: seq<Record>, r: Record)
    ensures WriteFrom(order, records + [r]) == WriteFrom(order, records) + Write(order, r)
  {
    hide Write;
    if records == [] {
      assert [r][1..] == [] && WriteFrom(order, [r][1..]) == [];
    } else {
      assert (records + [r])[1..] == records[1..] + [r];
      WriteFromAppends(order, records[1..], r);
    }
  }

  lemma {:induction false} WriteAllFromFront(order: Order, records: seq<Record>)
    ensures WriteAll(order, records) == WriteFrom(order, records)
  {
    hide Write;
    if records != [] {
      var n := |records| - 1;
      WriteAllFromFront(order, records[..n]);
      WriteFromAppends(order, records[..n], records[n]);
      assert records[..n] + [records[n]] == records;
    }
  }

  /** What was written reads back, record for record. */
  lemma {:induction false} WrittenReadsBack(order: Order, file: seq<byte>, at: nat, records: seq<Record>)
    requires at <= |file| && file[at..] == WriteFrom(order, records) && forall r :: r in records ==> Fits(r)
    ensures ReadAll(order, file, at) == Ok(records)
    decreases |records|
  {
    hide Write, RecordAt, Included, Fits;
    if records != [] {
      var r := records[0];
      var n := RECORD_HEADER + |r.packet|;
      assert file[at..][..n] == file[at..at + n];
      assert file[at..][n..] == file[at + n..];
      WrittenReads(order, file, at, r);
      WrittenReadsBack(order, file, at + n, records[1..]);
      assert [r] + records[1..] == records;
    }
  }

  lemma {:induction false} ReadWritesBack(order: Order, file: seq<byte>, at: nat)
    requires at <= |file| && ReadAll(order, file, at).Ok?
    ensures WriteFrom(order, ReadAll(order, file, at).value) == file[at..]
    decreases |file| - at
  {
    hide Write, RecordAt, Included;
    if at < |file| {
      var r := RecordAt(order, file, at);
      ReadWrites(order, file, at);
      var next := at + RECORD_HEADER + Included(order, file, at);
      RecordLength(order, file, at);
      ReadWritesBack(order, file, next);
      var rest := ReadAll(order, file, next).value;
      assert ([r] + rest)[1..] == rest;
      assert file[at..] == file[at..next] + file[next..];
    }
  }

  lemma RecordLength(order: Order, file: seq<byte>, at: nat)
    requires at + RECORD_HEADER <= |file| && at + RECORD_HEADER + Included(order, file, at) <= |file|
    ensures |RecordAt(order, file, at).packet| == Included(order, file, at)
  {
  }

  /** The capture after stripping, as a function of the capture before. */
  function Stripped(raw: seq<byte>, ports: Ports): seq<byte>
    requires Parse(raw).Ok?
  {
    raw[..FILE_HEADER] + WriteAll(OrderOf(raw).value, StripRecords(Parse(raw).value, ports))
  }

  /** Stripping commutes with parsing, so record count, order, times and wire lengths survive. */
  lemma StrippingParses(raw: seq<byte>, ports: Ports)
    requires Parse(raw).Ok?
    ensures Parse(Stripped(raw, ports)) == Ok(StripRecords(Parse(raw).value, ports))
  {
    var order, records, output := OrderOf(raw).value, Parse(raw).value, Stripped(raw, ports);
    var kept := StripRecords(records, ports);
    hide StripRecords, StripRecord;
    assert output[..4] == raw[..4];
    ReadRecordsFit(order, raw, FILE_HEADER);
    forall r | r in kept ensures Fits(r) {
      var i :| 0 <= i < |kept| && kept[i] == r;
      StrippedFits(records[i], ports);
    }
    WriteAllFromFront(order, kept);
    assert output[FILE_HEADER..] == WriteFrom(order, kept);
    WrittenReadsBack(order, output, FILE_HEADER, kept);
  }

  lemma StrippedFits(r: Record, ports: Ports)
    requires Fits(r)
    ensures Fits(StripRecord(r, ports))
  {
  }

  /** Stripping twice equals stripping once. */
  lemma StrippedTwice(raw: seq<byte>, ports: Ports)
    requires Parse(raw).Ok?
    ensures Parse(Stripped(raw, ports)).Ok? && Stripped(Stripped(raw, ports), ports) == Stripped(raw, ports)
  {
    var order, records, once := OrderOf(raw).value, Parse(raw).value, Stripped(raw, ports);
    StrippingParses(raw, ports);
    var kept := StripRecords(records, ports);
    forall i | 0 <= i < |kept| ensures StripRecords(kept, ports)[i] == kept[i] {
      StrippingTwice(records[i].packet, ports);
    }
    assert StripRecords(kept, ports) == kept;
    assert once[..4] == raw[..4] && once[..FILE_HEADER] == raw[..FILE_HEADER];
  }

  /** A capture without media comes back byte for byte. */
  lemma NothingToStrip(raw: seq<byte>, ports: Ports)
    requires Parse(raw).Ok?
    requires forall r :: r in Parse(raw).value ==> MediaHeaderLength(r.packet, ports).None?
    ensures Stripped(raw, ports) == raw
  {
    var order, records := OrderOf(raw).value, Parse(raw).value;
    forall i | 0 <= i < |records| ensures StripRecords(records, ports)[i] == records[i] {
      assert records[i] in records;
    }
    assert StripRecords(records, ports) == records;
    WriteAllFromFront(order, records);
    ReadWritesBack(order, raw, FILE_HEADER);
  }

  /** A VLAN tag between the addresses and the type. */
  predicate Tagged(packet: seq<byte>) {
    |packet| >= 18 && packet[12] == 0x81 && packet[13] == 0x00
  }

  /** A UDP header begins there: behind IPv4 with its options, or behind the 40 bytes of IPv6. */
  predicate UdpAt(packet: seq<byte>, udp: nat) {
    && |packet| >= 14
    && var ip := if Tagged(packet) then 18 else 14;
       || (packet[ip - 2] == 0x08 && packet[ip - 1] == 0x00 && |packet| >= ip + 20 && packet[ip + 9] == 17
           && udp == ip + 4 * (packet[ip] as int % 16))
       || (packet[ip - 2] == 0x86 && packet[ip - 1] == 0xDD && |packet| >= ip + 40 && packet[ip + 6] == 17
           && udp == ip + 40)
  }

  function PortAt(packet: seq<byte>, at: nat): nat
    requires at + 1 < |packet|
  {
    packet[at + 1] as nat + packet[at] as nat * 256
  }

  predicate MediaPort(port: nat, ports: Ports) {
    ports.start <= port && port <= ports.end
  }

  /** Carries media: UDP, no signaling port, and at least one port of the range. */
  predicate CarriesMedia(packet: seq<byte>, ports: Ports, udp: nat) {
    && UdpAt(packet, udp) && udp + 8 <= |packet|
    && PortAt(packet, udp) !in ports.signaling && PortAt(packet, udp + 2) !in ports.signaling
    && (MediaPort(PortAt(packet, udp), ports) || MediaPort(PortAt(packet, udp + 2), ports))
  }

  /** Exactly which packets are cut, and where: a UDP header and the twelve fixed bytes of an RTP header remain. */
  lemma CutExactly(packet: seq<byte>, ports: Ports)
    ensures forall udp: nat :: CarriesMedia(packet, ports, udp) ==>
                            StripPacket(packet, ports) == if udp + 20 < |packet| then packet[..udp + 20] else packet
    ensures (forall udp: nat :: !CarriesMedia(packet, ports, udp)) ==> StripPacket(packet, ports) == packet
    ensures MediaHeaderLength(packet, ports).Some? <==> exists udp: nat :: CarriesMedia(packet, ports, udp)
  {
    forall udp: nat ensures Transport(packet) == Some(udp) <==> UdpAt(packet, udp) {
      TransportIs(packet, udp);
    }
    hide Transport, UdpAt;
    if MediaHeaderLength(packet, ports).Some? {
      assert CarriesMedia(packet, ports, Transport(packet).value);
    }
  }

  lemma TransportIs(packet: seq<byte>, udp: nat)
    ensures Transport(packet) == Some(udp) <==> UdpAt(packet, udp)
  {
  }

  /** A packet whose protocol is not UDP, such as one over TCP, is never cut. */
  lemma OthersKept(packet: seq<byte>, ports: Ports)
    requires forall udp: nat :: !UdpAt(packet, udp)
    ensures StripPacket(packet, ports) == packet
  {
    CutExactly(packet, ports);
    hide UdpAt, StripPacket;
  }

  /**
   Each record keeps its times and wire length and loses at most a tail of its packet: only a
   media packet loses anything, and it keeps everything up to the end of its fixed RTP header.
   */
  lemma EachRecordKept(raw: seq<byte>, ports: Ports, i: nat)
    requires Parse(raw).Ok? && i < |Parse(raw).value|
    ensures var before, after := Parse(raw).value[i], StripRecords(Parse(raw).value, ports)[i];
            && after.seconds == before.seconds && after.fraction == before.fraction && after.original == before.original
            && after.packet <= before.packet
            && (after.packet != before.packet <==>
                  && Transport(before.packet).Some?
                  && Transport(before.packet).value + 20 < |before.packet|
                  && IsMedia(before.packet, Transport(before.packet).value, ports))
            && (after.packet != before.packet ==> |after.packet| == Transport(before.packet).value + 20)
  {
  }

  // ----- frames built layer by layer

  /** An Ethernet frame: two addresses, perhaps one VLAN tag, the type and the network packet. */
  function Ethernet(addresses: seq<byte>, tag: Option<seq<byte>>, etherType: seq<byte>, network: seq<byte>): seq<byte> {
    addresses + (match tag case Some(t) => [0x81, 0x00] + t case None => []) + etherType + network
  }

  predicate Framed(addresses: seq<byte>, tag: Option<seq<byte>>) {
    |addresses| == 12 && (tag.Some? ==> |tag.value| == 2)
  }

  /** In an IPv4 frame, tagged or not, the UDP header is found behind the options. */
  lemma FindsUdpInIpv4(addresses: seq<byte>, tag: Option<seq<byte>>, ip: seq<byte>, udp: seq<byte>)
    requires Framed(addresses, tag) && 20 <= |ip| <= 60 && |ip| % 4 == 0 && ip[0] == 0x40 + |ip| / 4 && ip[9] == UDP
    ensures var packet := Ethernet(addresses, tag, [0x08, 0x00], ip + udp);
            Transport(packet) == Some(|packet| - |udp|)
  {
  }

  /** In an IPv6 frame without extension headers, the UDP header follows the fixed header. */
  lemma FindsUdpInIpv6(addresses: seq<byte>, tag: Option<seq<byte>>, ip: seq<byte>, udp: seq<byte>)
    requires Framed(addresses, tag) && |ip| == 40 && ip[6] == UDP
    ensures var packet := Ethernet(addresses, tag, [0x86, 0xDD], ip + udp);
            Transport(packet) == Some(|packet| - |udp|)
  {
  }
}
