/** Classic capture files: a 24-byte header naming the byte order, then length-prefixed records. */
module Pcap {
  import opened Prelude
  import opened Bytes

  datatype Order = Little | Big

  /** `original` is the length on the wire; `packet` holds the bytes kept. */
  datatype Record = Record(seconds: nat, fraction: nat, original: nat, packet: seq<byte>)

  const FILE_HEADER: nat := 24
  const RECORD_HEADER: nat := 16
  const WORD_LIMIT: nat := 0x1_0000_0000

  const LITTLE_MAGIC: seq<byte> := [0xd4, 0xc3, 0xb2, 0xa1]
  const BIG_MAGIC: seq<byte> := [0xa1, 0xb2, 0xc3, 0xd4]

  function OrderOf(header: seq<byte>): Option<Order>
    requires |header| >= FILE_HEADER
  {
    if header[..4] == LITTLE_MAGIC then Some(Little)
    else if header[..4] == BIG_MAGIC then Some(Big)
    else None
  }

  function Pack(order: Order, n: nat): (r: seq<byte>)
    ensures |r| == 4
  {
    if order.Big? then PackBig(n, 4) else PackLittle(n, 4)
  }

  function Unpack(order: Order, b: seq<byte>): nat {
    if order.Big? then UnpackBig(b) else UnpackLittle(b)
  }

  lemma UnpackPacked(order: Order, n: nat)
    requires n < WORD_LIMIT
    ensures Unpack(order, Pack(order, n)) == n
  {
    PowersOf256();
    BigRoundTrip(n, 4);
    LittleRoundTrip(n, 4);
  }

  lemma PackUnpacked(order: Order, b: seq<byte>)
    requires |b| == 4
    ensures Unpack(order, b) < WORD_LIMIT && Pack(order, Unpack(order, b)) == b
  {
    PowersOf256();
    BigBounds(b);
    LittleBounds(b);
    BigRepack(b);
    LittleRepack(b);
  }

  function Word(order: Order, file: seq<byte>, at: nat): nat
    requires at + 4 <= |file|
  {
    Unpack(order, file[at..at + 4])
  }

  /** The number of packet bytes a record header announces. */
  function Included(order: Order, file: seq<byte>, at: nat): nat
    requires at + RECORD_HEADER <= |file|
  {
    Word(order, file, at + 8)
  }

  function RecordAt(order: Order, file: seq<byte>, at: nat): Record
    requires at + RECORD_HEADER <= |file| && at + RECORD_HEADER + Included(order, file, at) <= |file|
  {
    Record(Word(order, file, at), Word(order, file, at + 4), Word(order, file, at + 12),
           file[at + RECORD_HEADER..at + RECORD_HEADER + Included(order, file, at)])
  }

  predicate Fits(r: Record) {
    r.seconds < WORD_LIMIT && r.fraction < WORD_LIMIT && r.original < WORD_LIMIT && |r.packet| < WORD_LIMIT
  }

  function Write(order: Order, r: Record): (b: seq<byte>)
    ensures |b| == RECORD_HEADER + |r.packet|
  {
    Pack(order, r.seconds) + Pack(order, r.fraction) + Pack(order, |r.packet|) + Pack(order, r.original) + r.packet
  }

  function WriteAll(order: Order, records: seq<Record>): seq<byte> {
    if records == [] then [] else WriteAll(order, records[..|records| - 1]) + Write(order, records[|records| - 1])
  }

  lemma SliceOfSlice(file: seq<byte>, at: nat, w: seq<byte>, i: nat, j: nat)
    requires at + |w| <= |file| && file[at..at + |w|] == w && i <= j <= |w|
    ensures file[at + i..at + j] == w[i..j]
  {
    forall k | 0 <= k < j - i ensures file[at + i..at + j][k] == w[i..j][k] {
      assert file[at..at + |w|][i + k] == w[i + k];
    }
  }

  /** A written record reads back, wherever it stands. */
  lemma WrittenReads(order: Order, file: seq<byte>, at: nat, r: Record)
    requires Fits(r) && at + RECORD_HEADER + |r.packet| <= |file|
    requires file[at..at + RECORD_HEADER + |r.packet|] == Write(order, r)
    ensures Included(order, file, at) == |r.packet| && RecordAt(order, file, at) == r
  {
    hide Pack, Unpack;
    var w := Write(order, r);
    assert w[..4] == Pack(order, r.seconds) && w[4..8] == Pack(order, r.fraction);
    assert w[0..4] == w[..4] && w[16..|w|] == w[16..];
    assert w[8..12] == Pack(order, |r.packet|) && w[12..16] == Pack(order, r.original) && w[16..] == r.packet;
    SliceOfSlice(file, at, w, 0, 4);
    SliceOfSlice(file, at, w, 4, 8);
    SliceOfSlice(file, at, w, 8, 12);
    SliceOfSlice(file, at, w, 12, 16);
    SliceOfSlice(file, at, w, 16, |w|);
    UnpackPacked(order, r.seconds);
    UnpackPacked(order, r.fraction);
    UnpackPacked(order, |r.packet|);
    UnpackPacked(order, r.original);
  }

  /** A record read writes back to the bytes it came from. */
  lemma ReadWrites(order: Order, file: seq<byte>, at: nat)
    requires at + RECORD_HEADER <= |file| && at + RECORD_HEADER + Included(order, file, at) <= |file|
    ensures var r := RecordAt(order, file, at);
            Fits(r) && Write(order, r) == file[at..at + RECORD_HEADER + |r.packet|]
  {
    hide Pack, Unpack;
    var r := RecordAt(order, file, at);
    PackUnpacked(order, file[at..at + 4]);
    PackUnpacked(order, file[at + 4..at + 8]);
    PackUnpacked(order, file[at + 8..at + 12]);
    PackUnpacked(order, file[at + 12..at + 16]);
    assert file[at..at + RECORD_HEADER + |r.packet|]
        == file[at..at + 4] + file[at + 4..at + 8] + file[at + 8..at + 12] + file[at + 12..at + 16] + r.packet;
  }

  /** Appending to a file changes no record already complete in it. */
  lemma RecordsAreStable(order: Order, file: seq<byte>, longer: seq<byte>, at: nat)
    requires file <= longer && at + RECORD_HEADER <= |file|
    ensures Included(order, longer, at) == Included(order, file, at)
    ensures at + RECORD_HEADER + Included(order, file, at) <= |file| ==>
                RecordAt(order, longer, at) == RecordAt(order, file, at)
  {
    assert longer[..|file|] == file;
    assert longer[at..at + 4] == file[at..at + 4];
    assert longer[at + 4..at + 8] == file[at + 4..at + 8];
    assert longer[at + 8..at + 12] == file[at + 8..at + 12];
    assert longer[at + 12..at + 16] == file[at + 12..at + 16];
    var n := Included(order, file, at);
    if at + RECORD_HEADER + n <= |file| {
      assert longer[at + 16..at + 16 + n] == file[at + 16..at + 16 + n];
    }
  }
}
