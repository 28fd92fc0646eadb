/** Fixed-width integers as bytes, in both byte orders. */
module Bytes {

  type byte = x: int | 0 <= x < 256

  function Pow256(width: nat): (p: nat)
    ensures p > 0
  {
    if width == 0 then 1 else 256 * Pow256(width - 1)
  }

  function PackBig(n: nat, width: nat): (r: seq<byte>)
    ensures |r| == width
  {
    if width == 0 then [] else PackBig(n / 256, width - 1) + [n % 256]
  }

  function UnpackBig(b: seq<byte>): nat {
    if b == [] then 0 else 256 * UnpackBig(b[..|b| - 1]) + b[|b| - 1]
  }

  function PackLittle(n: nat, width: nat): (r: seq<byte>)
    ensures |r| == width
  {
    if width == 0 then [] else [n % 256] + PackLittle(n / 256, width - 1)
  }

  function UnpackLittle(b: seq<byte>): nat {
    if b == [] then 0 else b[0] + 256 * UnpackLittle(b[1..])
  }

  lemma {:induction false} BigRoundTrip(n: nat, width: nat)
    requires n < Pow256(width)
    ensures UnpackBig(PackBig(n, width)) == n
  {
    if width > 0 {
      BigRoundTrip(n / 256, width - 1);
      assert PackBig(n, width)[..width - 1] == PackBig(n / 256, width - 1);
    }
  }

  lemma {:induction false} LittleRoundTrip(n: nat, width: nat)
    requires n < Pow256(width)
    ensures UnpackLittle(PackLittle(n, width)) == n
  {
    if width > 0 {
      LittleRoundTrip(n / 256, width - 1);
      assert PackLittle(n, width)[1..] == PackLittle(n / 256, width - 1);
    }
  }

  lemma {:induction false} BigBounds(b: seq<byte>)
    ensures UnpackBig(b) < Pow256(|b|)
  {
    if b != [] {
      BigBounds(b[..|b| - 1]);
    }
  }

  lemma {:induction false} LittleBounds(b: seq<byte>)
    ensures UnpackLittle(b) < Pow256(|b|)
  {
    if b != [] {
      LittleBounds(b[1..]);
    }
  }

  lemma LowByte(low: byte, high: nat)
    ensures (256 * high + low) % 256 == low && (256 * high + low) / 256 == high
  {
  }

  lemma {:induction false} BigRepack(b: seq<byte>)
    ensures PackBig(UnpackBig(b), |b|) == b
  {
    if b != [] {
      BigRepack(b[..|b| - 1]);
      LowByte(b[|b| - 1], UnpackBig(b[..|b| - 1]));
      assert b == b[..|b| - 1] + [b[|b| - 1]];
    }
  }

  lemma {:induction false} LittleRepack(b: seq<byte>)
    ensures PackLittle(UnpackLittle(b), |b|) == b
  {
    if b != [] {
      LittleRepack(b[1..]);
      LowByte(b[0], UnpackLittle(b[1..]));
      assert b == [b[0]] + b[1..];
    }
  }

  lemma PowersOf256()
    ensures Pow256(1) == 0x100 && Pow256(2) == 0x1_0000 && Pow256(4) == 0x1_0000_0000
  {
  }
}
