/** `to_le_bytes` / `from_le_bytes`. */
module LittleEndian {
  import opened Common

  function Limit(width: nat): (r: nat)
    ensures r >= 1
  {
    if width == 0 then 1 else 256 * Limit(width - 1)
  }

  function LeBytes(n: nat, width: nat): (b: Bytes)
    ensures |b| == width
    decreases width
  {
    if width == 0 then [] else [n % 256] + LeBytes(n / 256, width - 1)
  }

  function FromLe(b: Bytes): nat {
    if b == [] then 0 else b[0] + 256 * FromLe(b[1..])
  }

  lemma {:induction false} LeRoundTrip(n: nat, width: nat)
    requires n < Limit(width)
    ensures FromLe(LeBytes(n, width)) == n
    decreases width
  {
    if width > 0 {
      assert n / 256 < Limit(width - 1);
      LeRoundTrip(n / 256, width - 1);
      assert LeBytes(n, width)[1..] == LeBytes(n / 256, width - 1);
    }
  }

  lemma LeInjective(a: nat, b: nat, width: nat)
    requires a < Limit(width) && b < Limit(width) && LeBytes(a, width) == LeBytes(b, width)
    ensures a == b
  {
    LeRoundTrip(a, width);
    LeRoundTrip(b, width);
  }

  /** The last byte is the most significant one. */
  lemma {:induction false} FromLeAppend(b: Bytes, x: Byte)
    ensures FromLe(b + [x]) == FromLe(b) + x * Limit(|b|)
    decreases |b|
  {
    if b == [] {
      assert [x][1..] == [];
    } else {
      assert (b + [x])[1..] == b[1..] + [x];
      FromLeAppend(b[1..], x);
      Scale(x, Limit(|b| - 1));
    }
  }

  lemma Scale(x: nat, limit: nat)
    ensures 256 * (x * limit) == x * (256 * limit)
  {
  }

  /** Every byte string is the encoding of the number it reads as. */
  lemma {:induction false} LeBytesOfFromLe(b: Bytes)
    ensures LeBytes(FromLe(b), |b|) == b
    decreases |b|
  {
    if b != [] {
      LeBytesOfFromLe(b[1..]);
      assert FromLe(b) % 256 == b[0] && FromLe(b) / 256 == FromLe(b[1..]);
    }
  }

  lemma Limits()
    ensures Limit(4) == U32_LIMIT && Limit(8) == U64_LIMIT
  {
    assert Limit(1) == 256 && Limit(2) == 0x1_0000 && Limit(3) == 0x100_0000 && Limit(4) == 0x1_0000_0000;
    assert Limit(5) == 256 * Limit(4) && Limit(6) == 256 * Limit(5) && Limit(7) == 256 * Limit(6);
    assert Limit(8) == 256 * Limit(7);
  }
}
