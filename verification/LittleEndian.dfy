// Little-endian integers.
module LittleEndian {
  import opened Prelude

  function LeValue(s: Bytes): nat {
    if s == [] then 0 else s[0] + 256 * LeValue(s[1..])
  }

  function LeBytes(v: nat, n: nat): (s: Bytes)
    ensures |s| == n
  {
    if n == 0 then [] else [v % 256] + LeBytes(v / 256, n - 1)
  }

  // 256 to the n.
  function Shl256(n: nat): (r: nat)
    ensures r > 0
  {
    if n == 0 then 1 else 256 * Shl256(n - 1)
  }

  // The value of the n-byte form of a number that fits is the number.
  lemma {:induction false} LeRoundTrip(v: nat, n: nat)
    requires v < Shl256(n)
    ensures LeValue(LeBytes(v, n)) == v
  {
    if n > 0 {
      LeRoundTrip(v / 256, n - 1);
    }
  }

  // Every byte string is the form of its own value.
  lemma {:induction false} LeCanonical(s: Bytes)
    ensures LeValue(s) < Shl256(|s|) && LeBytes(LeValue(s), |s|) == s
  {
    if s != [] {
      LeCanonical(s[1..]);
    }
  }

  lemma Widths()
    ensures Shl256(2) == 0x1_0000 && Shl256(4) == TWO_32 && Shl256(8) == TWO_64
  {
    assert Shl256(4) == 256 * Shl256(3) && Shl256(3) == 256 * Shl256(2) && Shl256(2) == 256 * Shl256(1);
    assert Shl256(8) == 256 * Shl256(7) && Shl256(7) == 256 * Shl256(6) && Shl256(6) == 256 * Shl256(5);
  }
}
