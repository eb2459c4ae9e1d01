// Bit shifts, bit lengths and division facts shared by the consensus arithmetic.
module Arith {
  import opened Prelude

  function Shl(v: nat, k: nat): nat {
    if k == 0 then v else 2 * Shl(v, k - 1)
  }

  function Shr(v: nat, k: nat): nat {
    if k == 0 then v else Shr(v / 2, k - 1)
  }

  // The number of significant bits.
  function Bits(v: nat): nat {
    if v == 0 then 0 else 1 + Bits(v / 2)
  }

  // A left shift fits under t exactly when the value fits under the right shift of t.
  lemma {:induction false} ShiftGalois(m: nat, t: nat, k: nat)
    ensures Shl(m, k) <= t <==> m <= Shr(t, k)
  {
    if k > 0 {
      ShiftGalois(m, t / 2, k - 1);
    }
  }

  lemma {:induction false} ShlAdd(v: nat, m: nat, n: nat)
    ensures Shl(Shl(v, m), n) == Shl(v, m + n)
  {
    if n > 0 {
      ShlAdd(v, m, n - 1);
    }
  }

  lemma {:induction false} ShrAdd(v: nat, m: nat, n: nat)
    ensures Shr(Shr(v, m), n) == Shr(v, m + n)
  {
    if m > 0 {
      ShrAdd(v / 2, m - 1, n);
    }
  }

  lemma {:induction false} ShlMono(v: nat, v': nat, k: nat)
    requires v <= v'
    ensures Shl(v, k) <= Shl(v', k)
  {
    if k > 0 {
      ShlMono(v, v', k - 1);
    }
  }

  lemma {:induction false} ShrMono(v: nat, v': nat, k: nat)
    requires v <= v'
    ensures Shr(v, k) <= Shr(v', k)
  {
    if k > 0 {
      ShrMono(v / 2, v' / 2, k - 1);
    }
  }

  lemma {:induction false} ShlGrows(v: nat, k: nat, k': nat)
    requires k <= k'
    ensures v <= Shl(v, k) <= Shl(v, k')
    decreases k' - k, k
  {
    if k < k' {
      ShlGrows(v, k, k' - 1);
    } else if k > 0 {
      ShlGrows(v, k - 1, k - 1);
    }
  }

  lemma {:induction false} ShrOfShl(v: nat, k: nat)
    ensures Shr(Shl(v, k), k) == v
  {
    if k > 0 {
      ShrOfShl(v, k - 1);
    }
  }

  lemma ByteShifts(v: nat)
    ensures Shl(v, 8) == 256 * v && Shr(v, 8) == v / 256
  {
    NibbleShifts(v);
    NibbleShifts(16 * v);
    NibbleShifts(v / 16);
    ShlAdd(v, 4, 4);
    ShrAdd(v, 4, 4);
  }

  lemma NibbleShifts(v: nat)
    ensures Shl(v, 4) == 16 * v && Shr(v, 4) == v / 16
  {
    assert Shl(v, 2) == 2 * Shl(v, 1) && Shl(v, 1) == 2 * Shl(v, 0);
    assert Shl(v, 4) == 2 * Shl(v, 3) && Shl(v, 3) == 2 * Shl(v, 2);
    assert Shr(v, 4) == Shr(v / 2, 3) && Shr(v / 2, 3) == Shr(v / 4, 2);
    assert Shr(v / 4, 2) == Shr(v / 8, 1) && Shr(v / 8, 1) == Shr(v / 16, 0);
  }

  // Left shifts by whole words.
  lemma WordShifts(v: nat)
    ensures Shl(v, 16) == 0x1_0000 * v && Shl(v, 24) == 0x100_0000 * v && Shl(v, 32) == 0x1_0000_0000 * v
    ensures Shl(v, 256) == TWO_256 * v
  {
    ByteShifts(v);
    ByteShifts(256 * v);
    ShlAdd(v, 8, 8);
    ByteShifts(0x1_0000 * v);
    ShlAdd(v, 16, 8);
    ByteShifts(0x100_0000 * v);
    ShlAdd(v, 24, 8);
    Double32(v);
  }

  lemma Double32(v: nat)
    requires Shl(v, 32) == 0x1_0000_0000 * v
    ensures Shl(v, 256) == TWO_256 * v
  {
    ShlScale(v, 32, 0x1_0000_0000, 32, 0x1_0000_0000);
    ShlScale(v, 64, TWO_64, 64, TWO_64);
    ShlScale(v, 128, TWO_64 * TWO_64, 128, TWO_64 * TWO_64);
  }

  lemma {:induction false} ShlUnit(v: nat, k: nat)
    ensures Shl(v, k) == v * Shl(1, k)
  {
    if k > 0 {
      ShlUnit(v, k - 1);
      Twice(v, Shl(1, k - 1));
    }
  }

  lemma Twice(v: nat, x: nat)
    ensures v * (2 * x) == 2 * (v * x)
  {
  }

  lemma ShlScale(v: nat, m: nat, a: nat, n: nat, b: nat)
    requires Shl(v, m) == a * v && m == n && a == b
    ensures Shl(v, m + n) == a * b * v
  {
    ShlAdd(v, m, n);
    ShlUnit(a * v, n);
    ShlUnit(v, n);
    assert a * v * Shl(1, n) == a * (v * Shl(1, n));
    assert a * (b * v) == a * b * v;
  }

  lemma {:induction false} BitsShr(v: nat, k: nat)
    ensures Bits(v) <= k <==> Shr(v, k) == 0
  {
    if k > 0 {
      BitsShr(v / 2, k - 1);
    }
  }

  // v has at most k bits exactly when v < 2^k.
  lemma BitsBelow(v: nat, k: nat)
    ensures Bits(v) <= k <==> v < Shl(1, k)
  {
    BitsShr(v, k);
    ShiftGalois(1, v, k);
  }

  lemma {:induction false} BitsShl(v: nat, k: nat)
    requires v > 0
    ensures Bits(Shl(v, k)) == Bits(v) + k
  {
    if k > 0 {
      BitsShl(v, k - 1);
    }
  }

  // A product by repeated addition: the solver multiplies it out only where told to.
  function Times(a: nat, b: nat): nat {
    if b == 0 then 0 else a + Times(a, b - 1)
  }

  lemma {:induction false} TimesIs(a: nat, b: nat)
    ensures Times(a, b) == a * b
  {
    if b > 0 {
      TimesIs(a, b - 1);
    }
  }

  lemma MulLe(a: nat, b: nat, c: nat, d: nat)
    requires a <= b && c <= d
    ensures 0 <= a * c <= b * d
  {
    assert a * c <= b * c;
    assert b * c <= b * d;
  }

  lemma DivMono(a: nat, b: nat, d: nat)
    requires a <= b && d > 0
    ensures a / d <= b / d
  {
    if a / d > b / d {
      MulLe(b / d + 1, a / d, d, d);
    }
  }

  // q is the quotient a/d as soon as it brackets a.
  lemma DivUnique(a: int, d: nat, q: int)
    requires d > 0 && q * d <= a < q * d + d
    ensures a / d == q
  {
    var r := a / d;
    assert (r - q) * d < d && (q - r) * d < d;
    MulStrict(r - q, d);
    MulStrict(q - r, d);
  }

  lemma MulStrict(k: int, d: nat)
    requires d > 0 && k * d < d
    ensures k < 1
  {
    if k >= 1 {
      MulLe(1, k, d, d);
    }
  }

  // A quotient by repeated subtraction, for the same reason.
  function Quot(a: nat, d: nat): nat
    requires d > 0
  {
    if a < d then 0 else 1 + Quot(a - d, d)
  }

  lemma {:induction false} QuotIs(a: nat, d: nat)
    requires d > 0
    ensures Quot(a, d) == a / d
  {
    if a >= d {
      QuotIs(a - d, d);
      var q := (a - d) / d;
      assert (q + 1) * d == q * d + d;
      DivUnique(a, d, q + 1);
    }
  }
}
