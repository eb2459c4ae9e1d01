// ASERT difficulty retargeting: target = anchor * 2^((time - ideal) / tau), with
// a Q16 exponent and the aserti3-2d cubic approximation of 2^x on [0, 1).
module Asert {
  import opened Prelude
  import opened Arith

  // Integer division that truncates toward zero.
  function TruncDiv(a: int, d: nat): int
    requires d > 0
  {
    var q: int := Quot(if a >= 0 then a else -a, d);
    if a >= 0 then q else -q
  }

  // The Q16 exponent.
  function Exponent(interval: nat, tau: nat, timeDiff: int, heightDiff: nat): int
    requires tau > 0
  {
    TruncDiv((timeDiff - Times(interval, heightDiff + 1)) * 65536, tau)
  }

  function Cubic(frac: nat): nat {
    195_766_423_245_049 * frac + 971_821_376 * Times(frac, frac) + 5_127 * Times(Times(frac, frac), frac) + 0x8000_0000_0000
  }

  lemma CubicIs(f: nat)
    ensures Cubic(f) == 195_766_423_245_049 * f + 971_821_376 * (f * f) + 5_127 * (f * f * f) + 0x8000_0000_0000
  {
    TimesIs(f, f);
    TimesIs(f * f, f);
  }

  // 2^(frac/65536) in Q16.
  function Factor(frac: nat): nat {
    65536 + Cubic(frac) / 0x1_0000_0000_0000
  }

  // The anchor scaled by the fractional part of the exponent.
  function Mantissa(anchor: nat, frac: nat): nat {
    Times(anchor, Factor(frac)) / 65536
  }

  function Shift(t: nat, shifts: int): nat {
    if shifts < 0 then Shr(t, -shifts) else Shl(t, shifts)
  }

  function Clamp(v: int, lo: int, hi: int): int {
    if v < lo then lo else if v > hi then hi else v
  }

  // Whatever the clocks say, the result is a usable target.
  function NextTarget(anchor: nat, interval: nat, tau: nat, timeDiff: int, heightDiff: nat, limit: nat): (t: nat)
    requires tau > 0
    ensures limit >= 1 ==> 1 <= t <= limit
  {
    var exponent := Exponent(interval, tau, timeDiff, heightDiff);
    var shifts := Clamp(exponent / 65536, -256, 256);
    var target := Mantissa(anchor, exponent % 65536);
    if shifts > 0 && Bits(target) + shifts >= 512 then limit
    else
      var shifted := Shift(target, shifts);
      if shifted == 0 then 1
      else if shifted > limit then limit
      else shifted
  }

  // ----- the exact curve, without the shift clamp and the 512-bit guard -----

  function Curve(anchor: nat, exponent: int): nat {
    Shift(Mantissa(anchor, exponent % 65536), exponent / 65536)
  }

  function Within(v: nat, limit: nat): nat {
    if v == 0 then 1 else if v > limit then limit else v
  }

  // Every 128-bit intermediate is in range for any 64-bit height and time
  // difference once the block interval is below 2^46.
  lemma NoI128Overflow(interval: nat, timeDiff: int, heightDiff: nat, frac: nat)
    requires interval < 0x4000_0000_0000 && -TWO_63 <= timeDiff < TWO_63 && heightDiff < TWO_64
    requires frac < 65536
    ensures -0x8000_0000_0000_0000_0000_0000_0000_0000
            <= (timeDiff - interval * (heightDiff + 1)) * 65536
            < 0x8000_0000_0000_0000_0000_0000_0000_0000
    ensures 0 <= Cubic(frac) < 0x1_0000_0000_0000_0000_0000_0000_0000_0000
  {
    MulLe(interval, 0x4000_0000_0000, heightDiff + 1, TWO_64);
    FactorRange(frac);
  }

  lemma CubicMono(f: nat, g: nat)
    requires f <= g
    ensures Cubic(f) <= Cubic(g)
  {
    CubicIs(f);
    CubicIs(g);
    MulLe(f, g, f, g);
    MulLe(f * f, g * g, f, g);
  }

  lemma FactorMono(f: nat, g: nat)
    requires f <= g
    ensures Factor(f) <= Factor(g)
  {
    CubicMono(f, g);
    DivMono(Cubic(f), Cubic(g), 0x1_0000_0000_0000);
  }

  // The cubic starts at 1.0 and stays at or below 2.0.
  lemma FactorRange(f: nat)
    requires f < 65536
    ensures 65536 <= Factor(f) <= 131072
    ensures Cubic(f) <= 0x1_0000_0000_0000_0000
  {
    CubicMono(f, 65535);
    FactorMono(f, 65535);
    CubicIs(65535);
    assert Cubic(65535) == 0xffff5b63385cec40;
  }

  lemma MantissaRange(anchor: nat, f: nat)
    requires f < 65536
    ensures anchor <= Mantissa(anchor, f) <= 2 * anchor
  {
    FactorRange(f);
    TimesIs(anchor, Factor(f));
    MulLe(anchor, anchor, 65536, Factor(f));
    MulLe(anchor, anchor, Factor(f), 131072);
    DivMono(anchor * 65536, anchor * Factor(f), 65536);
    DivMono(anchor * Factor(f), anchor * 131072, 65536);
  }

  lemma MantissaMono(anchor: nat, f: nat, g: nat)
    requires f <= g
    ensures Mantissa(anchor, f) <= Mantissa(anchor, g)
  {
    FactorMono(f, g);
    TimesIs(anchor, Factor(f));
    TimesIs(anchor, Factor(g));
    MulLe(anchor, anchor, Factor(f), Factor(g));
    DivMono(anchor * Factor(f), anchor * Factor(g), 65536);
  }

  lemma MantissaAtZero(anchor: nat)
    ensures Mantissa(anchor, 0) == anchor
  {
    CubicIs(0);
    assert Factor(0) == 65536;
    TimesIs(anchor, 65536);
  }

  lemma ShiftMono(t: nat, t': nat, s: int)
    requires t <= t'
    ensures Shift(t, s) <= Shift(t', s)
  {
    if s < 0 {
      ShrMono(t, t', -s);
    } else {
      ShlMono(t, t', s);
    }
  }

  // Doubling the mantissa is one more shift.
  lemma ShiftDouble(t: nat, s: int)
    ensures Shift(2 * t, s) == Shift(t, s + 1)
  {
    if s < 0 {
      assert 2 * t / 2 == t;
      assert Shr(2 * t, -s) == Shr(t, -s - 1);
    } else {
      ShlAdd(t, 1, s);
      assert Shl(t, 1) == 2 * Shl(t, 0);
    }
  }

  // The shift clamp and the overflow guard never change the result.
  lemma ClampsInvisible(anchor: nat, interval: nat, tau: nat, timeDiff: int, heightDiff: nat, limit: nat)
    requires 1 <= anchor < TWO_256 && 1 <= limit < TWO_256 && tau > 0
    ensures NextTarget(anchor, interval, tau, timeDiff, heightDiff, limit)
            == Within(Curve(anchor, Exponent(interval, tau, timeDiff, heightDiff)), limit)
  {
    hide Mantissa, Exponent;
    var e := Exponent(interval, tau, timeDiff, heightDiff);
    var s := e / 65536;
    var t := Mantissa(anchor, e % 65536);
    MantissaRange(anchor, e % 65536);
    if s < -256 {
      TinyShift(t, -s);
    } else if s > 0 {
      var c := Clamp(s, -256, 256);
      ShlGrows(t, c, s);
      if s > 256 {
        ShlMono(1, t, 256);
        WordShifts(1);
      }
      if Bits(t) + c >= 512 {
        GuardedShift(t, c);
      }
    }
  }

  lemma TinyShift(t: nat, k: nat)
    requires t <= 2 * (TWO_256 - 1) && k > 256
    ensures Shr(t, 256) <= 1 && Shr(t, k) == 0
  {
    WordShifts(2);
    ShiftGalois(2, t, 256);
    ShrAdd(t, 256, k - 256);
    BitsShr(Shr(t, 256), k - 256);
  }

  lemma GuardedShift(t: nat, c: nat)
    requires t > 0 && c <= 256 && Bits(t) + c >= 512
    ensures Shl(t, c) >= TWO_256
  {
    BitsShl(t, c);
    BitsBelow(Shl(t, c), 256);
    WordShifts(1);
  }

  // ----- monotonicity -----

  lemma CurveStep(anchor: nat, e: int)
    ensures Curve(anchor, e) <= Curve(anchor, e + 1)
  {
    hide Mantissa, Shift;
    var s, f := e / 65536, e % 65536;
    if f < 65535 {
      assert (e + 1) / 65536 == s && (e + 1) % 65536 == f + 1;
      MantissaMono(anchor, f, f + 1);
      ShiftMono(Mantissa(anchor, f), Mantissa(anchor, f + 1), s);
    } else {
      assert (e + 1) / 65536 == s + 1 && (e + 1) % 65536 == 0;
      MantissaRange(anchor, f);
      MantissaAtZero(anchor);
      ShiftMono(Mantissa(anchor, f), 2 * anchor, s);
      ShiftDouble(anchor, s);
    }
  }

  lemma {:induction false} CurveMono(anchor: nat, e: int, e': int)
    requires e <= e'
    ensures Curve(anchor, e) <= Curve(anchor, e')
    decreases e' - e
  {
    hide Curve;
    if e < e' {
      CurveMono(anchor, e, e' - 1);
      CurveStep(anchor, e' - 1);
    }
  }

  lemma TruncDivMono(a: int, b: int, d: nat)
    requires a <= b && d > 0
    ensures TruncDiv(a, d) <= TruncDiv(b, d)
  {
    if a >= 0 {
      QuotIs(a, d);
      QuotIs(b, d);
      DivMono(a, b, d);
    } else if b < 0 {
      QuotIs(-a, d);
      QuotIs(-b, d);
      DivMono(-b, -a, d);
    }
  }

  // Later parents never make the target harder, and more blocks never make it
  // easier: across fraction steps, shift boundaries and clamps.
  lemma TargetMonotone(anchor: nat, interval: nat, tau: nat, limit: nat,
                       timeDiff: int, timeDiff': int, heightDiff: nat, heightDiff': nat)
    requires 1 <= anchor < TWO_256 && 1 <= limit < TWO_256 && tau > 0
    requires timeDiff <= timeDiff' && heightDiff >= heightDiff'
    ensures NextTarget(anchor, interval, tau, timeDiff, heightDiff, limit)
            <= NextTarget(anchor, interval, tau, timeDiff', heightDiff', limit)
  {
    hide NextTarget, Curve, TruncDiv;
    TimesIs(interval, heightDiff + 1);
    TimesIs(interval, heightDiff' + 1);
    MulLe(interval, interval, heightDiff' + 1, heightDiff + 1);
    TruncDivMono((timeDiff - interval * (heightDiff + 1)) * 65536,
                 (timeDiff' - interval * (heightDiff' + 1)) * 65536, tau);
    ClampsInvisible(anchor, interval, tau, timeDiff, heightDiff, limit);
    ClampsInvisible(anchor, interval, tau, timeDiff', heightDiff', limit);
    CurveMono(anchor, Exponent(interval, tau, timeDiff, heightDiff), Exponent(interval, tau, timeDiff', heightDiff'));
  }

  // At or behind schedule, tau more seconds double the target exactly.
  lemma TauDoubles(anchor: nat, interval: nat, tau: nat, timeDiff: int, heightDiff: nat, limit: nat)
    requires 1 <= anchor < TWO_256 && 1 <= limit < TWO_256 && tau > 0
    requires timeDiff >= interval * (heightDiff + 1)
    ensures NextTarget(anchor, interval, tau, timeDiff + tau, heightDiff, limit)
            == Within(2 * NextTarget(anchor, interval, tau, timeDiff, heightDiff, limit), limit)
  {
    hide NextTarget, Mantissa, Exponent, Shift;
    var e := Exponent(interval, tau, timeDiff, heightDiff);
    ExponentStep(interval, tau, timeDiff, heightDiff);
    ClampsInvisible(anchor, interval, tau, timeDiff, heightDiff, limit);
    ClampsInvisible(anchor, interval, tau, timeDiff + tau, heightDiff, limit);
    var s := e / 65536;
    assert (e + 65536) / 65536 == s + 1 && (e + 65536) % 65536 == e % 65536;
    var t := Mantissa(anchor, e % 65536);
    MantissaRange(anchor, e % 65536);
    LeftShiftDoubles(t, s);
  }

  lemma LeftShiftDoubles(t: nat, s: nat)
    requires t > 0
    ensures Shift(t, s + 1) == 2 * Shift(t, s) > 0
  {
    ShlGrows(t, s, s);
  }

  lemma ExponentStep(interval: nat, tau: nat, timeDiff: int, heightDiff: nat)
    requires tau > 0 && timeDiff >= interval * (heightDiff + 1)
    ensures Exponent(interval, tau, timeDiff, heightDiff) >= 0
    ensures Exponent(interval, tau, timeDiff + tau, heightDiff) == Exponent(interval, tau, timeDiff, heightDiff) + 65536
  {
    var n := (timeDiff - interval * (heightDiff + 1)) * 65536;
    assert (timeDiff + tau - interval * (heightDiff + 1)) * 65536 == n + 65536 * tau;
    TimesIs(interval, heightDiff + 1);
    QuotIs(n, tau);
    QuotIs(n + 65536 * tau, tau);
    DivShift(n, 65536, tau);
  }

  lemma DivShift(n: nat, k: nat, d: nat)
    requires d > 0
    ensures (n + k * d) / d == n / d + k
  {
    var q := n / d;
    assert q * d <= n < q * d + d;
    assert (q + k) * d == q * d + k * d;
    DivUnique(n + k * d, d, q + k);
  }
}
