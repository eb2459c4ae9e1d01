// How close the cubic of the retarget rule is to the power of two it stands for.
module Cubic {
  import opened Prelude
  import opened Arith
  import opened Emission
  import opened Asert

  const TWO_48: int := 0x1_0000_0000_0000

  // The factor is the cubic rounded to the nearest Q16 number, halves up.
  lemma NearestFactor(f: nat)
    ensures var exact := 195_766_423_245_049 * f + 971_821_376 * (f * f) + 5_127 * (f * f * f);
            2 * exact - TWO_48 < 2 * TWO_48 * (Factor(f) - 65536) <= 2 * exact + TWO_48
  {
    CubicIs(f);
  }

  // 2^48 times the cubic, over the reals.
  ghost function Scaled(x: real): real {
    18446744073709551616.0 + 195766423245049.0 * x + 971821376.0 * (x * x) + 5127.0 * (x * x * x)
  }

  // ----- the 65536th root of two -----

  ghost predicate Root(g: real) {
    g > 0.0 && Pow(g, 65536) == 2.0
  }

  lemma {:induction false} PowMono(x: real, y: real, n: nat)
    requires 0.0 <= x <= y
    ensures 0.0 <= Pow(x, n) <= Pow(y, n)
  {
    if n > 0 {
      PowMono(x, y, n - 1);
      MulReal(x, y, Pow(x, n - 1), Pow(y, n - 1));
    }
  }

  // One squaring, rounded up or down.
  lemma SquareUp(x: real, n: nat, u: real, v: real)
    requires 0.0 <= Pow(x, n) <= u && u * u <= v
    ensures 0.0 <= Pow(x, 2 * n) <= v
  {
    PowSplit(x, n, n);
    MulReal(Pow(x, n), u, Pow(x, n), u);
  }

  lemma SquareDown(x: real, n: nat, u: real, v: real)
    requires 0.0 <= u <= Pow(x, n) && v <= u * u
    ensures v <= Pow(x, 2 * n)
  {
    PowSplit(x, n, n);
    MulReal(u, Pow(x, n), u, Pow(x, n));
  }

  ghost const LOW: real := 1.0000105766
  ghost const HIGH: real := 1.0000105767

  lemma LowPower()
    ensures Pow(LOW, 65536) < 2.0
  {
    hide Pow;
    PowOne(LOW);
    SquareUp(LOW, 1, 1.0000105766, 1.000021153312);
    SquareUp(LOW, 2, 1.000021153312, 1.000042307072);
    SquareUp(LOW, 4, 1.000042307072, 1.000084615934);
    SquareUp(LOW, 8, 1.000084615934, 1.000169239028);
    SquareUp(LOW, 16, 1.000169239028, 1.000338506698);
    SquareUp(LOW, 32, 1.000338506698, 1.000677127983);
    SquareUp(LOW, 64, 1.000677127983, 1.001354714469);
    SquareUp(LOW, 128, 1.001354714469, 1.002711264190);
    SquareUp(LOW, 256, 1.002711264190, 1.005429879334);
    SquareUp(LOW, 512, 1.005429879334, 1.010889242258);
    SquareUp(LOW, 1024, 1.010889242258, 1.021897060113);
    SquareUp(LOW, 2048, 1.021897060113, 1.044273601468);
    SquareUp(LOW, 4096, 1.044273601468, 1.090507354723);
    SquareUp(LOW, 8192, 1.090507354723, 1.189206290705);
    SquareUp(LOW, 16384, 1.189206290705, 1.414211601853);
    SquareUp(LOW, 32768, 1.414211601853, 1.999994454816);
  }

  lemma HighPower()
    ensures Pow(HIGH, 65536) > 2.0
  {
    hide Pow;
    PowOne(HIGH);
    SquareDown(HIGH, 1, 1.0000105767, 1.000021153511);
    SquareDown(HIGH, 2, 1.000021153511, 1.000042307469);
    SquareDown(HIGH, 4, 1.000042307469, 1.000084616727);
    SquareDown(HIGH, 8, 1.000084616727, 1.000169240613);
    SquareDown(HIGH, 16, 1.000169240613, 1.000338509868);
    SquareDown(HIGH, 32, 1.000338509868, 1.000677134324);
    SquareDown(HIGH, 64, 1.000677134324, 1.001354727158);
    SquareDown(HIGH, 128, 1.001354727158, 1.002711289601);
    SquareDown(HIGH, 256, 1.002711289601, 1.005429930293);
    SquareDown(HIGH, 512, 1.005429930293, 1.010889344728);
    SquareDown(HIGH, 1024, 1.010889344728, 1.021897267284);
    SquareDown(HIGH, 2048, 1.021897267284, 1.044274024882);
    SquareDown(HIGH, 4096, 1.044274024882, 1.090508239043);
    SquareDown(HIGH, 8192, 1.090508239043, 1.189208219420);
    SquareDown(HIGH, 16384, 1.189208219420, 1.414216189136);
    SquareDown(HIGH, 32768, 1.414216189136, 2.000007429614);
  }

  lemma PowOne(x: real)
    ensures Pow(x, 1) == x
  {
    assert Pow(x, 1) == x * Pow(x, 0);
  }

  lemma RootBounds(g: real)
    requires Root(g)
    ensures LOW < g < HIGH
  {
    hide Pow;
    LowPower();
    HighPower();
    if g <= LOW {
      PowMono(g, LOW, 65536);
    }
    if g >= HIGH {
      PowMono(HIGH, g, 65536);
    }
  }

  // ----- one step of the cubic against one step of the power -----

  ghost const STEP: real := 1_041_000_000_000.0

  // A cubic with three roots in the interval, and so small on it.
  ghost function Rooted(x: real): real {
    Triple(x - 7095.0, x - 30486.0, x - 56515.0)
  }

  ghost function Triple(a: real, b: real, c: real): real {
    a * b * c
  }

  lemma NearRoots(x: real)
    requires 0.0 <= x <= 65536.0
    ensures -18_700_000_000_000.0 <= Rooted(x) <= 18_700_000_000_000.0
  {
    hide Triple;
    if x <= 16384.0 {
      Product3(x - 7095.0, x - 30486.0, x - 56515.0, 9289.0, 30486.0, 56515.0);
    } else if x <= 32768.0 {
      Product3(x - 7095.0, x - 30486.0, x - 56515.0, 25673.0, 14102.0, 40131.0);
    } else if x <= 49152.0 {
      Product3(x - 7095.0, x - 30486.0, x - 56515.0, 42057.0, 18666.0, 23747.0);
    } else {
      Product3(x - 7095.0, x - 30486.0, x - 56515.0, 58441.0, 35050.0, 9021.0);
    }
  }

  lemma Product3(a: real, b: real, c: real, x: real, y: real, z: real)
    requires -x <= a <= x && -y <= b <= y && -z <= c <= z
    ensures -(x * y * z) <= Triple(a, b, c) <= x * y * z
  {
    Product2(a, b, x, y);
    Product2(a * b, c, x * y, z);
  }

  lemma Product2(a: real, b: real, x: real, y: real)
    requires -x <= a <= x && -y <= b <= y
    ensures -(x * y) <= a * b <= x * y
  {
    assert 0.0 <= (x - a) * (y + b) && 0.0 <= (x + a) * (y - b);
    assert 0.0 <= (x - a) * (y - b) && 0.0 <= (x + a) * (y + b);
  }

  lemma RootedIs(x: real)
    ensures Rooted(x) == x * x * x - 94096.0 * (x * x) + 2340188385.0 * x - 12224091077550.0
  {
  }

  lemma NextScaled(x: real)
    ensures Scaled(x + 1.0)
            == 18446744073709551616.0 + 195766423245049.0 * (x + 1.0) + 971821376.0 * (x * x + 2.0 * x + 1.0)
               + 5127.0 * (x * x * x + 3.0 * (x * x) + 3.0 * x + 1.0)
  {
  }

  // Bounds of the powers of x, and so of the cubic.
  lemma ScaledRange(x: real)
    requires 0.0 <= x <= 65536.0
    ensures 0.0 <= x * x <= 4294967296.0 && 0.0 <= x * x * x <= 281474976710656.0
    ensures 18446744073709551616.0 <= Scaled(x) <= 37000000000000000000.0
  {
    MulReal(x, 65536.0, x, 65536.0);
    MulReal(x * x, 4294967296.0, x, 65536.0);
  }

  // The residual at the middle of the root's range is the small cubic, up to rounding.
  lemma MiddleStep(x: real)
    requires 0.0 <= x <= 65536.0
    ensures -1_018_000_000_000.0 <= Scaled(x + 1.0) - 1.00001057665 * Scaled(x) <= 1_018_000_000_000.0
  {
    NextScaled(x);
    RootedIs(x);
    NearRoots(x);
    ScaledRange(x);
    MiddleLinear(x, x * x, x * x * x);
  }

  lemma MiddleLinear(x: real, y: real, z: real)
    requires 0.0 <= x <= 65536.0 && 0.0 <= y <= 4294967296.0
    requires var r := z - 94096.0 * y + 2340188385.0 * x - 12224091077550.0; -18_700_000_000_000.0 <= r <= 18_700_000_000_000.0
    ensures var next := 18446744073709551616.0 + 195766423245049.0 * (x + 1.0) + 971821376.0 * (y + 2.0 * x + 1.0)
                        + 5127.0 * (z + 3.0 * y + 3.0 * x + 1.0);
            var here := 18446744073709551616.0 + 195766423245049.0 * x + 971821376.0 * y + 5127.0 * z;
            -1_018_000_000_000.0 <= next - 1.00001057665 * here <= 1_018_000_000_000.0
  {
  }

  lemma StepClose(g: real, x: real)
    requires LOW < g < HIGH && 0.0 <= x <= 65536.0
    ensures -STEP <= Scaled(x + 1.0) - g * Scaled(x) <= STEP
  {
    hide Scaled;
    MiddleStep(x);
    ScaledRange(x);
    Shifted(g - 1.00001057665, Scaled(x));
    assert g * Scaled(x) == 1.00001057665 * Scaled(x) + (g - 1.00001057665) * Scaled(x);
  }

  lemma Shifted(d: real, m: real)
    requires -0.00000000005 <= d <= 0.00000000005 && 0.0 <= m <= 37000000000000000000.0
    ensures -2_000_000_000.0 <= d * m <= 2_000_000_000.0
  {
    Product2(d, m, 0.00000000005, 37000000000000000000.0);
  }

  // ----- the cubic against the power -----

  ghost function Allowed(f: real, w: real): real {
    STEP * f * w
  }

  lemma {:induction false} ScaledClose(g: real, f: nat)
    requires Root(g) && f <= 65536
    ensures var error := Scaled(f as real) - 18446744073709551616.0 * Pow(g, f);
            -Allowed(f as real, Pow(g, f)) <= error <= Allowed(f as real, Pow(g, f))
  {
    hide Scaled, Root;
    PowAboveOne(g, f);
    if f == 0 {
      ScaledZero();
    } else {
      ScaledClose(g, f - 1);
      PowAboveOne(g, f - 1);
      RootBounds(g);
      StepClose(g, (f - 1) as real);
      ErrorGrows(g, Pow(g, f - 1), Scaled((f - 1) as real), Scaled(f as real), STEP * (f - 1) as real);
    }
  }

  lemma ScaledZero()
    ensures Scaled(0.0) == 18446744073709551616.0
  {
  }

  lemma {:induction false} PowAboveOne(g: real, n: nat)
    requires Root(g)
    ensures Pow(g, n) >= 1.0
  {
    RootBounds(g);
    if n > 0 {
      PowAboveOne(g, n - 1);
      MulReal(1.0, g, 1.0, Pow(g, n - 1));
    }
  }

  // An error of c times the power becomes at most c + STEP times the next power.
  lemma ErrorGrows(g: real, w: real, here: real, next: real, c: real)
    requires g > 1.0 && w >= 1.0 && c >= 0.0
    requires -c * w <= here - 18446744073709551616.0 * w <= c * w
    requires -STEP <= next - g * here <= STEP
    ensures var error := next - 18446744073709551616.0 * (g * w);
            -(c + STEP) * (g * w) <= error <= (c + STEP) * (g * w)
  {
    MulReal(1.0, g, 1.0, w);
    var e := here - 18446744073709551616.0 * w;
    Product2(g, e, g, c * w);
    assert next - 18446744073709551616.0 * (g * w) == (next - g * here) + g * e;
    assert (c + STEP) * (g * w) == g * (c * w) + STEP * (g * w);
    MulReal(STEP, STEP, 1.0, g * w);
  }

  // The factor is within one part in 250 of 65536 * 2^(f / 65536), for every fraction f.
  lemma FactorClose(g: real, f: nat)
    requires Root(g) && f < 65536
    ensures 0.996 * (65536.0 * Pow(g, f)) <= Factor(f) as real <= 1.004 * (65536.0 * Pow(g, f))
  {
    hide Scaled, Factor, Root, Pow, Allowed;
    ScaledClose(g, f);
    PowAboveOne(g, f);
    FactorScaled(f);
    Within65536(f as real, Pow(g, f));
    Relative(Factor(f) as real, Scaled(f as real), Pow(g, f));
  }

  // 2^48 times the factor is the scaled cubic up to half a unit.
  lemma FactorScaled(f: nat)
    ensures -140737488355328.0 <= 281474976710656.0 * Factor(f) as real - Scaled(f as real) <= 140737488355328.0
  {
    hide Factor;
    NearestFactor(f);
    RealPowers(f);
  }

  lemma RealPowers(f: nat)
    ensures (f * f) as real == f as real * f as real && (f * f * f) as real == f as real * f as real * f as real
  {
  }

  lemma Within65536(f: real, w: real)
    requires 0.0 <= f <= 65536.0 && w >= 1.0
    ensures Allowed(f, w) <= 68_222_976_000_000_000.0 * w
  {
    MulReal(STEP * f, STEP * 65536.0, w, w);
  }

  lemma Relative(factor: real, scaled: real, w: real)
    requires w >= 1.0
    requires -68_222_976_000_000_000.0 * w <= scaled - 18446744073709551616.0 * w <= 68_222_976_000_000_000.0 * w
    requires -140737488355328.0 <= 281474976710656.0 * factor - scaled <= 140737488355328.0
    ensures 0.996 * (65536.0 * w) <= factor <= 1.004 * (65536.0 * w)
  {
  }
}
