// The emission schedule: R(h) = floor(R0 * b^h) with b = (M-1)/M, where b^h is
// computed by square-and-multiply in Q96 fixed point, flooring at every step.
module Emission {
  import opened Prelude
  import opened Arith

  const COIN: int := 100_000_000
  const SUPPLY_CAP: int := 42_000_000 * COIN
  const DECAY_M: int := 3_033_415
  const R0: int := SUPPLY_CAP / DECAY_M
  const ONE_Q96: int := 0x1_0000_0000_0000_0000_0000_0000

  function BaseQ96(): nat {
    (DECAY_M - 1) * ONE_Q96 / DECAY_M
  }

  // A floored Q96 product.
  function MulQ96(a: nat, b: nat): nat {
    MulLe(0, a, 0, b);
    a * b / ONE_Q96
  }

  // The loop of pow_q96, as a function of its three variables.
  function PowFrom(acc: nat, base: nat, e: nat): nat
    decreases e
  {
    if e == 0 then acc
    else PowFrom(if e % 2 == 1 then MulQ96(acc, base) else acc, MulQ96(base, base), e / 2)
  }

  function PowQ96(base: nat, e: nat): nat {
    PowFrom(ONE_Q96, base, e)
  }

  function BlockReward(height: nat): nat {
    MulQ96(R0, PowQ96(BaseQ96(), height))
  }

  function RewardSum(n: nat): nat {
    if n == 0 then 0 else RewardSum(n - 1) + BlockReward(n - 1)
  }

  // The 256-bit loop: every product fits, so the code's checked multiplication
  // never panics.
  method PowQ96Loop(base0: nat, e0: U64) returns (acc: nat)
    requires base0 <= ONE_Q96
    ensures acc == PowQ96(base0, e0)
    ensures acc <= ONE_Q96
  {
    acc := ONE_Q96;
    var base: nat := base0;
    var e: nat := e0;
    while e > 0
      invariant acc <= ONE_Q96 && base <= ONE_Q96
      invariant PowFrom(acc, base, e) == PowQ96(base0, e0)
    {
      UnitProduct(acc, base);
      UnitProduct(base, base);
      assert acc * base < TWO_256 && base * base < TWO_256;
      if e % 2 == 1 {
        acc := acc * base / ONE_Q96;
      }
      base := base * base / ONE_Q96;
      e := e / 2;
    }
  }

  // Numbers up to 1.0 multiply without leaving 256 bits or passing 1.0.
  lemma UnitProduct(a: nat, b: nat)
    requires a <= ONE_Q96 && b <= ONE_Q96
    ensures 0 <= a * b < TWO_256 && MulQ96(a, b) <= ONE_Q96
  {
    MulLe(a, ONE_Q96, b, ONE_Q96);
    DivMono(a * b, ONE_Q96 * ONE_Q96, ONE_Q96);
  }

  // ----- the exact power, over the reals -----

  ghost function Pow(b: real, n: nat): real {
    if n == 0 then 1.0 else b * Pow(b, n - 1)
  }

  ghost const B: real := (DECAY_M - 1) as real / DECAY_M as real
  ghost const Q: real := ONE_Q96 as real

  lemma {:induction false} PowUnit(b: real, n: nat)
    requires 0.0 <= b <= 1.0
    ensures 0.0 <= Pow(b, n) <= 1.0
  {
    if n > 0 {
      PowUnit(b, n - 1);
      MulReal(b, 1.0, Pow(b, n - 1), 1.0);
    }
  }

  lemma {:induction false} PowSplit(b: real, m: nat, n: nat)
    ensures Pow(b, m + n) == Pow(b, m) * Pow(b, n)
  {
    if m > 0 {
      PowSplit(b, m - 1, n);
      assert Pow(b, m + n) == b * Pow(b, m - 1 + n);
      Assoc(b, Pow(b, m - 1), Pow(b, n));
    }
  }

  lemma {:induction false} PowSquare(b: real, n: nat)
    ensures Pow(b * b, n) == Pow(b, 2 * n)
  {
    if n > 0 {
      PowSquare(b, n - 1);
      assert Pow(b, 2 * n) == b * Pow(b, 2 * n - 1) == b * (b * Pow(b, 2 * (n - 1)));
      Assoc(b, b, Pow(b, 2 * (n - 1)));
    }
  }

  lemma Assoc(a: real, b: real, c: real)
    ensures a * (b * c) == (a * b) * c
  {
  }

  lemma MulReal(a: real, b: real, c: real, d: real)
    requires 0.0 <= a <= b && 0.0 <= c <= d
    ensures 0.0 <= a * c <= b * d
  {
    assert a * c <= b * c;
    assert b * c <= b * d;
  }

  // `n` approximates Q*x from below with error at most err.
  ghost predicate Near(n: nat, x: real, err: real) {
    0.0 <= x <= 1.0 && 0.0 <= err && Q * x - err <= n as real <= Q * x
  }

  // One floored Q96 multiplication adds the two errors and one more.
  lemma MulNear(a: nat, x: real, ea: real, b: nat, y: real, eb: real)
    requires Near(a, x, ea) && Near(b, y, eb)
    ensures Near(MulQ96(a, b), x * y, ea + eb + 1.0)
  {
    ProductBounds(a, x, ea, b, y, eb);
    FloorProduct(a, b);
    DivideByQ(MulQ96(a, b) as real, a as real * b as real, x * y, ea + eb);
  }

  lemma ProductBounds(a: nat, x: real, ea: real, b: nat, y: real, eb: real)
    requires Near(a, x, ea) && Near(b, y, eb)
    ensures 0.0 <= x * y <= 1.0
    ensures Q * (Q * (x * y)) - Q * (ea + eb) <= a as real * b as real <= Q * (Q * (x * y))
  {
    MulReal(x, 1.0, y, 1.0);
    UpperProduct(a as real, b as real, x, y);
    LowerProduct(a as real, b as real, x, y, ea, eb);
  }

  lemma FloorProduct(a: nat, b: nat)
    ensures MulQ96(a, b) as real * Q <= a as real * b as real < MulQ96(a, b) as real * Q + Q
  {
    FloorDiv(a * b, ONE_Q96);
    assert (a * b) as real == a as real * b as real;
  }

  lemma FloorDiv(n: nat, d: nat)
    requires d > 0
    ensures (n / d) as real * d as real <= n as real < (n / d) as real * d as real + d as real
  {
    var q := n / d;
    assert q * d <= n < q * d + d;
    assert (q * d) as real == q as real * d as real;
  }

  lemma UpperProduct(ar: real, br: real, x: real, y: real)
    requires 0.0 <= ar <= Q * x && 0.0 <= br <= Q * y
    ensures ar * br <= Q * (Q * (x * y))
  {
    MulReal(ar, Q * x, br, Q * y);
    Shuffle(x, y);
  }

  lemma Shuffle(x: real, y: real)
    ensures (Q * x) * (Q * y) == Q * (Q * (x * y))
  {
    Assoc(Q, x, Q * y);
    assert x * (Q * y) == Q * (x * y) by {
      Assoc(x, Q, y);
      Assoc(Q, x, y);
    }
  }

  lemma LowerProduct(ar: real, br: real, x: real, y: real, ea: real, eb: real)
    requires 0.0 <= ea && 0.0 <= eb && 0.0 <= x <= 1.0 && 0.0 <= y <= 1.0
    requires 0.0 <= ar && Q * x - ea <= ar <= Q * x
    requires 0.0 <= br && Q * y - eb <= br <= Q * y
    ensures ar * br >= Q * (Q * (x * y)) - Q * (ea + eb)
  {
    var da, db := Q * x - ar, Q * y - br;
    // (Qx)(Qy) - ar*br = da*(Qy) + ar*db
    assert (Q * x) * (Q * y) - ar * br == da * (Q * y) + ar * db by {
      assert (ar + da) * (br + db) == ar * br + da * (br + db) + ar * db;
    }
    MulReal(da, ea, Q * y, Q);
    MulReal(ar, Q, db, eb);
    Shuffle(x, y);
    assert ea * Q + Q * eb == Q * (ea + eb);
  }

  lemma DivideByQ(p: real, prod: real, xy: real, e: real)
    requires p * Q <= prod < p * Q + Q
    requires Q * (Q * xy) - Q * e <= prod <= Q * (Q * xy)
    ensures Q * xy - (e + 1.0) <= p <= Q * xy
  {
    var z := Q * xy;
    Cancel(p, z, Q);
    Cancel(z - e, p + 1.0, Q);
  }

  lemma Cancel(a: real, b: real, q: real)
    requires q > 0.0 && a * q <= b * q
    ensures a <= b
  {
    assert (a - b) * q <= 0.0;
  }

  // Square-and-multiply from an approximate accumulator and base.
  lemma {:induction false} PowFromBounds(acc: nat, x: real, ex: real, base: nat, y: real, ey: real, e: nat,
                                         v: real, err: real)
    requires Near(acc, x, ex) && Near(base, y, ey)
    requires v == x * Pow(y, e) && err == ex + e as real * (ey + 1.0)
    ensures Q * v - err <= PowFrom(acc, base, e) as real <= Q * v
    decreases e
  {
    hide MulQ96;
    if e > 0 {
      var y', ey', e', base' := y * y, ey + ey + 1.0, e / 2, MulQ96(base, base);
      MulNear(base, y, ey, base, y, ey);
      if e % 2 == 1 {
        var x', ex', acc' := x * y, ex + ey + 1.0, MulQ96(acc, base);
        MulNear(acc, x, ex, base, y, ey);
        OddPower(x, y, e, x', y', e');
        OddError(ex, ey, e, ex', ey', e');
        PowFromBounds(acc', x', ex', base', y', ey', e', v, err);
      } else {
        EvenPower(x, y, e, y', e');
        EvenError(ex, ey, e, ey', e');
        PowFromBounds(acc, x, ex, base', y', ey', e', v, err);
      }
    }
  }

  lemma OddPower(x: real, y: real, e: nat, x': real, y': real, e': nat)
    requires e == 2 * e' + 1 && x' == x * y && y' == y * y
    ensures x * Pow(y, e) == x' * Pow(y', e')
  {
    PowSquare(y, e');
    Assoc(x, y, Pow(y, 2 * e'));
  }

  lemma OddError(ex: real, ey: real, e: nat, ex': real, ey': real, e': nat)
    requires e == 2 * e' + 1 && ex' == ex + ey + 1.0 && ey' == ey + ey + 1.0
    ensures ex + e as real * (ey + 1.0) == ex' + e' as real * (ey' + 1.0)
  {
    var h, s := e' as real, ey + 1.0;
    assert (h + h + 1.0) * s == h * (s + s) + s;
  }

  lemma EvenPower(x: real, y: real, e: nat, y': real, e': nat)
    requires e == 2 * e' && y' == y * y
    ensures x * Pow(y, e) == x * Pow(y', e')
  {
    PowSquare(y, e');
  }

  lemma EvenError(ex: real, ey: real, e: nat, ey': real, e': nat)
    requires e == 2 * e' && ey' == ey + ey + 1.0
    ensures ex + e as real * (ey + 1.0) == ex + e' as real * (ey' + 1.0)
  {
    var h, s := e' as real, ey + 1.0;
    assert (h + h) * s == h * (s + s);
  }

  lemma BaseNear()
    ensures Near(BaseQ96(), B, 1.0)
  {
    FloorDiv((DECAY_M - 1) * ONE_Q96, DECAY_M);
    var m, p := DECAY_M as real, BaseQ96() as real;
    assert B * m == (DECAY_M - 1) as real;
    assert ((DECAY_M - 1) * ONE_Q96) as real == (B * m) * Q;
    assert p * m <= (Q * B) * m < (p + 1.0) * m;
  }

  // 2^96 b^h - 2h <= pow_q96(base_q96(), h) <= 2^96 b^h, for every height.
  lemma PowQ96Bounds(h: nat)
    ensures Q * Pow(B, h) - 2.0 * h as real <= PowQ96(BaseQ96(), h) as real <= Q * Pow(B, h)
  {
    BaseNear();
    assert Near(ONE_Q96, 1.0, 0.0);
    PowFromBounds(ONE_Q96, 1.0, 0.0, BaseQ96(), B, 1.0, h, Pow(B, h), 2.0 * h as real);
  }

  // The reward never exceeds the exact curve.
  lemma RewardBelowCurve(h: nat)
    ensures BlockReward(h) as real <= R0 as real * Pow(B, h)
  {
    PowQ96Bounds(h);
    FlooredBelow(R0, PowQ96(BaseQ96(), h), Pow(B, h));
  }

  lemma FlooredBelow(c: nat, f: nat, p: real)
    requires f as real <= Q * p
    ensures MulQ96(c, f) as real <= c as real * p
  {
    FloorProduct(c, f);
    BelowScaled(MulQ96(c, f) as real, c as real, f as real, p);
  }

  // Nor does it fall short of the curve by a whole unit, beyond the flooring error of
  // the power.
  lemma RewardAboveCurve(h: nat)
    ensures BlockReward(h) as real > R0 as real * Pow(B, h) - R0 as real * (2.0 * h as real) / Q - 1.0
  {
    hide Pow, PowQ96;
    PowQ96Bounds(h);
    FloorProduct(R0, PowQ96(BaseQ96(), h));
    FlooredAbove(BlockReward(h) as real, PowQ96(BaseQ96(), h) as real, Pow(B, h), 2.0 * h as real);
  }

  lemma FlooredAbove(r: real, f: real, w: real, err: real)
    requires Q * r > R0 as real * f - Q && f >= Q * w - err
    ensures r > R0 as real * w - R0 as real * err / Q - 1.0
  {
    assert R0 as real * f >= R0 as real * (Q * w - err);
    assert R0 as real * (Q * w - err) == Q * (R0 as real * w - R0 as real * err / Q);
  }

  lemma RewardAtMostR0(h: nat)
    ensures 0 <= BlockReward(h) <= R0
  {
    RewardBelowCurve(h);
    PowUnit(B, h);
    ScaleDown(R0 as real, Pow(B, h));
  }

  lemma BelowScaled(r: real, c: real, f: real, p: real)
    requires 0.0 <= c && r * Q <= c * f && 0.0 <= f <= Q * p
    ensures r <= c * p
  {
    MulReal(f, Q * p, c, c);
    Assoc(c, Q, p);
    assert c * (Q * p) == (c * p) * Q by { Assoc(c, p, Q); }
    Cancel(r, c * p, Q);
  }

  // ----- the tail: b^M <= 1/2 -----

  lemma {:induction false} Bernoulli(x: real, n: nat)
    requires 0.0 <= x
    ensures Pow(1.0 + x, n) >= 1.0 + n as real * x
  {
    if n > 0 {
      Bernoulli(x, n - 1);
      var p := Pow(1.0 + x, n - 1);
      assert (1.0 + x) * p == p + x * p;
      var m := (n - 1) as real;
      MulReal(0.0, m, x, x);
      MulReal(1.0, p, x, x);
      assert (m + 1.0) * x == m * x + x;
    }
  }

  lemma {:induction false} PowInverse(a: real, b: real, n: nat)
    requires a * b == 1.0
    ensures Pow(a, n) * Pow(b, n) == 1.0
  {
    if n > 0 {
      PowInverse(a, b, n - 1);
      var p, q := Pow(a, n - 1), Pow(b, n - 1);
      assert (a * p) * (b * q) == (a * b) * (p * q) by {
        Assoc(a * p, b, q);
        Assoc(a, p, b);
        assert a * (p * b) == a * (b * p);
        Assoc(a, b, p);
        Assoc(a * b, p, q);
      }
    }
  }

  lemma HalfLifeBound()
    ensures Pow(B, DECAY_M) <= 0.5
  {
    var x := 1.0 / (DECAY_M - 1) as real;
    Bernoulli(x, DECAY_M);
    assert DECAY_M as real * x >= 1.0;
    assert B * (1.0 + x) == 1.0;
    PowInverse(B, 1.0 + x, DECAY_M);
    PowUnit(B, DECAY_M);
    var p, g := Pow(B, DECAY_M), Pow(1.0 + x, DECAY_M);
    MulReal(p, p, 2.0, g);
  }

  lemma {:induction false} Halvings(k: nat)
    ensures Pow(B, k * DECAY_M) <= Pow(0.5, k)
    ensures Pow(B, k * DECAY_M) >= 0.0
  {
    PowUnit(B, k * DECAY_M);
    if k > 0 {
      Halvings(k - 1);
      HalfLifeBound();
      PowUnit(B, DECAY_M);
      assert k * DECAY_M == DECAY_M + (k - 1) * DECAY_M;
      PowSplit(B, DECAY_M, (k - 1) * DECAY_M);
      MulReal(Pow(B, DECAY_M), 0.5, Pow(B, (k - 1) * DECAY_M), Pow(0.5, k - 1));
    }
  }

  lemma Half31()
    ensures Pow(0.5, 31) * 2147483648.0 == 1.0
  {
    PowSquare(0.5, 15);
    PowSplit(0.5, 1, 30);
    assert Pow(0.25, 1) == 0.25 * Pow(0.25, 0);
    assert Pow(0.25, 2) == 0.0625;
    assert Pow(0.25, 3) == 0.015625;
    PowSplit(0.25, 3, 3);
    PowSplit(0.25, 6, 6);
    PowSplit(0.25, 12, 3);
    assert Pow(0.5, 1) == 0.5 * Pow(0.5, 0);
  }

  lemma {:induction false} PowAntitone(b: real, m: nat, n: nat)
    requires m <= n && 0.0 <= b <= 1.0
    ensures 0.0 <= Pow(b, n) <= Pow(b, m)
  {
    PowUnit(b, n);
    if m < n {
      PowAntitone(b, m, n - 1);
      PowUnit(b, n - 1);
      MulReal(b, 1.0, Pow(b, n - 1), Pow(b, n - 1));
    }
  }

  lemma ScaleDown(p: real, q: real)
    requires 0.0 <= p && 0.0 <= q <= 1.0
    ensures 0.0 <= p * q <= p
  {
    MulReal(p, p, q, 1.0);
  }

  // The subsidy ends for good at height 31*M.
  lemma RewardEnds(h: nat)
    requires h >= 31 * DECAY_M
    ensures BlockReward(h) == 0
  {
    RewardBelowCurve(h);
    PowAntitone(B, 31 * DECAY_M, h);
    Halvings(31);
    Half31();
    MulReal(Pow(B, h), Pow(0.5, 31), R0 as real, R0 as real);
    assert R0 as real * Pow(0.5, 31) < 1.0;
  }

  // The flooring error never makes the subsidy rise, at any height.
  lemma RewardNonincreasing(h: nat)
    ensures BlockReward(h + 1) <= BlockReward(h)
  {
    if h >= 31 * DECAY_M {
      RewardEnds(h + 1);
    } else if Q * Pow(B, h) >= 2.0 * h as real * DECAY_M as real {
      StepDown(h);
    } else {
      TinyTail(h);
    }
  }

  lemma StepDown(h: nat)
    requires Q * Pow(B, h) >= 2.0 * h as real * DECAY_M as real
    ensures BlockReward(h + 1) <= BlockReward(h)
  {
    hide PowQ96;
    PowQ96Bounds(h);
    PowQ96Bounds(h + 1);
    DropExceedsError(h as real, Pow(B, h));
    MulMono(R0, PowQ96(BaseQ96(), h + 1), PowQ96(BaseQ96(), h));
  }

  lemma MulMono(c: nat, f: nat, f': nat)
    requires f <= f'
    ensures MulQ96(c, f) <= MulQ96(c, f')
  {
    MulLe(c, c, f, f');
    DivMono(c * f, c * f', ONE_Q96);
  }

  lemma DropExceedsError(h: real, p: real)
    requires Q * p >= 2.0 * h * DECAY_M as real
    ensures Q * (B * p) <= Q * p - 2.0 * h
  {
    var m := DECAY_M as real;
    assert m * (p - B * p) == p by {
      assert m * B == m - 1.0;
      Assoc(m, B, p);
    }
    var d := p - B * p;
    assert Q * p == (Q * d) * m by { Assoc(Q, d, m); }
    Cancel(2.0 * h, Q * d, m);
  }

  lemma TinyTail(h: nat)
    requires h < 31 * DECAY_M
    requires Q * Pow(B, h) < 2.0 * h as real * DECAY_M as real
    ensures BlockReward(h + 1) == 0
  {
    RewardBelowCurve(h + 1);
    PowAntitone(B, h, h + 1);
    Vanishes(h, Pow(B, h), Pow(B, h + 1), BlockReward(h + 1));
  }

  lemma Vanishes(h: nat, p: real, p': real, r: nat)
    requires h < 31 * DECAY_M && p' <= p && Q * p < 2.0 * h as real * DECAY_M as real
    requires r as real <= R0 as real * p'
    ensures r == 0
  {
    assert R0 == 1_384_578_107;
    assert Q == 79228162514264337593543950336.0;
    assert p' < 0.00000000000001;
  }

  // ----- the cap -----

  ghost const ISSUE: real := (R0 * DECAY_M) as real

  // Every partial sum stays under R0*M*(1 - b^n), hence under the cap.
  lemma {:induction false} RewardSumBelowCurve(n: nat)
    ensures RewardSum(n) as real <= ISSUE * (1.0 - Pow(B, n))
  {
    hide BlockReward;
    if n > 0 {
      RewardSumBelowCurve(n - 1);
      RewardBelowCurve(n - 1);
      CurveStep(Pow(B, n - 1), Pow(B, n), RewardSum(n - 1), BlockReward(n - 1));
    }
  }

  lemma CurveStep(p: real, p': real, s: nat, r: nat)
    requires s as real <= ISSUE * (1.0 - p) && r as real <= R0 as real * p && p' == B * p
    ensures (s + r) as real <= ISSUE * (1.0 - p')
  {
    assert ISSUE * (1.0 - B) == R0 as real;
    assert ISSUE * (1.0 - B * p) == ISSUE * (1.0 - p) + (ISSUE * (1.0 - B)) * p;
  }

  // And no partial sum falls further below that curve than the floors allow.
  lemma {:induction false} RewardSumAboveCurve(n: nat)
    ensures RewardSum(n) as real
            >= ISSUE * (1.0 - Pow(B, n)) - R0 as real * (n as real * (n as real - 1.0)) / Q - n as real
  {
    hide BlockReward;
    if n > 0 {
      RewardSumAboveCurve(n - 1);
      RewardAboveCurve(n - 1);
      CurveFloor(Pow(B, n - 1), Pow(B, n), RewardSum(n - 1), BlockReward(n - 1), (n - 1) as real);
      assert (n - 1) as real == n as real - 1.0;
    }
  }

  lemma CurveFloor(p: real, p': real, s: nat, r: nat, m: real)
    requires s as real >= ISSUE * (1.0 - p) - R0 as real * (m * (m - 1.0)) / Q - m
    requires r as real >= R0 as real * p - R0 as real * (2.0 * m) / Q - 1.0 && p' == B * p
    ensures (s + r) as real >= ISSUE * (1.0 - p') - R0 as real * ((m + 1.0) * m) / Q - (m + 1.0)
  {
    assert ISSUE * (1.0 - B) == R0 as real;
    assert ISSUE * (1.0 - B * p) == ISSUE * (1.0 - p) + (ISSUE * (1.0 - B)) * p;
    assert (m + 1.0) * m == m * (m - 1.0) + 2.0 * m;
    assert R0 as real * ((m + 1.0) * m) == R0 as real * (m * (m - 1.0)) + R0 as real * (2.0 * m);
  }

  // Total issuance never passes R0*M, which is within the cap.
  lemma RewardSumCapped(n: nat)
    ensures RewardSum(n) <= R0 * DECAY_M <= SUPPLY_CAP < TWO_64
  {
    hide RewardSum;
    RewardSumBelowCurve(n);
    PowUnit(B, n);
    BelowIssue(RewardSum(n), Pow(B, n));
  }

  lemma BelowIssue(s: nat, p: real)
    requires s as real <= ISSUE * (1.0 - p) && 0.0 <= p <= 1.0
    ensures s <= R0 * DECAY_M
  {
    ScaleDown(ISSUE, 1.0 - p);
  }

  lemma RewardSumFits(n: nat)
    ensures RewardSum(n) < TWO_64
  {
    hide RewardSum;
    RewardSumCapped(n);
  }
}
