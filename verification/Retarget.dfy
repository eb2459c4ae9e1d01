// The retarget rule as a rule about a parent block: its time and its height.
module Retarget {
  import opened Prelude
  import opened Arith
  import opened Asert
  import opened Ledger
  import opened Tree
  import opened TreeProofs
  import Compact

  // A difference of times that fits is read as it is; others wrap into range.
  lemma SignedTime(x: int)
    ensures -TWO_63 <= ToI64(x) < TWO_63
    ensures -TWO_63 <= x < TWO_63 ==> ToI64(x) == x
    ensures (x - ToI64(x)) % TWO_64 == 0
  {
  }

  // The exponent is the schedule error over tau in Q16, truncated toward zero.
  lemma ExponentMeaning(interval: nat, tau: nat, timeDiff: int, heightDiff: nat)
    requires tau > 0
    ensures var e, n := Exponent(interval, tau, timeDiff, heightDiff), (timeDiff - interval * (heightDiff + 1)) * 65536;
            if n >= 0 then e * tau <= n < (e + 1) * tau else (e - 1) * tau < n <= e * tau
  {
    TimesIs(interval, heightDiff + 1);
    var n := (timeDiff - interval * (heightDiff + 1)) * 65536;
    if n >= 0 {
      QuotIs(n, tau);
      Brackets(n, tau);
    } else {
      QuotIs(-n, tau);
      Brackets(-n, tau);
      Negated(-n / tau, tau);
    }
  }

  lemma Brackets(n: nat, d: nat)
    requires d > 0
    ensures (n / d) * d <= n < (n / d + 1) * d
  {
    var q := n / d;
    assert n == q * d + n % d;
    assert (q + 1) * d == q * d + d;
  }

  lemma Negated(q: int, d: int)
    ensures (-q) * d == -(q * d) && (-q - 1) * d == -((q + 1) * d)
  {
  }

  // Whole taus off schedule are whole powers of two.
  lemma WholeTaus(interval: nat, tau: nat, timeDiff: int, heightDiff: nat, k: int)
    requires tau > 0 && timeDiff - interval * (heightDiff + 1) == k * tau
    ensures Exponent(interval, tau, timeDiff, heightDiff) == k * 65536
  {
    TimesIs(interval, heightDiff + 1);
    var n := (timeDiff - interval * (heightDiff + 1)) * 65536;
    if k >= 0 {
      Exactly(k, tau);
      QuotIs(n, tau);
    } else {
      Exactly(-k, tau);
      Negated(-k, tau);
      QuotIs(-n, tau);
    }
  }

  lemma Exactly(k: nat, tau: nat)
    requires tau > 0
    ensures k * tau * 65536 >= 0 && (k * tau * 65536) / tau == k * 65536
  {
    assert k * tau * 65536 == (k * 65536) * tau;
    DivUnique(k * tau * 65536, tau, k * 65536);
  }

  // The target k taus ahead of schedule: the limit halved k times, but at least 1.
  function Halved(limit: nat, k: nat): nat {
    if Shr(limit, k) == 0 then 1 else Shr(limit, k)
  }

  lemma {:induction false} ShrBelow(v: nat, k: nat)
    ensures Shr(v, k) <= v
  {
    if k > 0 {
      ShrBelow(v / 2, k - 1);
    }
  }

  // Halving k times is the floored quotient by 2^k.
  lemma HalvedMeaning(limit: nat, k: nat)
    ensures Shl(Shr(limit, k), k) <= limit < Shl(Shr(limit, k) + 1, k)
  {
    ShiftGalois(Shr(limit, k), limit, k);
    ShiftGalois(Shr(limit, k) + 1, limit, k);
  }

  lemma TargetAhead(interval: nat, tau: nat, timeDiff: int, heightDiff: nat, limit: nat, k: nat)
    requires tau > 0 && 1 <= limit < TWO_256 && timeDiff == interval * (heightDiff + 1) - k * tau
    ensures NextTarget(limit, interval, tau, timeDiff, heightDiff, limit) == Halved(limit, k)
  {
    hide NextTarget, Exponent, Mantissa, Shr, Shl;
    Negated(k, tau);
    var ahead: int := k;
    WholeTaus(interval, tau, timeDiff, heightDiff, -ahead);
    ClampsInvisible(limit, interval, tau, timeDiff, heightDiff, limit);
    MantissaAtZero(limit);
    ShrBelow(limit, k);
    ShrNone(limit);
  }

  lemma ShrNone(v: nat)
    ensures Shr(v, 0) == v && Shl(v, 0) == v
  {
  }

  // On or behind schedule the target is the limit.
  lemma TargetBehind(interval: nat, tau: nat, timeDiff: int, heightDiff: nat, limit: nat)
    requires tau > 0 && 1 <= limit < TWO_256 && timeDiff >= interval * (heightDiff + 1)
    ensures NextTarget(limit, interval, tau, timeDiff, heightDiff, limit) == limit
  {
    hide NextTarget;
    TargetAhead(interval, tau, interval * (heightDiff + 1), heightDiff, limit, 0);
    ShrNone(limit);
    TargetMonotone(limit, interval, tau, limit, interval * (heightDiff + 1), timeDiff, heightDiff, heightDiff);
  }

  // The bits a block must carry, from its parent's time and height: k taus ahead of
  // schedule they decode to the greatest encodable target at most 2^-k of the limit,
  // and on or behind schedule to the greatest at most the limit.
  lemma BitsOnSchedule(p: Params, parent: Meta, genesisTime: U64, k: nat)
    requires p.Valid() && -TWO_63 <= parent.time - genesisTime < TWO_63
    requires parent.time - genesisTime == p.blockInterval * (parent.height + 1) - k * p.asertTau
    ensures var target := Compact.BitsToTarget(ExpectedBits(p, parent, genesisTime));
            target.Some? && Compact.GreatestEncodable(target.value, Halved(p.powLimit, k))
  {
    hide NextTarget, Compact.BitsToTarget, Compact.TargetToBits, Compact.GreatestEncodable, Halved;
    SignedTime(parent.time - genesisTime);
    TargetAhead(p.blockInterval, p.asertTau, parent.time - genesisTime, parent.height, p.powLimit, k);
    HalvedFits(p.powLimit, k);
    Compact.RoundTrip(Halved(p.powLimit, k));
  }

  lemma HalvedFits(limit: nat, k: nat)
    requires limit >= 1
    ensures 1 <= Halved(limit, k) <= limit
  {
    ShrBelow(limit, k);
  }

  lemma BitsBehindSchedule(p: Params, parent: Meta, genesisTime: U64)
    requires p.Valid() && -TWO_63 <= parent.time - genesisTime < TWO_63
    requires parent.time - genesisTime >= p.blockInterval * (parent.height + 1)
    ensures ExpectedBits(p, parent, genesisTime) == Compact.TargetToBits(p.powLimit)
  {
    hide NextTarget, Compact.TargetToBits;
    SignedTime(parent.time - genesisTime);
    TargetBehind(p.blockInterval, p.asertTau, parent.time - genesisTime, parent.height, p.powLimit);
  }

  // A later parent never makes the next block harder, and a higher one never easier.
  lemma BitsMonotone(p: Params, a: Meta, b: Meta, genesisTime: U64)
    requires p.Valid() && -TWO_63 <= a.time - genesisTime < TWO_63 && -TWO_63 <= b.time - genesisTime < TWO_63
    requires a.time <= b.time && a.height >= b.height
    ensures var s, t := Compact.BitsToTarget(ExpectedBits(p, a, genesisTime)), Compact.BitsToTarget(ExpectedBits(p, b, genesisTime));
            s.Some? && t.Some? && s.value <= t.value
  {
    hide NextTarget, Compact.BitsToTarget, Compact.TargetToBits;
    SignedTime(a.time - genesisTime);
    SignedTime(b.time - genesisTime);
    TargetMonotone(p.powLimit, p.blockInterval, p.asertTau, p.powLimit,
                   a.time - genesisTime, b.time - genesisTime, a.height, b.height);
    Compact.RoundingMonotone(
      NextTarget(p.powLimit, p.blockInterval, p.asertTau, a.time - genesisTime, a.height, p.powLimit),
      NextTarget(p.powLimit, p.blockInterval, p.asertTau, b.time - genesisTime, b.height, p.powLimit));
  }
}
