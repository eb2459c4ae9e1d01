// The compact difficulty encoding: one exponent byte and a 23-bit mantissa.
module Compact {
  import opened Prelude
  import opened Arith
  import opened LittleEndian

  const SIGN: int := 0x80_0000
  const EXP: int := 0x100_0000

  function BitsToTarget(bits: U32): Option<nat> {
    var exp := bits / EXP;
    var mant := bits % SIGN;
    if bits / SIGN % 2 != 0 || mant == 0 || exp > 34 then None
    else if exp <= 3 then
      var t := Shr(mant, 8 * (3 - exp));
      if t == 0 then None else Some(t)
    else if 8 * (exp - 3) > 232 then None
    else Some(Shl(mant, 8 * (exp - 3)))
  }

  // A word of exponent byte e, sign bit s and 23-bit mantissa m stands for m * 256^(e - 3),
  // rounded down; signed, zero and too large ones stand for nothing.
  lemma FieldsMeaning(e: nat, s: nat, m: nat)
    requires e < 256 && s < 2 && m < 0x80_0000
    ensures e * 0x100_0000 + s * 0x80_0000 + m < TWO_32
    ensures BitsToTarget(e * 0x100_0000 + s * 0x80_0000 + m)
            == if s == 1 || m == 0 || e > 32 then None
               else if e >= 3 then Some(Times(m, Shl256(e - 3)))
               else if m < Shl256(3 - e) then None
               else Some(m / Shl256(3 - e))
  {
    hide Shl, Shr;
    FieldsApart(e, s, m);
    if e >= 3 {
      ShlBytes(m, e - 3);
      ShlGrows(m, 0, 8 * (e - 3));
      ShlNone(m);
      ShrNone(m);
    } else {
      ShrBytes(m, 3 - e);
    }
  }

  lemma ShrNone(m: nat)
    ensures Shr(m, 0) == m
  {
  }

  lemma FieldsApart(e: nat, s: nat, m: nat)
    requires e < 256 && s < 2 && m < SIGN
    ensures var bits := e * EXP + s * SIGN + m;
            bits / EXP == e && bits / SIGN % 2 == s && bits % SIGN == m
  {
    var bits := e * EXP + s * SIGN + m;
    assert bits == (2 * e + s) * SIGN + m;
  }

  lemma {:induction false} ShlBytes(m: nat, k: nat)
    ensures Shl(m, 8 * k) == Times(m, Shl256(k))
  {
    if k > 0 {
      ShlBytes(m, k - 1);
      ShlAdd(m, 8 * (k - 1), 8);
      ByteShifts(Shl(m, 8 * (k - 1)));
      TimesIs(m, Shl256(k - 1));
      TimesIs(m, Shl256(k));
      Regroup(m, Shl256(k - 1));
    } else {
      TimesIs(m, 1);
    }
  }

  lemma Regroup(m: nat, x: nat)
    ensures 256 * (m * x) == m * (256 * x)
  {
  }

  lemma ShrBytes(m: nat, k: nat)
    requires 1 <= k <= 3
    ensures Shr(m, 8 * k) == m / Shl256(k) && (m / Shl256(k) == 0 <==> m < Shl256(k))
  {
    hide Shr, Shl256;
    SmallPowers();
    ByteShifts(m);
    if k >= 2 {
      ByteShifts(m / 256);
      ShrAdd(m, 8, 8);
      TwoBytes(m);
    }
    if k == 3 {
      ByteShifts(m / 0x1_0000);
      ShrAdd(m, 16, 8);
      ThirdByte(m);
    }
  }

  lemma TwoBytes(m: nat)
    ensures m / 256 / 256 == m / 0x1_0000
  {
  }

  lemma ThirdByte(m: nat)
    ensures m / 0x1_0000 / 256 == m / 0x100_0000
  {
  }

  lemma SmallPowers()
    ensures Shl256(1) == 256 && Shl256(2) == 0x1_0000 && Shl256(3) == 0x100_0000
  {
    assert Shl256(3) == 256 * Shl256(2) && Shl256(2) == 256 * Shl256(1) && Shl256(1) == 256 * Shl256(0);
  }

  function ByteLength(t: nat): nat {
    (Bits(t) + 7) / 8
  }

  // The three leading bytes of a target, left-aligned.
  function Leading(t: nat): nat {
    if ByteLength(t) <= 3 then Shl(t, 8 * (3 - ByteLength(t))) else Shr(t, 8 * (ByteLength(t) - 3))
  }

  function TargetToBits(t: nat): (bits: U32)
    requires t < TWO_256
  {
    LeadingSmall(t);
    var compact, size := Leading(t), ByteLength(t);
    if compact / SIGN % 2 != 0 then compact / 256 + (size + 1) * EXP else compact + size * EXP
  }

  // The low 32 bits hold the leading bytes, and the exponent byte does not overflow.
  lemma LeadingSmall(t: nat)
    requires t < TWO_256
    ensures Leading(t) < EXP && ByteLength(t) <= 32
  {
    WordShifts(1);
    BitsBelow(t, 256);
    LeadingBits(t);
    BitsBelow(Leading(t), 24);
  }

  lemma LeadingBits(t: nat)
    ensures Bits(Leading(t)) <= 24
  {
    hide Bits, Shl, Shr;
    var n := ByteLength(t);
    if n > 3 {
      LeadingLong(t, n);
    } else {
      LeadingShort(t, n);
    }
  }

  lemma LeadingShort(t: nat, n: nat)
    requires n <= 3 && Bits(t) <= 8 * n
    ensures Bits(Shl(t, 8 * (3 - n))) <= 24
  {
    hide Shl;
    if t > 0 {
      BitsShl(t, 8 * (3 - n));
    } else {
      ShlZero(8 * (3 - n));
    }
  }

  lemma {:induction false} ShlZero(k: nat)
    ensures Shl(0, k) == 0
  {
    if k > 0 {
      ShlZero(k - 1);
    }
  }

  lemma LeadingLong(t: nat, n: nat)
    requires n > 3 && Bits(t) <= 8 * n
    ensures Bits(Shr(t, 8 * (n - 3))) <= 24
  {
    hide Bits, Shr;
    BitsShr(Shr(t, 8 * (n - 3)), 24);
    ShrAdd(t, 8 * (n - 3), 24);
    BitsShr(t, 8 * n);
  }

  // How many low bytes of t the encoding drops.
  function Dropped(t: nat): nat {
    if t < SIGN then 0 else 1 + Dropped(t / 256)
  }

  function Kept(t: nat): nat {
    Shr(t, 8 * Dropped(t))
  }

  // t with its dropped bytes cleared.
  function Truncated(t: nat): nat {
    Shl(Kept(t), 8 * Dropped(t))
  }

  lemma ShrByte(t: nat, k: nat)
    ensures Shr(t, 8 * (k + 1)) == Shr(t / 256, 8 * k)
  {
    ShrAdd(t, 8, 8 * k);
    ByteShifts(t);
  }

  lemma {:induction false} KeptNormal(t: nat)
    ensures Kept(t) < SIGN
    ensures Dropped(t) > 0 ==> 0x8000 <= Kept(t)
  {
    if t >= SIGN {
      KeptNormal(t / 256);
      ShrByte(t, Dropped(t / 256));
    }
  }

  lemma {:induction false} DroppedAtMost(t: nat, k: nat)
    ensures Dropped(t) <= k <==> Shr(t, 8 * k) < SIGN
  {
    if k == 0 {
    } else if t < SIGN {
      ShrByte(t, k - 1);
      ShrMono(t / 256, SIGN, 8 * (k - 1));
      DroppedAtMost(t / 256, k - 1);
    } else {
      ShrByte(t, k - 1);
      DroppedAtMost(t / 256, k - 1);
    }
  }

  // ----- encoding -----

  lemma LengthByte(t: nat)
    requires t >= 256
    ensures ByteLength(t) == 1 + ByteLength(t / 256)
  {
    ByteShifts(t);
    BitsShrExact(t, 8);
  }

  lemma {:induction false} BitsShrExact(t: nat, k: nat)
    requires Shr(t, k) > 0
    ensures Bits(Shr(t, k)) == Bits(t) - k
  {
    if k > 0 {
      if t == 0 {
        BitsShr(0, k);
      }
      BitsShrExact(t / 2, k - 1);
    }
  }

  lemma LengthOne(t: nat)
    requires 0 < t < 256
    ensures ByteLength(t) == 1
  {
    ByteShifts(1);
    BitsBelow(t, 8);
  }

  // The fields of a packed word read back.
  lemma Unpack(m: nat, e: nat)
    requires m < SIGN && e < 256
    ensures (m + e * EXP) / EXP == e && (m + e * EXP) / SIGN % 2 == 0 && (m + e * EXP) % SIGN == m
  {
    assert m + e * EXP == m + (2 * e) * SIGN;
  }

  // Targets below 2^16 fill the mantissa from the left and lose nothing.
  lemma ShortExact(t: nat)
    requires 0 < t < 0x1_0000
    ensures BitsToTarget(TargetToBits(t)) == Some(t)
  {
    if t < 256 {
      LengthOne(t);
    } else {
      LengthByte(t);
      LengthOne(t / 256);
    }
    var n := ByteLength(t);
    ShortLeading(t, n);
    ShortUnpacks(t, if t / (if n == 1 then 128 else 0x8000) != 0 then n + 1 else n);
  }

  lemma ShortUnpacks(t: nat, e: nat)
    requires t > 0 && 1 <= e <= 3 && Shl(t, 8 * (3 - e)) < SIGN
    ensures BitsToTarget(Shl(t, 8 * (3 - e)) + e * EXP) == Some(t)
  {
    hide Shl, Shr;
    var m := Shl(t, 8 * (3 - e));
    Unpack(m, e);
    ShrOfShl(t, 8 * (3 - e));
    ShlGrows(t, 0, 8 * (3 - e));
    ShlNone(t);
  }

  lemma ShlNone(t: nat)
    ensures Shl(t, 0) == t
  {
  }

  // One or two bytes, shifted to the top of three, and down again if that sets the sign.
  lemma ShortLeading(t: nat, n: nat)
    requires n == ByteLength(t) && (if t < 256 then n == 1 else n == 2 && t < 0x1_0000)
    ensures var e := if t / (if n == 1 then 128 else 0x8000) != 0 then n + 1 else n;
            Shl(t, 8 * (3 - e)) < SIGN && TargetToBits(t) == Shl(t, 8 * (3 - e)) + e * EXP
  {
    hide Bits, Shr, ByteLength;
    WordShifts(t);
    ByteShifts(t);
  }

  // From 2^16 on, the encoding is the kept bytes with their exponent.
  lemma {:induction false} LongForm(t: nat)
    requires 0x1_0000 <= t < TWO_256
    ensures TargetToBits(t) == Kept(t) + (Dropped(t) + 3) * EXP
  {
    if t < EXP {
      LengthByte(t);
      LengthByte(t / 256);
      LengthOne(t / 256 / 256);
      assert Leading(t) == t;
      ByteShifts(t);
    } else {
      LongForm(t / 256);
      LengthByte(t);
      LengthByte(t / 256);
      LengthByte(t / 256 / 256);
      ShrByte(t, ByteLength(t / 256) - 3);
      assert Leading(t) == Leading(t / 256);
      ShrByte(t, Dropped(t / 256));
    }
  }

  // Decoding what was encoded: defined exactly below 2^255, and it clears the
  // dropped bytes.
  lemma Decoded(t: nat)
    requires 0 < t < TWO_256
    ensures BitsToTarget(TargetToBits(t)) == if t < TWO_256 / 2 then Some(Truncated(t)) else None
  {
    if t < 0x1_0000 {
      ShortExact(t);
    } else {
      LongForm(t);
      KeptNormal(t);
      DroppedBound(t);
      Unpack(Kept(t), Dropped(t) + 3);
    }
  }

  lemma DroppedBound(t: nat)
    requires t < TWO_256
    ensures Dropped(t) <= 29 <==> t < TWO_256 / 2
    ensures Dropped(t) <= 30
  {
    DroppedAtMost(t, 29);
    DroppedAtMost(t, 30);
    ShiftGalois(SIGN, t, 232);
    ShiftGalois(SIGN, t, 240);
    TopShifts();
  }

  lemma TopShifts()
    ensures Shl(SIGN, 232) == TWO_256 / 2 && Shl(SIGN, 240) >= TWO_256
  {
    ByteShifts(1);
    WordShifts(1);
    ShlAdd(1, 23, 232);
    assert Shl(1, 24) == 2 * Shl(1, 23) && Shl(1, 256) == 2 * Shl(1, 255);
    ShlGrows(SIGN, 233, 240);
  }

  // ----- the round trip -----

  // Every decodable value is a 23-bit mantissa times a power of 256.
  lemma DecodedForm(bits: U32) returns (m: nat, k: nat)
    requires BitsToTarget(bits).Some?
    ensures m < SIGN && BitsToTarget(bits).value == Shl(m, 8 * k)
  {
    var exp, mant := bits / EXP, bits % SIGN;
    if exp <= 3 {
      m, k := Shr(mant, 8 * (3 - exp)), 0;
      ShiftGalois(m, mant, 8 * (3 - exp));
      ShlGrows(m, 0, 8 * (3 - exp));
    } else {
      m, k := mant, exp - 3;
    }
  }

  lemma TruncatedBelow(t: nat)
    ensures Truncated(t) <= t
  {
    ShiftGalois(Kept(t), t, 8 * Dropped(t));
  }

  lemma BelowTruncated(t: nat, m: nat, k: nat)
    requires m < SIGN && Shl(m, 8 * k) <= t
    ensures Shl(m, 8 * k) <= Truncated(t)
  {
    var j := Dropped(t);
    if k >= j {
      ShlAdd(m, 8 * (k - j), 8 * j);
      ShiftGalois(Shl(m, 8 * (k - j)), t, 8 * j);
      ShlMono(Shl(m, 8 * (k - j)), Kept(t), 8 * j);
    } else {
      KeptNormal(t);
      ShlMono(m, SIGN, 8 * k);
      ShlGrows(SIGN, 8 * k, 8 * (j - 1));
      ShlAdd(0x8000, 8, 8 * (j - 1));
      ByteShifts(0x8000);
      ShlMono(0x8000, Kept(t), 8 * j);
    }
  }

  // r is the greatest value with a compact encoding that does not exceed t.
  ghost predicate GreatestEncodable(r: nat, t: nat) {
    && r <= t
    && (exists bits: U32 :: BitsToTarget(bits) == Some(r))
    && (forall bits: U32 :: BitsToTarget(bits).Some? && BitsToTarget(bits).value <= t ==> BitsToTarget(bits).value <= r)
  }

  // Encoding rounds down to the nearest encodable target, and re-encoding that
  // gives the same bits.
  lemma RoundTrip(t: nat)
    requires 0 < t < TWO_256 / 2
    ensures BitsToTarget(TargetToBits(t)).Some?
    ensures var r := BitsToTarget(TargetToBits(t)).value;
            1 <= r && GreatestEncodable(r, t) && TargetToBits(r) == TargetToBits(t)
  {
    Decoded(t);
    var r := Truncated(t);
    assert BitsToTarget(TargetToBits(t)) == Some(r);
    forall bits: U32 | BitsToTarget(bits).Some? && BitsToTarget(bits).value <= t
      ensures BitsToTarget(bits).value <= r
    {
      var m, k := DecodedForm(bits);
      BelowTruncated(t, m, k);
    }
    Reencodes(t);
  }

  lemma Reencodes(t: nat)
    requires 0 < t < TWO_256 / 2
    ensures 1 <= Truncated(t) <= t && TargetToBits(Truncated(t)) == TargetToBits(t)
  {
    TruncatedBelow(t);
    if t >= SIGN {
      var r := Truncated(t);
      KeptNormal(t);
      TruncatedKeeps(t);
      ByteShifts(0x8000);
      ShlGrows(Kept(t), 8, 8 * Dropped(t));
      ByteShifts(Kept(t));
      LongForm(t);
      LongForm(r);
    }
  }

  // Clearing the dropped bytes changes neither their number nor the kept bytes.
  lemma TruncatedKeeps(t: nat)
    requires t >= SIGN
    ensures Dropped(Truncated(t)) == Dropped(t) && Kept(Truncated(t)) == Kept(t)
  {
    var r, j := Truncated(t), Dropped(t);
    ShrOfShl(Kept(t), 8 * j);
    KeptNormal(t);
    DroppedAtMost(r, j);
    DroppedAtMost(r, j - 1);
    ShlAdd(Kept(t), 8, 8 * (j - 1));
    ShrOfShl(Shl(Kept(t), 8), 8 * (j - 1));
    ByteShifts(Kept(t));
  }

  // Rounding keeps the order of targets.
  lemma RoundingMonotone(t: nat, t': nat)
    requires 0 < t <= t' < TWO_256 / 2
    ensures BitsToTarget(TargetToBits(t)).Some? && BitsToTarget(TargetToBits(t')).Some?
    ensures BitsToTarget(TargetToBits(t)).value <= BitsToTarget(TargetToBits(t')).value
  {
    RoundTrip(t);
    RoundTrip(t');
  }
}
