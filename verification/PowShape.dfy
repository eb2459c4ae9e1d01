// What the memory-hard hash does to its words: folding loses nothing, every word of a
// page reaches the compressed mix, and a hash binds the message and the nonce.
module PowShape {
  import opened Prelude
  import opened Arith
  import opened LittleEndian
  import opened Codec
  import opened Preimages
  import opened Pow

  // ----- the word function -----

  // Exclusive or is undone by either operand.
  lemma {:induction false} XorUndone(a: nat, b: nat, n: nat)
    requires a < Shl(1, n) && b < Shl(1, n)
    ensures Xor(Xor(a, b, n), b, n) == a && Xor(Xor(a, b, n), a, n) == b
  {
    if n > 0 {
      Halves(a, b, n);
      XorUndone(a / 2, b / 2, n - 1);
      StepUndone(a, b, n, a / 2, b / 2);
    }
  }

  lemma StepUndone(a: nat, b: nat, n: nat, a': nat, b': nat)
    requires n > 0 && a' == a / 2 && b' == b / 2
    requires Xor(Xor(a', b', n - 1), b', n - 1) == a' && Xor(Xor(a', b', n - 1), a', n - 1) == b'
    ensures Xor(Xor(a, b, n), b, n) == a && Xor(Xor(a, b, n), a, n) == b
  {
    hide Shl, Xor;
    var x, c := Xor(a', b', n - 1), Xor(a, b, n);
    XorStep(a, b, n);
    LowBit(a, b, x);
    XorStep(c, b, n);
    XorStep(c, a, n);
    assert c / 2 == x;
  }

  lemma XorStep(a: nat, b: nat, n: nat)
    requires n > 0
    ensures Xor(a, b, n) == (a + b) % 2 + 2 * Xor(a / 2, b / 2, n - 1)
  {
  }

  lemma Halves(a: nat, b: nat, n: nat)
    requires n > 0 && a < Shl(1, n) && b < Shl(1, n)
    ensures a / 2 < Shl(1, n - 1) && b / 2 < Shl(1, n - 1)
  {
  }

  lemma LowBit(a: nat, b: nat, x: nat)
    ensures var c := (a + b) % 2 + 2 * x;
            c / 2 == x && (c + b) % 2 + 2 * (a / 2) == a && (c + a) % 2 + 2 * (b / 2) == b
  {
    var bit := (a + b) % 2;
    assert (bit + b) % 2 == a % 2 && (bit + a) % 2 == b % 2 by { BitUndone(a, b); }
    TwiceMore(bit + b, x);
    TwiceMore(bit + a, x);
  }

  lemma TwiceMore(v: nat, x: nat)
    ensures (v + 2 * x) % 2 == v % 2
  {
  }

  lemma BitUndone(a: nat, b: nat)
    ensures ((a + b) % 2 + b) % 2 == a % 2 && ((a + b) % 2 + a) % 2 == b % 2
  {
  }

  lemma WordUndone(a: U32, b: U32)
    ensures Xor32(Xor32(a, b), b) == a && Xor32(Xor32(a, b), a) == b
  {
    hide Shl, Xor;
    WordShifts(1);
    XorUndone(a, b, 32);
  }

  // The multiplier has an inverse, so a word folded with another can be had back.
  lemma FnvUndone(a: U32, b: U32)
    ensures (0x359C_449B * Xor32(Fnv(a, b), b)) % TWO_32 == a
  {
    hide Xor32;
    WordUndone((a * 0x0100_0193) % TWO_32, b);
    InverseMultiplier(a);
  }

  lemma InverseMultiplier(a: U32)
    ensures (0x359C_449B * ((a * 0x0100_0193) % TWO_32)) % TWO_32 == a
  {
    var q, r := (a * 0x0100_0193) / TWO_32, (a * 0x0100_0193) % TWO_32;
    var k := 0x35_9C99 * a - 0x359C_449B * q;
    assert 0x359C_449B * r == (0x359C_449B * 0x0100_0193) * a - (0x359C_449B * TWO_32) * q;
    assert 0x359C_449B * r == k * TWO_32 + a;
  }

  // A fold with a fixed word is one to one, in either argument.
  lemma FnvOneToOne(a: U32, a': U32, b: U32, b': U32)
    ensures Fnv(a, b) == Fnv(a', b) ==> a == a'
    ensures Fnv(a, b) == Fnv(a, b') ==> b == b'
  {
    hide Xor32;
    FnvUndone(a, b);
    FnvUndone(a', b);
    WordUndone((a * 0x0100_0193) % TWO_32, b);
    WordUndone((a * 0x0100_0193) % TWO_32, b');
  }

  // ----- folding -----

  lemma LanePatched(s: Bytes, i: nat, w: U32, j: nat)
    requires 4 * i + 4 <= |s| && 4 * j + 4 <= |s|
    ensures Lane(Patched(s, 4 * i, LeBytes(w, 4)), j) == if i == j then w else Lane(s, j)
  {
    hide LeValue, LeBytes;
    var s' := Patched(s, 4 * i, LeBytes(w, 4));
    if i == j {
      Widths();
      LeRoundTrip(w, 4);
      assert s'[4 * j..4 * j + 4] == LeBytes(w, 4);
    } else {
      assert s'[4 * j..4 * j + 4] == s[4 * j..4 * j + 4];
    }
  }

  // Folding acts on each word by itself.
  lemma {:induction false} FoldedLane(mix: Bytes, other: Bytes, k: nat, j: nat)
    requires |mix| == |other| && 4 * k <= |mix| && 4 * j + 4 <= |mix|
    ensures Lane(Folded(mix, other, k), j) == if j < k then Fnv(Lane(mix, j), Lane(other, j)) else Lane(mix, j)
  {
    hide Lane, Fnv, Patched;
    if k > 0 {
      var before := Folded(mix, other, k - 1);
      FoldedLane(mix, other, k - 1, j);
      FoldedLane(mix, other, k - 1, k - 1);
      LanePatched(before, k - 1, Fnv(Lane(before, k - 1), Lane(other, k - 1)), j);
    }
  }

  // Byte strings of whole words are equal when their words are.
  lemma WordsDecide(s: Bytes, s': Bytes, n: nat)
    requires |s| == |s'| == 4 * n && forall j :: 0 <= j < n ==> Lane(s, j) == Lane(s', j)
    ensures s == s'
  {
    forall i | 0 <= i < 4 * n
      ensures s[i] == s'[i]
    {
      var j := i / 4;
      LeCanonical(s[4 * j..4 * j + 4]);
      LeCanonical(s'[4 * j..4 * j + 4]);
      assert Lane(s, j) == Lane(s', j);
      assert s[4 * j..4 * j + 4][i - 4 * j] == s[i] && s'[4 * j..4 * j + 4][i - 4 * j] == s'[i];
    }
  }

  // Folding a page in loses nothing of the mix, and different pages leave different mixes.
  lemma FoldingOneToOne(mix: Bytes, mix': Bytes, other: Bytes, other': Bytes, n: nat)
    requires |mix| == |mix'| == |other| == |other'| == 4 * n
    requires Folded(mix, other, n) == Folded(mix', other', n)
    ensures mix == mix' <==> other == other'
  {
    hide Lane, Fnv, Folded;
    forall j | 0 <= j < n
      ensures Fnv(Lane(mix, j), Lane(other, j)) == Fnv(Lane(mix', j), Lane(other', j))
    {
      FoldedLane(mix, other, n, j);
      FoldedLane(mix', other', n, j);
    }
    if mix == mix' {
      forall j | 0 <= j < n
        ensures Lane(other, j) == Lane(other', j)
      {
        FnvOneToOne(Lane(mix, j), Lane(mix, j), Lane(other, j), Lane(other', j));
      }
      WordsDecide(other, other', n);
    }
    if other == other' {
      forall j | 0 <= j < n
        ensures Lane(mix, j) == Lane(mix', j)
      {
        FnvOneToOne(Lane(mix, j), Lane(mix', j), Lane(other, j), Lane(other, j));
      }
      WordsDecide(mix, mix', n);
    }
  }

  // ----- compressing -----

  // Word k of the compressed mix folds words 4k to 4k + 3, in order.
  lemma {:induction false} CompressedLane(mix: Page, n: nat, k: nat)
    requires k < n <= 8
    ensures Lane(Compressed(mix, n), k)
            == Fnv(Fnv(Fnv(Lane(mix, 4 * k), Lane(mix, 4 * k + 1)), Lane(mix, 4 * k + 2)), Lane(mix, 4 * k + 3))
  {
    hide Fnv, LeBytes, LeValue;
    var j := 4 * (n - 1);
    var w := Fnv(Fnv(Fnv(Lane(mix, j), Lane(mix, j + 1)), Lane(mix, j + 2)), Lane(mix, j + 3));
    var before, c := Compressed(mix, n - 1), Compressed(mix, n);
    assert c == before + LeBytes(w, 4);
    if k < n - 1 {
      CompressedLane(mix, n - 1, k);
      assert c[4 * k..4 * k + 4] == before[4 * k..4 * k + 4];
    } else {
      assert c[4 * k..4 * k + 4] == LeBytes(w, 4);
      Widths();
      LeRoundTrip(w, 4);
    }
  }

  // Every word counts: pages that differ in one word compress differently.
  lemma EveryWordCounts(mix: Page, mix': Page, j: nat)
    requires j < 32 && Lane(mix, j) != Lane(mix', j)
    requires forall i :: 0 <= i < 32 && i != j ==> Lane(mix, i) == Lane(mix', i)
    ensures Compressed(mix, 8) != Compressed(mix', 8)
  {
    hide Lane, Fnv, Compressed;
    var k := j / 4;
    CompressedLane(mix, 8, k);
    CompressedLane(mix', 8, k);
    var a, b, c, d := Lane(mix, 4 * k), Lane(mix, 4 * k + 1), Lane(mix, 4 * k + 2), Lane(mix, 4 * k + 3);
    var a', b', c', d' := Lane(mix', 4 * k), Lane(mix', 4 * k + 1), Lane(mix', 4 * k + 2), Lane(mix', 4 * k + 3);
    FnvOneToOne(a, a', b, b');
    FnvOneToOne(Fnv(a, b), Fnv(a', b'), c, c');
    FnvOneToOne(Fnv(Fnv(a, b), c), Fnv(Fnv(a', b'), c'), d, d');
  }

  // ----- the cache -----

  lemma ItemPatched(s: Bytes, i: nat, item: Item, j: nat)
    requires ITEM * i + ITEM <= |s| && ITEM * j + ITEM <= |s|
    ensures ItemAt(Patched(s, ITEM * i, item), j) == if i == j then item else ItemAt(s, j)
  {
    var s' := Patched(s, ITEM * i, item);
    if i == j {
      assert s'[ITEM * j..ITEM * j + ITEM] == item;
    } else {
      assert s'[ITEM * j..ITEM * j + ITEM] == s[ITEM * j..ITEM * j + ITEM];
    }
  }

  // Items once filled stay.
  lemma {:induction false} FilledStays(p: PowParams, seed: Hash32, n: nat, i: nat, j: nat)
    requires j < i <= n
    ensures ItemAt(Filled(p, seed, n, i), j) == ItemAt(Filled(p, seed, n, j + 1), j)
  {
    hide ItemAt, Patched, Ascii;
    if j < i - 1 {
      var before := Filled(p, seed, n, i - 1);
      var item := if i == 1 then p.shake(Ascii("sump/cache") + seed) else p.shake(ItemAt(before, i - 2));
      FilledStays(p, seed, n, i - 1, j);
      ItemPatched(before, i - 1, item, j);
    }
  }

  // Before strengthening, the first item comes from the seed and every other from the
  // one before it.
  lemma FilledItems(p: PowParams, seed: Hash32, n: nat, i: nat)
    requires i < n
    ensures var s := Filled(p, seed, n, n);
            ItemAt(s, i) == if i == 0 then p.shake(Ascii("sump/cache") + seed) else p.shake(ItemAt(s, i - 1))
  {
    hide ItemAt, Patched, Ascii;
    var before := Filled(p, seed, n, i);
    var item := if i == 0 then p.shake(Ascii("sump/cache") + seed) else p.shake(ItemAt(before, i - 1));
    FilledStays(p, seed, n, n, i);
    ItemPatched(before, i, item, i);
    if i > 0 {
      FilledStays(p, seed, n, n, i - 1);
    }
  }

  // In one round an item is rewritten once, at its turn.
  lemma {:induction false} StrengthenedOnce(p: PowParams, s: Bytes, n: nat, i: nat, j: nat)
    requires |s| == ITEM * n && i <= n && j < n
    ensures ItemAt(Strengthened(p, s, n, i), j) == if j < i then ItemAt(Strengthened(p, s, n, j + 1), j) else ItemAt(s, j)
  {
    hide ItemAt, Patched, Lane, Mod, XorItems;
    if i > 0 && j != i - 1 {
      var before := Strengthened(p, s, n, i - 1);
      var v, k := Mod(Lane(before, 16 * (i - 1)), n), Mod(i - 1 + n - 1, n);
      StrengthenedOnce(p, s, n, i - 1, j);
      ItemPatched(before, i - 1, p.shake(XorItems(ItemAt(before, k), ItemAt(before, v))), j);
    }
  }

  lemma FirstLane(s: Bytes, i: nat)
    requires ITEM * i + ITEM <= |s|
    ensures Lane(s, 16 * i) == Lane(ItemAt(s, i), 0)
  {
    assert ItemAt(s, i)[0..4] == s[4 * (16 * i)..4 * (16 * i) + 4];
  }

  // A round, item by item: each becomes a hash of its predecessor and of the item its
  // own first word chooses, both as this round has left them so far.
  lemma StrengthenedItems(p: PowParams, s: Bytes, n: nat, i: nat)
    requires |s| == ITEM * n && i < n
    ensures var r := Strengthened(p, s, n, n);
            var chosen := Mod(Lane(ItemAt(s, i), 0), n);
            ItemAt(r, i) == p.shake(XorItems(if i == 0 then ItemAt(s, n - 1) else ItemAt(r, i - 1),
                                             if chosen < i then ItemAt(r, chosen) else ItemAt(s, chosen)))
  {
    hide ItemAt, Patched, Lane, Mod, XorItems;
    var before := Strengthened(p, s, n, i);
    var chosen, prev := Mod(Lane(before, 16 * i), n), Mod(i + n - 1, n);
    FirstLane(before, i);
    StrengthenedOnce(p, s, n, i, i);
    Before(i, n);
    StrengthenedOnce(p, s, n, n, i);
    StrengthenedOnce(p, s, n, i, prev);
    StrengthenedOnce(p, s, n, i, chosen);
    if i > 0 {
      StrengthenedOnce(p, s, n, n, i - 1);
    }
    if chosen < i {
      StrengthenedOnce(p, s, n, n, chosen);
    }
    ItemPatched(before, i, p.shake(XorItems(ItemAt(before, prev), ItemAt(before, chosen))), i);
  }

  lemma Before(i: nat, n: nat)
    requires i < n
    ensures Mod(i + n - 1, n) == if i == 0 then n - 1 else i - 1
  {
    if i > 0 {
      assert i + n - 1 == 1 * n + (i - 1);
    }
  }

  // ----- dataset items -----

  // Items that start from one cache item start from different bytes, since all eight
  // bytes of the index go in.
  lemma IndexCounts(item: Item, i: U64, i': U64)
    requires Indexed(item, i) == Indexed(item, i')
    ensures i == i'
  {
    hide Xor8, LeBytes, LeValue;
    var s, s' := LeBytes(i, 8), LeBytes(i', 8);
    forall k | 0 <= k < 8
      ensures s[k] == s'[k]
    {
      assert Indexed(item, i)[k] == Indexed(item, i')[k];
      ByteUndone(item[k], s[k]);
      ByteUndone(item[k], s'[k]);
    }
    assert s == s';
    Widths();
    LeRoundTrip(i, 8);
    LeRoundTrip(i', 8);
  }

  lemma ByteUndone(a: byte, b: byte)
    ensures Xor8(Xor8(a, b), a) == b
  {
    hide Shl, Xor;
    ByteShifts(1);
    XorUndone(a, b, 8);
  }

  // ----- what a hash binds -----

  function SeedMessage(message: Hash32, nonce: U64): Bytes {
    Ascii("sump/mixseed") + message + LeBytes(nonce, 8)
  }

  function LastMessage(p: PowParams, cache: Bytes, message: Hash32, nonce: U64): Bytes
    requires p.Valid() && |cache| == ITEM * p.CacheItems()
  {
    var seed := p.shake(SeedMessage(message, nonce));
    Ascii("sump/pow/v1") + seed + Compressed(Mixed(p, cache, seed, p.accesses % TWO_32), 8)
  }

  // No two of the messages collide under either function.
  ghost predicate Apart(p: PowParams, ms: set<Bytes>) {
    && (forall x, y :: x in ms && y in ms && p.shake(x) == p.shake(y) ==> x == y)
    && CollisionFree(p.sha3, ms)
  }

  // A hash binds the message, the nonce and the mix: whatever the two caches, two
  // searches that come to one hash are the same search and mixed the same pages.
  lemma HashBinds(p: PowParams, ms: set<Bytes>, cache: Bytes, m: Hash32, nonce: U64, cache': Bytes, m': Hash32, nonce': U64)
    requires p.Valid() && |cache| == |cache'| == ITEM * p.CacheItems() && Apart(p, ms)
    requires SeedMessage(m, nonce) in ms && SeedMessage(m', nonce') in ms
    requires LastMessage(p, cache, m, nonce) in ms && LastMessage(p, cache', m', nonce') in ms
    requires SumpHash(p, cache, m, nonce) == SumpHash(p, cache', m', nonce')
    ensures m == m' && nonce == nonce'
    ensures LastMessage(p, cache, m, nonce) == LastMessage(p, cache', m', nonce')
  {
    hide Ascii, Mixed, Compressed;
    var a, b := LastMessage(p, cache, m, nonce), LastMessage(p, cache', m', nonce');
    assert a == b;
    var seed, seed' := p.shake(SeedMessage(m, nonce)), p.shake(SeedMessage(m', nonce'));
    assert a[11..75] == seed && b[11..75] == seed';
    var x, y := SeedMessage(m, nonce), SeedMessage(m', nonce');
    assert x[12..44] == m && y[12..44] == m' && x[44..] == LeBytes(nonce, 8) && y[44..] == LeBytes(nonce', 8);
    Widths();
    LeRoundTrip(nonce, 8);
    LeRoundTrip(nonce', 8);
  }

  function EpochMessage(previous: Hash32): Bytes {
    Ascii("sump/epochseed") + previous
  }

  // Different epochs have different seeds.
  lemma {:induction false} SeedsApart(p: PowParams, ms: set<Bytes>, a: nat, b: nat)
    requires CollisionFree(p.sha3, ms) && a < b
    requires EpochMessage(ZERO_HASH) in ms && forall e :: 0 <= e < b ==> EpochMessage(Seed(p, e)) in ms
    ensures Seed(p, a) != Seed(p, b)
  {
    hide Seed, EpochMessage, CollisionFree;
    SeedIs(p, a);
    SeedIs(p, b);
    if a > 0 {
      SeedsApart(p, ms, a - 1, b - 1);
      SeedsDiffer(p, ms, Seed(p, a - 1), Seed(p, b - 1));
    } else {
      SeedNotZero(p, ms, b - 1);
      SeedsDiffer(p, ms, ZERO_HASH, Seed(p, b - 1));
    }
  }

  lemma SeedIs(p: PowParams, e: nat)
    ensures e == 0 ==> Seed(p, e) == p.sha3(EpochMessage(ZERO_HASH))
    ensures e > 0 ==> Seed(p, e) == p.sha3(EpochMessage(Seed(p, e - 1)))
  {
  }

  lemma SeedsDiffer(p: PowParams, ms: set<Bytes>, x: Hash32, y: Hash32)
    requires CollisionFree(p.sha3, ms) && x != y && EpochMessage(x) in ms && EpochMessage(y) in ms
    ensures p.sha3(EpochMessage(x)) != p.sha3(EpochMessage(y))
  {
    hide Ascii;
    assert EpochMessage(x)[14..] == x && EpochMessage(y)[14..] == y;
  }

  lemma SeedNotZero(p: PowParams, ms: set<Bytes>, e: nat)
    requires CollisionFree(p.sha3, ms)
    requires EpochMessage(ZERO_HASH) in ms && (e > 0 ==> EpochMessage(Seed(p, e - 1)) in ms)
    ensures Seed(p, e) != ZERO_HASH
  {
    hide Ascii;
  }
}
