// The memory-hard hash: a cache grown from the epoch seed, dataset items derived
// from it, and mixing over pages of the dataset, materialised or not.
module Pow {
  import opened Prelude
  import opened Arith
  import opened LittleEndian
  import opened Codec
  import opened Preimages
  import opened Nonce

  const ITEM: int := 64
  const PAGE: int := 128
  const CACHE_ROUNDS: int := 2

  type Item = s: Bytes | |s| == 64 witness seq(64, _ => 0)
  type Page = s: Bytes | |s| == 128 witness seq(128, _ => 0)

  // SHAKE-256 filling one item, and SHA3-256, are arbitrary functions.
  datatype PowParams = PowParams(
    cacheBytes: nat,
    datasetBytes: nat,
    parents: nat,
    accesses: nat,
    shake: Bytes -> Item,
    sha3: Bytes -> Hash32)
  {
    predicate Valid() {
      CacheItems() >= 2 && Pages() >= 1
    }

    function CacheItems(): nat {
      cacheBytes / ITEM
    }

    function DatasetItems(): nat {
      datasetBytes / ITEM
    }

    function Pages(): nat {
      datasetBytes / PAGE
    }
  }

  // ----- words and bytes -----

  // Exclusive or of the low n bits.
  function Xor(a: nat, b: nat, n: nat): (r: nat)
    ensures r < Shl(1, n)
  {
    if n == 0 then 0 else (a + b) % 2 + 2 * Xor(a / 2, b / 2, n - 1)
  }

  function Xor8(a: byte, b: byte): byte {
    ByteShifts(1);
    Xor(a, b, 8)
  }

  function Xor32(a: U32, b: U32): U32 {
    WordShifts(1);
    Xor(a, b, 32)
  }

  function Fnv(a: U32, b: U32): U32 {
    Xor32((a * 0x0100_0193) % TWO_32, b)
  }

  function Mod(x: nat, n: nat): (r: nat)
    requires n > 0
    ensures r < n
  {
    x % n
  }

  // The k-th 32-bit word.
  function Lane(s: Bytes, k: nat): U32
    requires 4 * k + 4 <= |s|
  {
    LeCanonical(s[4 * k..4 * k + 4]);
    Widths();
    LeValue(s[4 * k..4 * k + 4])
  }

  function Patched(s: Bytes, at: nat, part: Bytes): (r: Bytes)
    requires at + |part| <= |s|
    ensures |r| == |s|
  {
    s[..at] + part + s[at + |part|..]
  }

  function ItemAt(s: Bytes, i: nat): Item
    requires ITEM * i + ITEM <= |s|
  {
    s[ITEM * i..ITEM * i + ITEM]
  }

  // The first k words folded with those of other.
  function Folded(mix: Bytes, other: Bytes, k: nat): (r: Bytes)
    requires |mix| == |other| && 4 * k <= |mix|
    ensures |r| == |mix|
  {
    if k == 0 then mix
    else
      var before := Folded(mix, other, k - 1);
      Patched(before, 4 * (k - 1), LeBytes(Fnv(Lane(before, k - 1), Lane(other, k - 1)), 4))
  }

  // ----- seeds -----

  function Seed(p: PowParams, epoch: nat): Hash32 {
    p.sha3(Ascii("sump/epochseed") + (if epoch == 0 then ZERO_HASH else Seed(p, epoch - 1)))
  }

  method SeedForEpoch(p: PowParams, epoch: nat) returns (s: Hash32)
    ensures s == Seed(p, epoch)
  {
    hide Ascii;
    s := p.sha3(Ascii("sump/epochseed") + ZERO_HASH);
    for i := 1 to epoch + 1
      invariant s == Seed(p, i - 1)
    {
      s := p.sha3(Ascii("sump/epochseed") + s);
    }
  }

  // ----- the cache -----

  // The first i items, each hashed from the one before it.
  function Filled(p: PowParams, seed: Hash32, n: nat, i: nat): (s: Bytes)
    requires i <= n
    ensures |s| == ITEM * n
  {
    if i == 0 then seq(ITEM * n, _ => 0)
    else
      var before := Filled(p, seed, n, i - 1);
      var item := if i == 1 then p.shake(Ascii("sump/cache") + seed) else p.shake(ItemAt(before, i - 2));
      Patched(before, ITEM * (i - 1), item)
  }

  function XorItems(a: Item, b: Item): Item {
    seq(ITEM, k requires 0 <= k < ITEM => Xor8(a[k], b[k]))
  }

  // Strengthening: item i becomes a hash of its predecessor and a pseudorandom item.
  function Strengthened(p: PowParams, s: Bytes, n: nat, i: nat): (r: Bytes)
    requires n > 0 && |s| == ITEM * n && i <= n
    ensures |r| == |s|
  {
    if i == 0 then s
    else
      var before := Strengthened(p, s, n, i - 1);
      var v := Mod(Lane(before, 16 * (i - 1)), n);
      var j := Mod(i - 1 + n - 1, n);
      Patched(before, ITEM * (i - 1), p.shake(XorItems(ItemAt(before, j), ItemAt(before, v))))
  }

  function Rounds(p: PowParams, s: Bytes, n: nat, rounds: nat): (r: Bytes)
    requires n > 0 && |s| == ITEM * n
    ensures |r| == |s|
  {
    if rounds == 0 then s else Strengthened(p, Rounds(p, s, n, rounds - 1), n, n)
  }

  function CacheOf(p: PowParams, seed: Hash32): (s: Bytes)
    requires p.Valid()
    ensures |s| == ITEM * p.CacheItems()
  {
    var n := p.CacheItems();
    Rounds(p, Filled(p, seed, n, n), n, CACHE_ROUNDS)
  }

  method CopyInto(a: array<byte>, at: nat, part: Bytes)
    requires at + |part| <= a.Length
    modifies a
    ensures a[..] == Patched(old(a[..]), at, part)
  {
    for k := 0 to |part|
      invariant forall i :: 0 <= i < a.Length ==> a[i] == if at <= i < at + k then part[i - at] else old(a[i])
    {
      a[at + k] := part[k];
    }
  }

  method GenCache(p: PowParams, seed: Hash32) returns (cache: array<byte>)
    requires p.Valid()
    ensures fresh(cache) && cache[..] == CacheOf(p, seed)
  {
    hide Ascii, Patched, ItemAt, Strengthened, Filled, Rounds, PowParams.CacheItems;
    var n := p.CacheItems();
    cache := Fill(p, seed, n);
    ghost var start := cache[..];
    assert Rounds(p, start, n, 0) == start by { RoundZero(p, start, n); }
    for round := 0 to CACHE_ROUNDS
      invariant fresh(cache) && cache.Length == ITEM * n
      invariant cache[..] == Rounds(p, start, n, round)
    {
      RoundNext(p, start, n, round);
      Strengthen(p, cache, n);
    }
  }

  lemma RoundZero(p: PowParams, s: Bytes, n: nat)
    requires n > 0 && |s| == ITEM * n
    ensures Rounds(p, s, n, 0) == s
  {
  }

  lemma RoundNext(p: PowParams, s: Bytes, n: nat, round: nat)
    requires n > 0 && |s| == ITEM * n
    ensures Rounds(p, s, n, round + 1) == Strengthened(p, Rounds(p, s, n, round), n, n)
  {
  }

  method Fill(p: PowParams, seed: Hash32, n: nat) returns (cache: array<byte>)
    requires n >= 2
    ensures fresh(cache) && cache[..] == Filled(p, seed, n, n)
  {
    hide Ascii, Patched;
    cache := new byte[ITEM * n](_ => 0);
    var item := p.shake(Ascii("sump/cache") + seed);
    assert cache[..] == Filled(p, seed, n, 0);
    CopyInto(cache, 0, item);
    for i := 1 to n
      invariant fresh(cache) && cache.Length == ITEM * n
      invariant cache[..] == Filled(p, seed, n, i)
    {
      var prev := cache[ITEM * (i - 1)..ITEM * i];
      assert prev == ItemAt(cache[..], i - 1);
      item := p.shake(prev);
      CopyInto(cache, ITEM * i, item);
    }
  }

  // One strengthening round over the whole cache.
  method Strengthen(p: PowParams, cache: array<byte>, n: nat)
    requires n > 0 && cache.Length == ITEM * n
    modifies cache
    ensures cache[..] == Strengthened(p, old(cache[..]), n, n)
  {
    hide Patched, XorItems, ItemAt, Lane, Mod;
    for i := 0 to n
      invariant cache[..] == Strengthened(p, old(cache[..]), n, i)
    {
      var v := Mod(Lane(cache[..], 16 * i), n);
      var j := Mod(i + n - 1, n);
      var buf := XorSlices(cache, j, v, n);
      var item := p.shake(buf);
      CopyInto(cache, ITEM * i, item);
    }
  }

  method XorSlices(cache: array<byte>, j: nat, v: nat, n: nat) returns (buf: Item)
    requires j < n && v < n && cache.Length == ITEM * n
    ensures buf == XorItems(ItemAt(cache[..], j), ItemAt(cache[..], v))
  {
    hide Xor8;
    var b: Bytes := [];
    for k := 0 to ITEM
      invariant |b| == k
      invariant forall l :: 0 <= l < k ==> b[l] == Xor8(cache[ITEM * j + l], cache[ITEM * v + l])
    {
      b := b + [Xor8(cache[ITEM * j + k], cache[ITEM * v + k])];
    }
    buf := b;
  }

  // ----- dataset items -----

  function Indexed(item: Item, i: U64): Item {
    seq(ITEM, k requires 0 <= k < ITEM => if k < 8 then Xor8(item[k], LeBytes(i, 8)[k]) else item[k])
  }

  // The mix of item i after q parents.
  function ItemMix(p: PowParams, cache: Bytes, i: U64, q: nat): Item
    requires p.Valid() && |cache| == ITEM * p.CacheItems() && q <= TWO_32
  {
    var n := p.CacheItems();
    if q == 0 then p.shake(Indexed(ItemAt(cache, Mod(i, n)), i))
    else
      var mix := ItemMix(p, cache, i, q - 1);
      var parent := Mod(Fnv(Xor32(i % TWO_32, q - 1), Lane(mix, (q - 1) % 16)), n);
      Folded(mix, ItemAt(cache, parent), 16)
  }

  function DatasetItem(p: PowParams, cache: Bytes, i: U64): Item
    requires p.Valid() && |cache| == ITEM * p.CacheItems()
  {
    p.shake(ItemMix(p, cache, i, p.parents % TWO_32))
  }

  function PageOf(p: PowParams, cache: Bytes, page: nat): Page
    requires p.Valid() && |cache| == ITEM * p.CacheItems() && page < TWO_32
  {
    DatasetItem(p, cache, 2 * page) + DatasetItem(p, cache, 2 * page + 1)
  }

  // ----- the hash, from the cache alone -----

  function MixSeed(p: PowParams, message: Hash32, nonce: U64): Item {
    p.shake(Ascii("sump/mixseed") + message + LeBytes(nonce, 8))
  }

  function PageIndex(p: PowParams, seed: Item, mix: Page, a: nat): (idx: nat)
    requires p.Valid() && a < TWO_32
    ensures idx < p.Pages() && idx < TWO_32
  {
    FnvModFits(Fnv(Xor32(a, Lane(seed, 0)), Lane(mix, a % 32)), p.Pages());
    Mod(Fnv(Xor32(a, Lane(seed, 0)), Lane(mix, a % 32)), p.Pages())
  }

  lemma FnvModFits(x: U32, n: nat)
    requires n > 0
    ensures Mod(x, n) < TWO_32
  {
    if x < n {
      assert x % n == x;
    }
  }

  // The mix after a accesses.
  function Mixed(p: PowParams, cache: Bytes, seed: Item, a: nat): Page
    requires p.Valid() && |cache| == ITEM * p.CacheItems() && a <= TWO_32
  {
    if a == 0 then seed + seed
    else
      var mix := Mixed(p, cache, seed, a - 1);
      Folded(mix, PageOf(p, cache, PageIndex(p, seed, mix, a - 1)), 32)
  }

  // The first k words of the compressed mix.
  function Compressed(mix: Page, k: nat): (c: Bytes)
    requires k <= 8
    ensures |c| == 4 * k
  {
    if k == 0 then []
    else
      var j := 4 * (k - 1);
      Compressed(mix, k - 1)
      + LeBytes(Fnv(Fnv(Fnv(Lane(mix, j), Lane(mix, j + 1)), Lane(mix, j + 2)), Lane(mix, j + 3)), 4)
  }

  function SumpHash(p: PowParams, cache: Bytes, message: Hash32, nonce: U64): Hash32
    requires p.Valid() && |cache| == ITEM * p.CacheItems()
  {
    var seed := MixSeed(p, message, nonce);
    p.sha3(Ascii("sump/pow/v1") + seed + Compressed(Mixed(p, cache, seed, p.accesses % TWO_32), 8))
  }

  // A hash as a big-endian number.
  function BeValue(s: Bytes): nat {
    if s == [] then 0 else BeValue(s[..|s| - 1]) * 256 + s[|s| - 1]
  }

  // The number a light context of the epoch computes.
  function LightHash(p: PowParams, epoch: nat, message: Hash32, nonce: U64): nat
    requires p.Valid()
  {
    BeValue(SumpHash(p, CacheOf(p, Seed(p, epoch)), message, nonce))
  }

  // ----- the context -----

  method FoldInto(mix: array<byte>, other: Bytes)
    requires mix.Length == |other|
    modifies mix
    ensures mix[..] == Folded(old(mix[..]), other, |other| / 4)
  {
    hide Patched, Lane, Fnv;
    for k := 0 to mix.Length / 4
      invariant mix[..] == Folded(old(mix[..]), other, k)
    {
      var a := Lane(mix[..], k);
      var b := Lane(other, k);
      CopyInto(mix, 4 * k, LeBytes(Fnv(a, b), 4));
    }
  }

  class PowContext {
    const params: PowParams
    const epoch: nat
    const cache: array<byte>
    var dataset: array?<byte>

    // The cache is the epoch's, and a dataset, if there is one, holds exactly the
    // items the cache yields.
    ghost predicate Valid()
      reads this, cache, dataset
    {
      && params.Valid()
      && cache[..] == CacheOf(params, Seed(params, epoch))
      && (dataset != null ==> dataset != cache && Holds(params, cache[..], dataset[..], params.DatasetItems()))
    }

    constructor Light(p: PowParams, epoch: nat)
      requires p.Valid()
      ensures Valid() && params == p && this.epoch == epoch && dataset == null
    {
      hide CacheOf, Seed, Holds;
      var seed := SeedForEpoch(p, epoch);
      var c := GenCache(p, seed);
      params, this.epoch, cache := p, epoch, c;
      dataset := null;
    }

    constructor Full(p: PowParams, epoch: nat)
      requires p.Valid()
      ensures Valid() && params == p && this.epoch == epoch && dataset != null
    {
      hide CacheOf, Seed, Holds;
      var seed := SeedForEpoch(p, epoch);
      var c := GenCache(p, seed);
      params, this.epoch, cache := p, epoch, c;
      dataset := null;
      new;
      GenDataset();
    }

    method ComputeItem(i: U64) returns (item: Item)
      requires params.Valid() && cache.Length == ITEM * params.CacheItems()
      ensures item == DatasetItem(params, cache[..], i)
    {
      hide Folded, Lane, Fnv, Xor8, Xor32, PowParams.CacheItems;
      var n := params.CacheItems();
      var mix := new byte[ITEM];
      var first := IndexItem(i, Mod(i, n));
      CopyInto(mix, 0, params.shake(first));
      assert mix[..] == ItemMix(params, cache[..], i, 0);
      for q := 0 to params.parents % TWO_32
        invariant fresh(mix) && mix.Length == ITEM
        invariant mix[..] == ItemMix(params, cache[..], i, q)
      {
        var lane := Lane(mix[..], q % 16);
        var parent := Mod(Fnv(Xor32(i % TWO_32, q), lane), n);
        FoldInto(mix, cache[ITEM * parent..ITEM * parent + ITEM]);
        assert cache[ITEM * parent..ITEM * parent + ITEM] == ItemAt(cache[..], parent);
      }
      item := params.shake(mix[..]);
    }

    method IndexItem(i: U64, k: nat) returns (item: Item)
      requires ITEM * k + ITEM <= cache.Length
      ensures item == Indexed(ItemAt(cache[..], k), i)
    {
      hide Xor8;
      var mix: Item := cache[ITEM * k..ITEM * k + ITEM];
      assert mix == ItemAt(cache[..], k);
      var ib := LeBytes(i, 8);
      item := mix;
      for b := 0 to 8
        invariant forall l :: 0 <= l < ITEM ==> item[l] == if l < b then Xor8(mix[l], ib[l]) else mix[l]
      {
        item := item[b := Xor8(item[b], ib[b])];
      }
    }

    // Materialise the dataset.
    method GenDataset()
      requires params.Valid() && cache[..] == CacheOf(params, Seed(params, epoch))
      modifies this
      ensures Valid() && fresh(dataset) && dataset != null
    {
      hide CacheOf, Seed, DatasetItem, PowParams.CacheItems, PowParams.DatasetItems;
      var items := params.DatasetItems();
      var ds := new byte[ITEM * items](_ => 0);
      for i := 0 to items
        invariant fresh(ds) && ds != cache && ds.Length == ITEM * items
        invariant cache[..] == CacheOf(params, Seed(params, epoch))
        invariant Holds(params, cache[..], ds[..], i)
      {
        var item := ComputeItem(i % TWO_64);
        ghost var before := ds[..];
        CopyInto(ds, ITEM * i, item);
        HoldsMore(params, cache[..], before, i, item);
      }
      dataset := ds;
    }

    method ReadPage(idx: nat) returns (page: Page)
      requires Valid() && idx < params.Pages() && idx < TWO_32
      ensures page == PageOf(params, cache[..], idx)
    {
      hide CacheOf, Seed, DatasetItem, Holds, PageOf, PowParams.CacheItems, PowParams.DatasetItems;
      PageMeans(params, cache[..], idx);
      if dataset != null {
        HeldPage(params, cache[..], dataset[..], idx);
        page := dataset[PAGE * idx..PAGE * (idx + 1)];
        assert page == dataset[..][PAGE * idx..PAGE * (idx + 1)];
      } else {
        var left: Bytes := ComputeItem(2 * idx);
        var right := ComputeItem(2 * idx + 1);
        page := left + right;
      }
    }

    // With or without a dataset, the hash is the one computed from the cache alone.
    method Compute(message: Hash32, nonce: U64) returns (h: Hash32)
      requires Valid()
      ensures h == SumpHash(params, cache[..], message, nonce)
    {
      hide CacheOf, Seed, Folded, PageOf, Lane, Fnv, Holds, Compressed, PageIndex;
      var seed := MixSeed(params, message, nonce);
      var mix := new byte[PAGE];
      var half: Bytes := seed;
      CopyInto(mix, 0, half + half);
      assert mix[..] == Mixed(params, cache[..], seed, 0);
      for a := 0 to params.accesses % TWO_32
        invariant fresh(mix) && mix.Length == PAGE && Valid()
        invariant mix[..] == Mixed(params, cache[..], seed, a)
      {
        var idx := PageIndex(params, seed, mix[..], a);
        var page := ReadPage(idx);
        FoldInto(mix, page);
      }
      var c := Compress(mix[..]);
      h := params.sha3(Ascii("sump/pow/v1") + seed + c);
    }
  }

  method Compress(mix: Page) returns (c: Bytes)
    ensures c == Compressed(mix, 8)
  {
    hide Lane, Fnv;
    c := [];
    for k := 0 to 8
      invariant c == Compressed(mix, k)
    {
      var j := 4 * k;
      var w := Fnv(Fnv(Fnv(Lane(mix, j), Lane(mix, j + 1)), Lane(mix, j + 2)), Lane(mix, j + 3));
      c := c + LeBytes(w, 4);
    }
  }

  // The first n items of a dataset are those the cache yields.
  ghost predicate Holds(p: PowParams, cache: Bytes, ds: Bytes, n: nat)
    requires p.Valid() && |cache| == ITEM * p.CacheItems()
  {
    && |ds| == ITEM * p.DatasetItems() && n <= p.DatasetItems()
    && forall i :: 0 <= i < n ==> ItemAt(ds, i) == DatasetItem(p, cache, i % TWO_64)
  }

  lemma HoldsMore(p: PowParams, cache: Bytes, ds: Bytes, n: nat, item: Item)
    requires p.Valid() && |cache| == ITEM * p.CacheItems() && n < p.DatasetItems()
    requires Holds(p, cache, ds, n) && item == DatasetItem(p, cache, n % TWO_64)
    ensures Holds(p, cache, Patched(ds, ITEM * n, item), n + 1)
  {
    hide DatasetItem, PowParams.CacheItems, PowParams.DatasetItems;
    var ds' := Patched(ds, ITEM * n, item);
    forall i | 0 <= i < n + 1
      ensures ItemAt(ds', i) == DatasetItem(p, cache, i % TWO_64)
    {
      if i < n {
        assert ItemAt(ds', i) == ItemAt(ds, i);
      } else {
        assert ItemAt(ds', i) == item;
      }
    }
  }

  lemma HeldItems(p: PowParams, cache: Bytes, ds: Bytes, n: nat, i: U64)
    requires p.Valid() && |cache| == ITEM * p.CacheItems() && Holds(p, cache, ds, n) && i < n
    ensures ITEM * i + ITEM <= |ds| && ItemAt(ds, i) == DatasetItem(p, cache, i)
  {
    hide DatasetItem;
  }

  lemma PageMeans(p: PowParams, cache: Bytes, idx: nat)
    requires p.Valid() && |cache| == ITEM * p.CacheItems() && idx < TWO_32
    ensures PageOf(p, cache, idx) == DatasetItem(p, cache, 2 * idx) + DatasetItem(p, cache, 2 * idx + 1)
  {
  }

  // A page of a held dataset is the page the cache yields, and lies inside it.
  lemma HeldPage(p: PowParams, cache: Bytes, ds: Bytes, idx: nat)
    requires p.Valid() && |cache| == ITEM * p.CacheItems() && Holds(p, cache, ds, p.DatasetItems())
    requires idx < p.Pages() && idx < TWO_32
    ensures PAGE * (idx + 1) <= |ds| && ds[PAGE * idx..PAGE * (idx + 1)] == PageOf(p, cache, idx)
  {
    hide DatasetItem, PowParams.CacheItems, Holds;
    assert |ds| == ITEM * p.DatasetItems() by { HeldLength(p, cache, ds, p.DatasetItems()); }
    HeldItems(p, cache, ds, p.DatasetItems(), 2 * idx);
    HeldItems(p, cache, ds, p.DatasetItems(), 2 * idx + 1);
    assert ds[PAGE * idx..PAGE * (idx + 1)] == ItemAt(ds, 2 * idx) + ItemAt(ds, 2 * idx + 1);
  }

  lemma HeldLength(p: PowParams, cache: Bytes, ds: Bytes, n: nat)
    requires p.Valid() && |cache| == ITEM * p.CacheItems() && Holds(p, cache, ds, n)
    ensures |ds| == ITEM * p.DatasetItems() && n <= p.DatasetItems()
  {
    hide DatasetItem;
  }

  // ----- mining -----

  // What a light context of the epoch computes for each nonce.
  function LightHashes(p: PowParams, epoch: nat, message: Hash32): U64 -> nat
    requires p.Valid()
  {
    nonce => LightHash(p, epoch, message, nonce)
  }

  method Mine(ctx: PowContext, message: Hash32, target: nat, start: U64, iters: nat) returns (r: Option<U64>)
    requires ctx.Valid()
    ensures r == FirstHit(LightHashes(ctx.params, ctx.epoch, message), target, start, iters)
  {
    hide CacheOf, Seed, SumpHash, BeValue, Holds;
    ghost var hash := LightHashes(ctx.params, ctx.epoch, message);
    for i := 0 to iters
      invariant FirstHit(hash, target, start, i).None?
    {
      var nonce := (start + i) % TWO_64;
      var h := ctx.Compute(message, nonce);
      assert hash(nonce) == BeValue(h);
      if BeValue(h) <= target {
        HitStays(hash, target, start, i + 1, iters);
        return Some(nonce);
      }
    }
    return None;
  }
}
