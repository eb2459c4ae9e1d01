// Nonce search: the first nonce, counting up with 64-bit wrap-around, whose hash
// meets the target.
module Nonce {
  import opened Prelude

  function Nth(start: U64, k: nat): U64 {
    (start + k) % TWO_64
  }

  function FirstHit(hash: U64 -> nat, target: nat, start: U64, iters: nat): Option<U64> {
    if iters == 0 then None
    else
      var earlier := FirstHit(hash, target, start, iters - 1);
      if earlier.Some? then earlier
      else if hash(Nth(start, iters - 1)) <= target then Some(Nth(start, iters - 1))
      else None
  }

  // Some: a hit, with no hit before it.  None: no hit among the nonces searched.
  lemma {:induction false} FirstHitIsFirst(hash: U64 -> nat, target: nat, start: U64, iters: nat)
    ensures FirstHit(hash, target, start, iters).Some? ==>
              exists k :: 0 <= k < iters && HitAt(hash, target, start, k)
                && FirstHit(hash, target, start, iters).value == Nth(start, k)
    ensures FirstHit(hash, target, start, iters).None? ==> NoHitBefore(hash, target, start, iters)
  {
    if iters > 0 {
      FirstHitIsFirst(hash, target, start, iters - 1);
      if FirstHit(hash, target, start, iters - 1).None? && hash(Nth(start, iters - 1)) <= target {
        assert HitAt(hash, target, start, iters - 1);
      }
    }
  }

  ghost predicate NoHitBefore(hash: U64 -> nat, target: nat, start: U64, k: nat) {
    forall j: nat :: j < k ==> hash(Nth(start, j)) > target
  }

  ghost predicate HitAt(hash: U64 -> nat, target: nat, start: U64, k: nat) {
    hash(Nth(start, k)) <= target && NoHitBefore(hash, target, start, k)
  }

  lemma {:induction false} HitStays(hash: U64 -> nat, target: nat, start: U64, i: nat, n: nat)
    requires i <= n && FirstHit(hash, target, start, i).Some?
    ensures FirstHit(hash, target, start, n) == FirstHit(hash, target, start, i)
  {
    if i < n {
      HitStays(hash, target, start, i, n - 1);
    }
  }
}
