// A nonce mined on a full dataset passes the node's light check.
module PowCheck {
  import opened Prelude
  import opened Tx
  import opened Codec
  import opened Preimages
  import opened Ledger
  import opened Tree
  import opened Nonce
  import opened Pow
  import Compact

  // The chain's proof-of-work hash is the light computation on the hashed message.
  ghost predicate UsesSumpHash(p: Params, pow: PowParams) {
    pow.Valid()
    && forall epoch, m, nonce :: p.powHash(epoch, m, nonce) == LightHash(pow, epoch, Concrete(pow.sha3, m), nonce)
  }

  // Search on a context with or without a dataset; what it finds is accepted, and
  // every nonce before it would have been refused.
  method MineHeader(p: Params, ctx: PowContext, header: Header, height: nat, start: U64, iters: nat) returns (nonce: Option<U64>)
    requires p.Valid() && ctx.Valid() && UsesSumpHash(p, ctx.params) && ctx.epoch == height / p.epochLength
    requires Compact.BitsToTarget(header.bits).Some? && Compact.BitsToTarget(header.bits).value <= p.powLimit
    ensures nonce.Some? ==> CheckPow(p, header.(nonce := nonce.value), height).Ok?
    ensures nonce.None? ==>
              forall k: nat :: k < iters ==> CheckPow(p, header.(nonce := Nth(start, k)), height) == Err(BadPow)
    ensures nonce.Some? ==>
              exists k: nat :: k < iters && nonce.value == Nth(start, k)
                && forall j: nat :: j < k ==> CheckPow(p, header.(nonce := Nth(start, j)), height) == Err(BadPow)
  {
    hide LightHash, Concrete, Compact.BitsToTarget, PowContext.Valid, FirstHit;
    var target := Compact.BitsToTarget(header.bits).value;
    var message := Concrete(ctx.params.sha3, PowMessage(header));
    nonce := Mine(ctx, message, target, start, iters);
    FirstHitIsFirst(LightHashes(ctx.params, ctx.epoch, message), target, start, iters);
    forall n: U64
      ensures CheckPow(p, header.(nonce := n), height)
              == if LightHashes(ctx.params, ctx.epoch, message)(n) <= target then Ok(()) else Err(BadPow)
    {
      LightCheck(p, ctx.params, header, n, height);
    }
  }

  lemma LightCheck(p: Params, pow: PowParams, header: Header, nonce: U64, height: nat)
    requires p.Valid() && UsesSumpHash(p, pow)
    requires Compact.BitsToTarget(header.bits).Some? && Compact.BitsToTarget(header.bits).value <= p.powLimit
    ensures CheckPow(p, header.(nonce := nonce), height)
            == if LightHashes(pow, height / p.epochLength, Concrete(pow.sha3, PowMessage(header)))(nonce)
                  <= Compact.BitsToTarget(header.bits).value
               then Ok(()) else Err(BadPow)
  {
    hide LightHash, Concrete, Compact.BitsToTarget;
    assert PowMessage(header.(nonce := nonce)) == PowMessage(header);
  }
}
