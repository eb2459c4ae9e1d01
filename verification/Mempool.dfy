// The pool of unconfirmed transactions and its spend index.
module Mempool {
  import opened Prelude
  import opened Tx
  import opened Ledger
  import opened Conservation
  import opened Tree
  import opened TreeProofs
  import opened Chain
  import opened Joint
  import opened Emission

  const MIN_RELAY_FEE: int := 1_000
  const MIN_FEE_PER_BYTE: int := 1
  const MAX_MEMPOOL_BYTES: int := 64 * 1024 * 1024

  datatype PoolError =
    | PoolDuplicate
    | PoolConflict
    | LowFee(need: nat)
    | PoolFull
    | Invalid(reason: Error)

  type TxMap = map<Hash, Txn>

  ghost function SizeSum(txs: TxMap): nat {
    if txs == map[] then 0
    else
      var id :| id in txs;
      TxSize(txs[id]) + SizeSum(txs - {id})
  }

  lemma {:induction false} SizeRemove(txs: TxMap, id: Hash)
    requires id in txs
    ensures SizeSum(txs) == TxSize(txs[id]) + SizeSum(txs - {id})
    decreases |txs|
  {
    hide TxSize;
    var first :| first in txs && SizeSum(txs) == TxSize(txs[first]) + SizeSum(txs - {first});
    if first != id {
      SizeRemove(txs - {first}, id);
      SizeRemove(txs - {id}, first);
      assert txs - {first} - {id} == txs - {id} - {first};
    }
  }

  lemma SizeInsert(txs: TxMap, id: Hash, tx: Txn)
    requires id !in txs
    ensures SizeSum(txs[id := tx]) == SizeSum(txs) + TxSize(tx)
  {
    hide TxSize;
    SizeRemove(txs[id := tx], id);
    assert txs[id := tx] - {id} == txs;
  }

  // The index is exact: keys are txids, spends is the inverse of the pooled
  // inputs (so no two pooled transactions share one), and bytes is the exact size.
  ghost predicate IndexInv(txs: TxMap, spends: map<Op, Hash>, bytes: nat) {
    && (forall id :: id in txs ==> Txid(txs[id]) == id)
    && (forall id, op :: id in txs && op in txs[id].body.inputs ==> op in spends && spends[op] == id)
    && (forall op :: op in spends ==> spends[op] in txs && op in txs[spends[op]].body.inputs)
    && bytes == SizeSum(txs)
  }

  // A transaction of a block, or one that spends what the block spends.
  predicate Displaced(tx: Txn, block: seq<Txn>) {
    exists i :: 0 <= i < |block| && (Txid(block[i]) == Txid(tx) || ShareInput(tx, block[i]))
  }

  predicate SpendsAny(tx: Txn, inputs: seq<Op>) {
    exists op :: op in inputs && op in tx.body.inputs
  }

  // Why the pool would refuse a transaction, or the fee it pays.
  function Admission(p: Params, u: UtxoMap, height: nat, txs: TxMap, spends: map<Op, Hash>, bytes: nat, tx: Txn): Result<nat, PoolError> {
    if Txid(tx) in txs then Err(PoolDuplicate)
    else if exists op :: op in tx.body.inputs && op in spends then Err(PoolConflict)
    else
      var checked := StandaloneCheck(p, u, height, tx);
      if checked.Err? then Err(Invalid(checked.error))
      else
        var need := if TxSize(tx) * MIN_FEE_PER_BYTE > MIN_RELAY_FEE then TxSize(tx) * MIN_FEE_PER_BYTE else MIN_RELAY_FEE;
        if checked.value < need then Err(LowFee(need))
        else if bytes + TxSize(tx) > MAX_MEMPOOL_BYTES then Err(PoolFull)
        else Ok(checked.value)
  }

  class Pool {
    var txs: TxMap
    var spends: map<Op, Hash>
    var bytes: nat

    ghost predicate Valid()
      reads this
    {
      IndexInv(txs, spends, bytes) && bytes <= MAX_MEMPOOL_BYTES
    }

    constructor ()
      ensures Valid() && txs == map[]
    {
      txs, spends, bytes := map[], map[], 0;
    }

    // Admission: every reason to refuse, then the index.
    method Insert(chain: ChainState, tx: Txn) returns (r: Result<nat, PoolError>)
      requires Valid() && chain.Valid()
      modifies this
      ensures Valid()
      ensures r == Admission(chain.params, chain.utxos, |chain.active|, old(txs), old(spends), old(bytes), tx)
      ensures txs == if r.Ok? then old(txs)[Txid(tx) := tx] else old(txs)
    {
      hide TreeInv, ApplyChain, ActiveChain, ActivePath, StandaloneCheck, TxSize, IndexInv;
      var txid := Txid(tx);
      if txid in txs {
        return Err(PoolDuplicate);
      }
      var conflict := HasConflict(tx.body.inputs);
      if conflict {
        return Err(PoolConflict);
      }
      var size := TxSize(tx);
      var fee := chain.ValidateStandaloneTx(tx);
      if fee.Err? {
        return Err(Invalid(fee.error));
      }
      var need := if size * MIN_FEE_PER_BYTE > MIN_RELAY_FEE then size * MIN_FEE_PER_BYTE else MIN_RELAY_FEE;
      if fee.value < need {
        return Err(LowFee(need));
      }
      if bytes + size > MAX_MEMPOOL_BYTES {
        return Err(PoolFull);
      }
      InsertIndex(txs, spends, bytes, tx);
      Claim(tx.body.inputs, txid);
      bytes := bytes + size;
      txs := txs[txid := tx];
      return Ok(fee.value);
    }

    method HasConflict(inputs: seq<Op>) returns (conflict: bool)
      ensures conflict <==> exists op :: op in inputs && op in spends
    {
      for i := 0 to |inputs|
        invariant forall k :: 0 <= k < i ==> inputs[k] !in spends
      {
        if inputs[i] in spends {
          assert inputs[i] in inputs;
          return true;
        }
      }
      return false;
    }

    // Record a transaction as the spender of its inputs.
    method Claim(inputs: seq<Op>, txid: Hash)
      modifies this`spends
      ensures spends == Claimed(old(spends), inputs, txid)
    {
      for i := 0 to |inputs|
        invariant spends == Claimed(old(spends), inputs[..i], txid)
      {
        spends := spends[inputs[i] := txid];
        assert inputs[..i + 1] == inputs[..i] + [inputs[i]];
      }
      assert inputs[..|inputs|] == inputs;
    }

    method Remove(txid: Hash)
      requires Valid()
      modifies this
      ensures Valid()
      ensures txs == old(txs) - {txid}
    {
      hide IndexInv, TxSize;
      if txid in txs {
        var tx := txs[txid];
        RemoveIndex(txs, spends, bytes, txid);
        txs := txs - {txid};
        bytes := SaturatingSub(bytes, TxSize(tx));
        for i := 0 to |tx.body.inputs|
          invariant txs == old(txs) - {txid} && bytes == old(bytes) - TxSize(tx)
          invariant spends == Freed(old(spends), tx.body.inputs[..i])
        {
          spends := spends - {tx.body.inputs[i]};
          assert tx.body.inputs[..i + 1] == tx.body.inputs[..i] + [tx.body.inputs[i]];
        }
        assert tx.body.inputs[..|tx.body.inputs|] == tx.body.inputs;
      } else {
        assert txs == txs - {txid};
      }
    }

    // Drop what a connected block includes or conflicts with, then re-validate
    // the survivors against the new tip.
    method UpdateForBlock(chain: ChainState, block: Blk)
      requires Valid() && chain.Valid()
      modifies this
      ensures Valid()
      ensures txs == map id | id in old(txs)
                       && !Displaced(old(txs)[id], block.transactions)
                       && StandaloneCheck(chain.params, chain.utxos, |chain.active|, old(txs)[id]).Ok? :: old(txs)[id]
    {
      hide TreeInv, ApplyChain, ActiveChain, ActivePath, StandaloneCheck, IndexInv, Displaced;
      IndexNames(txs, spends, bytes);
      NoneDisplaced(txs);
      for i := 0 to |block.transactions|
        invariant Valid()
        invariant txs == map id | id in old(txs) && !Displaced(old(txs)[id], block.transactions[..i]) :: old(txs)[id]
      {
        DisplacedSnoc(old(txs), block.transactions, i);
        DropFor(block.transactions[i]);
      }
      assert block.transactions[..|block.transactions|] == block.transactions;
      Revalidate(chain);
    }

    method Revalidate(chain: ChainState)
      requires Valid() && chain.Valid()
      modifies this
      ensures Valid()
      ensures txs == map id | id in old(txs)
                       && StandaloneCheck(chain.params, chain.utxos, |chain.active|, old(txs)[id]).Ok? :: old(txs)[id]
    {
      hide TreeInv, ApplyChain, ActiveChain, ActivePath, StandaloneCheck, IndexInv;
      var ids := txs.Keys;
      while ids != {}
        invariant Valid() && ids <= old(txs).Keys
        invariant txs == map id | id in old(txs)
                    && (id in ids || StandaloneCheck(chain.params, chain.utxos, |chain.active|, old(txs)[id]).Ok?) :: old(txs)[id]
        decreases |ids|
      {
        var id :| id in ids;
        ids := ids - {id};
        var checked := chain.ValidateStandaloneTx(txs[id]);
        if checked.Err? {
          Remove(id);
        }
      }
    }

    // Drop a confirmed transaction and everything that spends one of its inputs.
    method DropFor(tx: Txn)
      requires Valid()
      modifies this
      ensures Valid()
      ensures txs == map id | id in old(txs) && id != Txid(tx) && !ShareInput(old(txs)[id], tx) :: old(txs)[id]
    {
      hide IndexInv, ShareInput;
      Remove(Txid(tx));
      ghost var start := txs;
      var ins := tx.body.inputs;
      assert txs == Unspending(start, ins[..0]);
      for k := 0 to |ins|
        invariant Valid()
        invariant txs == Unspending(start, ins[..k])
      {
        IndexFinds(txs, spends, bytes, ins[k]);
        UnspendingSnoc(start, ins, k, if ins[k] in spends then {spends[ins[k]]} else {});
        if ins[k] in spends {
          Remove(spends[ins[k]]);
        }
      }
      assert ins[..|ins|] == ins;
      UnspendingAll(start, tx);
    }
  }

  function SaturatingSub(a: nat, b: nat): nat {
    if a >= b then a - b else 0
  }

  // The index after claiming or freeing outpoints.
  function Claimed(spends: map<Op, Hash>, inputs: seq<Op>, txid: Hash): map<Op, Hash> {
    map op | op in spends.Keys + (set x | x in inputs) :: if op in inputs then txid else spends[op]
  }

  function Freed(spends: map<Op, Hash>, inputs: seq<Op>): map<Op, Hash> {
    map op | op in spends && op !in inputs :: spends[op]
  }

  // The transactions that spend none of the given outpoints.
  function Unspending(txs: TxMap, inputs: seq<Op>): TxMap {
    map id | id in txs && !SpendsAny(txs[id], inputs) :: txs[id]
  }

  lemma InsertIndex(txs: TxMap, spends: map<Op, Hash>, bytes: nat, tx: Txn)
    requires IndexInv(txs, spends, bytes) && Txid(tx) !in txs
    requires forall op :: op in tx.body.inputs ==> op !in spends
    ensures IndexInv(txs[Txid(tx) := tx], Claimed(spends, tx.body.inputs, Txid(tx)), bytes + TxSize(tx))
  {
    hide TxSize, SizeSum;
    SizeInsert(txs, Txid(tx), tx);
  }

  lemma RemoveIndex(txs: TxMap, spends: map<Op, Hash>, bytes: nat, txid: Hash)
    requires IndexInv(txs, spends, bytes) && txid in txs
    ensures bytes >= TxSize(txs[txid])
    ensures IndexInv(txs - {txid}, Freed(spends, txs[txid].body.inputs), bytes - TxSize(txs[txid]))
  {
    hide TxSize, SizeSum;
    SizeRemove(txs, txid);
    var txs', spends' := txs - {txid}, Freed(spends, txs[txid].body.inputs);
    forall id, op | id in txs' && op in txs'[id].body.inputs
      ensures op in spends' && spends'[op] == id
    {
      PoolDisjoint(txs, spends, bytes, id, txid);
    }
  }

  lemma UnspendingSnoc(txs: TxMap, ins: seq<Op>, k: nat, spenders: set<Hash>)
    requires k < |ins|
    requires forall id :: id in Unspending(txs, ins[..k]) && ins[k] in txs[id].body.inputs <==>
               id in Unspending(txs, ins[..k]) && id in spenders
    ensures Unspending(txs, ins[..k + 1]) == Unspending(txs, ins[..k]) - spenders
  {
    assert ins[..k + 1] == ins[..k] + [ins[k]];
  }

  lemma UnspendingAll(txs: TxMap, tx: Txn)
    ensures Unspending(txs, tx.body.inputs) == map id | id in txs && !ShareInput(txs[id], tx) :: txs[id]
  {
  }

  // No outpoint is spent by two pooled transactions.
  lemma PoolDisjoint(txs: TxMap, spends: map<Op, Hash>, bytes: nat, a: Hash, b: Hash)
    requires IndexInv(txs, spends, bytes) && a in txs && b in txs && a != b
    ensures !ShareInput(txs[a], txs[b])
  {
    hide SizeSum;
    forall op | op in txs[a].body.inputs
      ensures op !in txs[b].body.inputs
    {
      assert spends[op] == a;
    }
  }

  // The index names the one pooled transaction that spends an outpoint.
  lemma IndexFinds(txs: TxMap, spends: map<Op, Hash>, bytes: nat, op: Op)
    requires IndexInv(txs, spends, bytes)
    ensures forall id :: id in txs && op in txs[id].body.inputs <==> op in spends && id == spends[op]
  {
  }

  lemma IndexNames(txs: TxMap, spends: map<Op, Hash>, bytes: nat)
    requires IndexInv(txs, spends, bytes)
    ensures forall id :: id in txs ==> Txid(txs[id]) == id
  {
  }

  lemma NoneDisplaced(txs: TxMap)
    ensures forall id :: id in txs ==> !Displaced(txs[id], [])
  {
  }

  lemma DisplacedSnoc(txs: TxMap, block: seq<Txn>, i: nat)
    requires i < |block| && forall id :: id in txs ==> Txid(txs[id]) == id
    ensures forall id :: id in txs ==>
              (Displaced(txs[id], block[..i + 1]) <==>
                 Displaced(txs[id], block[..i]) || id == Txid(block[i]) || ShareInput(txs[id], block[i]))
  {
  }

  // ----- joint validity -----

  ghost predicate PoolCurrent(p: Params, u: UtxoMap, height: nat, txs: TxMap) {
    forall id :: id in txs ==> StandaloneCheck(p, u, height, txs[id]).Ok?
  }

  // Any selection of pooled transactions, in any order.
  ghost predicate Drawn(txs: TxMap, chosen: seq<Txn>) {
    && (forall tx :: tx in chosen ==> Txid(tx) in txs && txs[Txid(tx)] == tx)
    && (forall i, j :: 0 <= i < j < |chosen| ==> Txid(chosen[i]) != Txid(chosen[j]))
  }

  // Any subset of an indexed, current pool, in any order, applies in the next
  // block, each transaction paying the fee it was admitted with.
  lemma PoolApplies(p: Params, t: BlockTree, txs: TxMap, spends: map<Op, Hash>, bytes: nat, chosen: seq<Txn>)
    requires p.Valid() && TreeInv(p, t)
    requires IndexInv(txs, spends, bytes) && bytes <= MAX_MEMPOOL_BYTES
    requires PoolCurrent(p, TipTotals(p, t).utxos, |ActivePath(p, t)|, txs) && Drawn(txs, chosen)
    ensures var u, h := TipTotals(p, t).utxos, |ActivePath(p, t)|;
            && (forall tx :: tx in chosen ==> Admissible(p, u, h, tx))
            && ApplyTxs(p, u, chosen, h, |chosen|).Ok?
            && ApplyTxs(p, u, chosen, h, |chosen|).value.fees == FeeSum(p, u, h, chosen)
    ensures DistinctTxids(chosen)
  {
    hide TreeInv, ActiveChain, ActivePath, ApplyChain, ApplyTxs, CheckTx, TxSize, SizeSum, LedgerInv, Total, Burned, RewardSum;
    var u, h, chain := TipTotals(p, t).utxos, |ActivePath(p, t)|, ActiveChain(p, t);
    ActiveNumbered(p, t);
    SupplyExact(p, chain);
    RewardSumFits(|chain|);
    forall tx | tx in chosen
      ensures Admissible(p, u, h, tx)
    {
      SizeRemove(txs, Txid(tx));
      TxOutputsFit(tx);
    }
    forall i, j | 0 <= i < j < |chosen|
      ensures !ShareInput(chosen[i], chosen[j])
    {
      assert chosen[i] in chosen && chosen[j] in chosen;
      PoolDisjoint(txs, spends, bytes, Txid(chosen[i]), Txid(chosen[j]));
    }
    JointlyValid(p, u, Created(chain), h, chosen);
  }
}
