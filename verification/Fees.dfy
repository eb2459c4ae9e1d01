// What a transaction pays: the same on every chain that can still include it, so what
// the pool demanded at admission stays paid across blocks and reorganisations.
module Fees {
  import opened Prelude
  import opened Tx
  import opened Ledger
  import opened Conservation
  import opened Tree
  import opened TreeProofs
  import opened Chain
  import opened Unspent
  import opened Mempool
  import opened Joint

  // ----- a fee does not depend on the chain -----

  // An output that two valid chains both hold unspent is one and the same, since its
  // transaction id commits to it.
  lemma SameOutput(p: Params, a: seq<Blk>, b: seq<Blk>, op: Op)
    requires ApplyChain(p, a).Ok? && forall x :: x in a ==> NumberedBlock(x)
    requires ApplyChain(p, b).Ok? && forall x :: x in b ==> NumberedBlock(x)
    requires op in ApplyChain(p, a).value.utxos && op in ApplyChain(p, b).value.utxos
    ensures ApplyChain(p, a).value.utxos[op].output == ApplyChain(p, b).value.utxos[op].output
  {
    hide ApplyChain, History, Recorded, SpentIn;
    var ua, ub := ApplyChain(p, a).value.utxos, ApplyChain(p, b).value.utxos;
    UnspentExactly(p, a);
    UnspentExactly(p, b);
    assert Unspent.Unspent(ua, op, ua[op]) && Unspent.Unspent(ub, op, ub[op]);
    var i :| 0 <= i < |History(a)| && Makes(History(a)[i], op, ua[op]);
    var j :| 0 <= j < |History(b)| && Makes(History(b)[j], op, ub[op]);
  }

  lemma {:induction false} SameInputs(u: UtxoMap, v: UtxoMap, inputs: seq<Op>)
    requires forall op :: op in inputs ==> op in u && op in v && u[op].output == v[op].output
    ensures InputSum(u, inputs) == InputSum(v, inputs)
  {
    if inputs != [] {
      assert inputs[|inputs| - 1] in inputs;
      SameInputs(u, v, inputs[..|inputs| - 1]);
    }
  }

  // What a transaction spends less what it creates: the fee wherever it is valid.
  lemma FeeMeaning(p: Params, u: UtxoMap, height: nat, tx: Txn)
    ensures StandaloneCheck(p, u, height, tx).Ok? <==> SpendRules(p, tx, height, u)
    ensures SpendRules(p, tx, height, u) ==>
              StandaloneCheck(p, u, height, tx).value == InputSum(u, tx.body.inputs) - OutputSum(tx.body.outputs)
  {
    hide CheckTx, MaySpend, OutputSum, InputSum, AllDistinct;
    CheckTxMeaning(p, tx, height, u);
  }

  // A transaction valid on the tips of two trees pays the same fee on both.
  lemma FeeFixed(p: Params, a: BlockTree, b: BlockTree, ha: nat, hb: nat, tx: Txn)
    requires p.Valid() && TreeInv(p, a) && TreeInv(p, b)
    requires StandaloneCheck(p, TipTotals(p, a).utxos, ha, tx).Ok? && StandaloneCheck(p, TipTotals(p, b).utxos, hb, tx).Ok?
    ensures StandaloneCheck(p, TipTotals(p, a).utxos, ha, tx) == StandaloneCheck(p, TipTotals(p, b).utxos, hb, tx)
  {
    hide TreeInv, ActiveChain, ApplyChain, StandaloneCheck, MaySpend, OutputSum, InputSum, AllDistinct;
    var u, v := TipTotals(p, a).utxos, TipTotals(p, b).utxos;
    ActiveNumbered(p, a);
    ActiveNumbered(p, b);
    FeeMeaning(p, u, ha, tx);
    FeeMeaning(p, v, hb, tx);
    forall op | op in tx.body.inputs
      ensures u[op].output == v[op].output
    {
      SameOutput(p, ActiveChain(p, a), ActiveChain(p, b), op);
    }
    SameInputs(u, v, tx.body.inputs);
  }

  // ----- what the pool demands -----

  // At least one unit for each byte, and at least a thousand.
  predicate PaysRelay(tx: Txn, fee: nat) {
    fee >= TxSize(tx) && fee >= 1000
  }

  // Every pooled transaction is valid in the next block and pays its way there.
  ghost predicate PoolPaid(p: Params, u: UtxoMap, height: nat, txs: TxMap) {
    forall id :: id in txs ==>
      StandaloneCheck(p, u, height, txs[id]).Ok? && PaysRelay(txs[id], StandaloneCheck(p, u, height, txs[id]).value)
  }

  // Admission, both ways: a transaction enters exactly when it is new, spends nothing
  // that a pooled one spends, obeys the rules of a spend in the next block, pays its
  // way and fits; it enters with the fee it pays.
  lemma AdmissionMeaning(p: Params, u: UtxoMap, height: nat, txs: TxMap, spends: map<Op, Hash>, bytes: nat, tx: Txn)
    requires IndexInv(txs, spends, bytes)
    ensures var r := Admission(p, u, height, txs, spends, bytes, tx);
            && (r.Ok? <==>
                  && Txid(tx) !in txs
                  && (forall id :: id in txs ==> !ShareInput(tx, txs[id]))
                  && SpendRules(p, tx, height, u)
                  && PaysRelay(tx, InputSum(u, tx.body.inputs) - OutputSum(tx.body.outputs))
                  && SizeSum(txs) + TxSize(tx) <= 67_108_864)
            && (r.Ok? ==> r.value == InputSum(u, tx.body.inputs) - OutputSum(tx.body.outputs))
            && (r == Err(PoolDuplicate) <==> Txid(tx) in txs)
            && (r == Err(PoolConflict) <==> Txid(tx) !in txs && exists id :: id in txs && ShareInput(tx, txs[id]))
  {
    hide StandaloneCheck, SpendRules, OutputSum, InputSum, TxSize, SizeSum;
    FeeMeaning(p, u, height, tx);
    SpenderIndexed(txs, spends, bytes, tx);
  }

  // An input is in the index exactly when a pooled transaction shares it.
  lemma SpenderIndexed(txs: TxMap, spends: map<Op, Hash>, bytes: nat, tx: Txn)
    requires IndexInv(txs, spends, bytes)
    ensures (exists op :: op in tx.body.inputs && op in spends) <==> (exists id :: id in txs && ShareInput(tx, txs[id]))
  {
    hide SizeSum;
    if op :| op in tx.body.inputs && op in spends {
      assert ShareInput(tx, txs[spends[op]]);
    }
  }

  // Admission keeps every pooled transaction paid.
  lemma AdmittedPays(p: Params, u: UtxoMap, height: nat, txs: TxMap, spends: map<Op, Hash>, bytes: nat, tx: Txn)
    requires PoolPaid(p, u, height, txs) && Admission(p, u, height, txs, spends, bytes, tx).Ok?
    ensures PoolPaid(p, u, height, txs[Txid(tx) := tx])
  {
    hide StandaloneCheck, TxSize;
  }

  // So does any change of the tip, for what stays in the pool.
  lemma SurvivorsPay(p: Params, a: BlockTree, b: BlockTree, before: TxMap, after: TxMap)
    requires p.Valid() && TreeInv(p, a) && TreeInv(p, b)
    requires PoolPaid(p, TipTotals(p, a).utxos, |ActivePath(p, a)|, before)
    requires forall id :: id in after ==> id in before && after[id] == before[id]
    requires PoolCurrent(p, TipTotals(p, b).utxos, |ActivePath(p, b)|, after)
    ensures PoolPaid(p, TipTotals(p, b).utxos, |ActivePath(p, b)|, after)
  {
    hide TreeInv, ActivePath, TipTotals, StandaloneCheck, TxSize;
    forall id | id in after
      ensures PaysRelay(after[id], StandaloneCheck(p, TipTotals(p, b).utxos, |ActivePath(p, b)|, after[id]).value)
    {
      FeeFixed(p, a, b, |ActivePath(p, a)|, |ActivePath(p, b)|, after[id]);
    }
  }
}
