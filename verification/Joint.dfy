// Spends that are valid on their own and share no inputs are valid together, in
// any order, in one block.
module Joint {
  import opened Prelude
  import opened Tx
  import opened Ledger
  import opened Conservation

  predicate ShareInput(a: Txn, b: Txn) {
    exists op :: op in a.body.inputs && op in b.body.inputs
  }

  ghost predicate Independent(txs: seq<Txn>) {
    forall i, j :: 0 <= i < j < |txs| ==> !ShareInput(txs[i], txs[j])
  }

  // Valid on its own in the next block, and small enough to number its outputs.
  ghost predicate Admissible(p: Params, u: UtxoMap, height: nat, tx: Txn) {
    && !tx.body.IsCoinbase()
    && CheckTx(p, tx, height, u).Ok?
    && Numbered(tx)
  }

  ghost function FeeSum(p: Params, u: UtxoMap, height: nat, txs: seq<Txn>): nat
    requires forall tx :: tx in txs ==> Admissible(p, u, height, tx)
  {
    if txs == [] then 0
    else
      var n := |txs| - 1;
      assert txs[n] in txs && Admissible(p, u, height, txs[n]);
      FeeSum(p, u, height, txs[..n]) + CheckTx(p, txs[n], height, u).value
  }

  // A check sees only the outputs its transaction spends.
  lemma {:induction false} CheckInputsFrame(p: Params, tx: Txn, height: nat, u: UtxoMap, u': UtxoMap, n: nat)
    requires n <= |tx.body.inputs| == |tx.witnesses|
    requires forall op :: op in tx.body.inputs ==> Lookup(u, op) == Lookup(u', op)
    ensures CheckInputs(p, tx, height, u, n) == CheckInputs(p, tx, height, u', n)
  {
    hide CheckInput, Lookup;
    if n > 0 {
      CheckInputsFrame(p, tx, height, u, u', n - 1);
      assert tx.body.inputs[n - 1] in tx.body.inputs;
    }
  }

  lemma CheckTxFrame(p: Params, tx: Txn, height: nat, u: UtxoMap, u': UtxoMap)
    requires forall op :: op in tx.body.inputs ==> Lookup(u, op) == Lookup(u', op)
    ensures CheckTx(p, tx, height, u) == CheckTx(p, tx, height, u')
  {
    hide CheckInputs, Lookup;
    if CheckShape(tx).Ok? {
      CheckInputsFrame(p, tx, height, u, u', |tx.body.inputs|);
    }
  }

  // Every output of u that no transaction of txs spends is still there in u'.
  ghost predicate Untouched(u: UtxoMap, u': UtxoMap, txs: seq<Txn>) {
    forall op :: op in u && (forall tx :: tx in txs ==> op !in tx.body.inputs) ==> Lookup(u', op) == Some(u[op])
  }

  lemma ApplyTxUntouched(u: UtxoMap, u': UtxoMap, txs: seq<Txn>, tx: Txn, height: nat)
    requires Untouched(u, u', txs)
    requires forall op :: op in u' ==> op.txid != Txid(tx)
    ensures Untouched(u, ApplyTx(u', tx, height, false), txs + [tx])
  {
    CreateKeeps(Spend(u', tx.body.inputs), Txid(tx), tx.body.outputs, height, false, |tx.body.outputs|);
    forall op | op in u && (forall t :: t in txs + [tx] ==> op !in t.body.inputs)
      ensures Lookup(ApplyTx(u', tx, height, false), op) == Some(u[op])
    {
      assert tx in txs + [tx];
      assert forall t :: t in txs ==> t in txs + [tx];
      assert Lookup(u', op) == Some(u[op]);
      assert op in Spend(u', tx.body.inputs);
    }
  }

  lemma {:induction false} JointStep(p: Params, u: UtxoMap, created: set<Hash>, height: nat, txs: seq<Txn>, n: nat)
    requires n <= |txs| && LedgerInv(u, created, height) && Total(u) < TWO_64
    requires Independent(txs) && forall tx :: tx in txs ==> Admissible(p, u, height, tx)
    ensures forall tx :: tx in txs[..n] ==> Admissible(p, u, height, tx)
    ensures ApplyTxs(p, u, txs, height, n).Ok?
    ensures Untouched(u, ApplyTxs(p, u, txs, height, n).value.utxos, txs[..n])
    ensures ApplyTxs(p, u, txs, height, n).value.fees == FeeSum(p, u, height, txs[..n])
  {
    hide CheckTx, ApplyTx, LedgerInv, Total, Untouched;
    if n == 0 {
      assert Untouched(u, u, []) by { UntouchedNone(u); }
    } else {
      JointStep(p, u, created, height, txs, n - 1);
      var tx, before := txs[n - 1], ApplyTxs(p, u, txs, height, n - 1).value;
      assert tx in txs;
      assert txs[..n] == txs[..n - 1] + [tx];
      assert txs[..n][..n - 1] == txs[..n - 1];
      assert forall t :: t in txs ==> Numbered(t);
      InputsStillThere(p, u, height, txs, n, before.utxos);
      ApplyTxsKeeps(p, u, created, txs, height, n - 1);
      NewSpend(p, before.utxos, created + TxidSet(txs[..n - 1]), height, tx);
      ApplyTxUntouched(u, before.utxos, txs[..n - 1], tx, height);
    }
  }

  lemma UntouchedNone(u: UtxoMap)
    ensures Untouched(u, u, [])
  {
  }

  lemma InputsStillThere(p: Params, u: UtxoMap, height: nat, txs: seq<Txn>, n: nat, u': UtxoMap)
    requires 0 < n <= |txs| && Independent(txs) && Untouched(u, u', txs[..n - 1])
    requires CheckTx(p, txs[n - 1], height, u).Ok?
    ensures CheckTx(p, txs[n - 1], height, u') == CheckTx(p, txs[n - 1], height, u)
  {
    var tx := txs[n - 1];
    CheckTxMeaning(p, tx, height, u);
    forall op | op in tx.body.inputs
      ensures Lookup(u, op) == Lookup(u', op)
    {
      forall t | t in txs[..n - 1]
        ensures op !in t.body.inputs
      {
        var i :| 0 <= i < n - 1 && txs[i] == t;
        assert !ShareInput(txs[i], txs[n - 1]);
      }
    }
    CheckTxFrame(p, tx, height, u, u');
  }

  lemma NewSpend(p: Params, u: UtxoMap, created: set<Hash>, height: nat, tx: Txn)
    requires LedgerInv(u, created, height) && Numbered(tx) && CheckTx(p, tx, height, u).Ok?
    ensures forall op :: op in u ==> op.txid != Txid(tx)
    ensures CheckTx(p, tx, height, u).value <= Total(u)
  {
    ApplySpend(p, u, created, height, tx);
  }

  // Independent admissible spends all apply in one block, each paying the fee it
  // pays on its own.
  lemma JointlyValid(p: Params, u: UtxoMap, created: set<Hash>, height: nat, txs: seq<Txn>)
    requires LedgerInv(u, created, height) && Total(u) < TWO_64
    requires Independent(txs) && forall tx :: tx in txs ==> Admissible(p, u, height, tx)
    ensures ApplyTxs(p, u, txs, height, |txs|).Ok?
    ensures ApplyTxs(p, u, txs, height, |txs|).value.fees == FeeSum(p, u, height, txs) <= Total(u)
  {
    hide CheckTx, ApplyTx, LedgerInv, Total, Untouched;
    JointStep(p, u, created, height, txs, |txs|);
    ApplyTxsKeeps(p, u, created, txs, height, |txs|);
    assert txs[..|txs|] == txs;
  }

  // Independent spends have distinct txids.
  lemma IndependentDistinct(txs: seq<Txn>)
    requires Independent(txs) && forall tx :: tx in txs ==> !tx.body.IsCoinbase()
    ensures DistinctTxids(txs)
  {
    forall i, j | 0 <= i < j < |txs|
      ensures Txid(txs[i]) != Txid(txs[j])
    {
      assert txs[i] in txs;
      assert txs[i].body.inputs[0] in txs[i].body.inputs;
      assert !ShareInput(txs[i], txs[j]);
    }
  }
}
