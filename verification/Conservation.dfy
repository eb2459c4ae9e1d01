// What validation conserves: no outpoint is ever created twice, value is neither
// made nor lost beyond the coinbase, and issuance stays under the cap.
module Conservation {
  import opened Prelude
  import opened Tx
  import opened Emission
  import opened Ledger
  import opened LittleEndian

  // ----- sums over the unspent outputs -----

  ghost function Total(u: UtxoMap): nat {
    if u == map[] then 0
    else
      var op :| op in u;
      u[op].output.amount + Total(u - {op})
  }

  lemma {:induction false} TotalRemove(u: UtxoMap, op: Op)
    requires op in u
    ensures Total(u) == u[op].output.amount + Total(u - {op})
    decreases |u|
  {
    var first :| first in u && Total(u) == u[first].output.amount + Total(u - {first});
    if first != op {
      TotalRemove(u - {first}, op);
      TotalRemove(u - {op}, first);
      assert u - {first} - {op} == u - {op} - {first};
    }
  }

  lemma TotalInsert(u: UtxoMap, op: Op, x: Utxo)
    requires op !in u
    ensures Total(u[op := x]) == Total(u) + x.output.amount
  {
    TotalRemove(u[op := x], op);
    assert u[op := x] - {op} == u;
  }

  ghost function InputSum(u: UtxoMap, inputs: seq<Op>): nat
    requires forall op :: op in inputs ==> op in u
  {
    if inputs == [] then 0
    else InputSum(u, inputs[..|inputs| - 1]) + u[inputs[|inputs| - 1]].output.amount
  }

  ghost function OutputSum(outs: seq<TxOutput>): nat {
    if outs == [] then 0 else OutputSum(outs[..|outs| - 1]) + outs[|outs| - 1].amount
  }

  predicate AllDistinct(inputs: seq<Op>) {
    forall i, j :: 0 <= i < j < |inputs| ==> inputs[i] != inputs[j]
  }

  lemma {:induction false} TotalSpend(u: UtxoMap, inputs: seq<Op>)
    requires AllDistinct(inputs) && forall op :: op in inputs ==> op in u
    ensures Total(u) == Total(Spend(u, inputs)) + InputSum(u, inputs)
  {
    if inputs == [] {
      assert Spend(u, inputs) == u;
    } else {
      var n := |inputs| - 1;
      var u' := Spend(u, inputs[..n]);
      TotalSpend(u, inputs[..n]);
      assert inputs == inputs[..n] + [inputs[n]];
      TotalRemove(u', inputs[n]);
      assert Spend(u, inputs) == u' - {inputs[n]};
    }
  }

  // The outpoints that creating n outputs adds.
  ghost function NewOps(txid: Hash, n: nat): set<Op>
    requires n <= TWO_32
  {
    set i | 0 <= i < n :: OutPoint(txid, i)
  }

  lemma {:induction false} CreateKeys(u: UtxoMap, txid: Hash, outs: seq<TxOutput>, height: nat, cb: bool, n: nat)
    requires n <= |outs| && n <= TWO_32
    ensures Create(u, txid, outs, height, cb, n).Keys == u.Keys + NewOps(txid, n)
  {
    if n > 0 {
      CreateKeys(u, txid, outs, height, cb, n - 1);
      assert NewOps(txid, n) == NewOps(txid, n - 1) + {OutPoint(txid, n - 1)};
    } else {
      assert NewOps(txid, 0) == {};
    }
  }

  // Fresh outputs overwrite nothing.
  lemma {:induction false} CreateKeeps(u: UtxoMap, txid: Hash, outs: seq<TxOutput>, height: nat, cb: bool, n: nat)
    requires n <= |outs| && forall op :: op in u ==> op.txid != txid
    ensures forall op :: op in u ==>
              op in Create(u, txid, outs, height, cb, n) && Create(u, txid, outs, height, cb, n)[op] == u[op]
  {
    if n > 0 {
      CreateKeeps(u, txid, outs, height, cb, n - 1);
    }
  }

  // Creating fresh outputs adds exactly their value.
  lemma {:induction false} CreateTotal(u: UtxoMap, txid: Hash, outs: seq<TxOutput>, height: nat, cb: bool, n: nat)
    requires n <= |outs| && n <= TWO_32
    requires forall op :: op in u ==> op.txid != txid
    ensures Total(Create(u, txid, outs, height, cb, n)) == Total(u) + OutputSum(outs[..n])
  {
    hide Total;
    if n > 0 {
      var before, op := Create(u, txid, outs, height, cb, n - 1), OutPoint(txid, n - 1);
      CreateTotal(u, txid, outs, height, cb, n - 1);
      CreateKeys(u, txid, outs, height, cb, n - 1);
      assert op !in before;
      TotalInsert(before, op, Utxo(outs[n - 1], height, cb));
      assert outs[..n][..n - 1] == outs[..n - 1];
    }
  }

  // ----- what an accepted transaction satisfies -----

  lemma {:induction false} NoRepeat(inputs: seq<Op>, n: nat)
    requires n <= |inputs| && FirstRepeat(inputs, n).None?
    ensures AllDistinct(inputs[..n])
  {
    if n > 0 {
      NoRepeat(inputs, n - 1);
      forall i, j | 0 <= i < j < n
        ensures inputs[i] != inputs[j]
      {
        if j < n - 1 {
          assert inputs[..n - 1][i] != inputs[..n - 1][j];
        } else {
          assert inputs[..n - 1][i] in inputs[..n - 1];
        }
      }
    }
  }

  lemma {:induction false} InputsFound(p: Params, tx: Txn, height: nat, u: UtxoMap, n: nat)
    requires n <= |tx.body.inputs| == |tx.witnesses|
    requires CheckInputs(p, tx, height, u, n).Ok?
    ensures forall op :: op in tx.body.inputs[..n] ==> op in u
    ensures CheckInputs(p, tx, height, u, n).value == InputSum(u, tx.body.inputs[..n])
    ensures forall i :: 0 <= i < n ==> CheckInput(p, tx, height, i, Lookup(u, tx.body.inputs[i])).Ok?
  {
    if n > 0 {
      InputsFound(p, tx, height, u, n - 1);
      assert tx.body.inputs[..n] == tx.body.inputs[..n - 1] + [tx.body.inputs[n - 1]];
    }
  }

  lemma {:induction false} OutputsChecked(outs: seq<TxOutput>, n: nat)
    requires n <= |outs|
    ensures CheckOutputs(outs, n).Ok? ==> CheckOutputs(outs, n).value == OutputSum(outs[..n])
    ensures CheckOutputs(outs, n).Ok? <==> OutputSum(outs[..n]) < TWO_64 && forall i :: 0 <= i < n ==> outs[i].amount > 0
    ensures CheckOutputs(outs, n) == Err(Overflow) ==> OutputSum(outs[..n]) >= TWO_64
  {
    if n > 0 {
      OutputsChecked(outs, n - 1);
      assert outs[..n][..n - 1] == outs[..n - 1];
    }
  }

  // The rules of a spend, stated at once instead of check by check.
  ghost predicate SpendRules(p: Params, tx: Txn, height: nat, u: UtxoMap) {
    && tx.body.inputs != [] && tx.body.outputs != [] && tx.body.coinbaseData == []
    && |tx.witnesses| == |tx.body.inputs|
    && AllDistinct(tx.body.inputs)
    && (forall op :: op in tx.body.inputs ==> op in u)
    && (forall i :: 0 <= i < |tx.body.inputs| ==> MaySpend(p, tx, height, i, u[tx.body.inputs[i]]))
    && (forall o :: o in tx.body.outputs ==> o.amount > 0)
    && OutputSum(tx.body.outputs) <= InputSum(u, tx.body.inputs) < TWO_64
  }

  ghost predicate MaySpend(p: Params, tx: Txn, height: nat, i: nat, utxo: Utxo)
    requires i < |tx.body.inputs| == |tx.witnesses|
  {
    var w, lock := tx.witnesses[i], utxo.output.lock;
    && (utxo.coinbase ==> height >= utxo.height + p.coinbaseMaturity)
    && (lock.Timelock? ==> height >= lock.height)
    && p.pubkeyHash(w.pubkey) == lock.pkh
    && p.verify(lock.scheme, w.pubkey, Sighash(tx.body, i % TWO_32, utxo.output), w.signature)
  }

  // A transaction is accepted exactly when it obeys the rules, and then its fee
  // is what its outputs leave of its inputs.
  lemma CheckTxMeaning(p: Params, tx: Txn, height: nat, u: UtxoMap)
    ensures CheckTx(p, tx, height, u).Ok? <==> SpendRules(p, tx, height, u)
    ensures SpendRules(p, tx, height, u) ==>
              CheckTx(p, tx, height, u).value == InputSum(u, tx.body.inputs) - OutputSum(tx.body.outputs)
  {
    var ins, outs := tx.body.inputs, tx.body.outputs;
    assert ins[..|ins|] == ins && outs[..|outs|] == outs;
    OutputsChecked(outs, |outs|);
    if CheckTx(p, tx, height, u).Ok? {
      NoRepeat(ins, |ins|);
      InputsFound(p, tx, height, u, |ins|);
      InputsBounded(p, tx, height, u, |ins|);
    }
    if SpendRules(p, tx, height, u) {
      RepeatFree(ins, |ins|);
      InputsPass(p, tx, height, u, |ins|);
      InputsFound(p, tx, height, u, |ins|);
    }
  }

  lemma {:induction false} InputsBounded(p: Params, tx: Txn, height: nat, u: UtxoMap, n: nat)
    requires n <= |tx.body.inputs| == |tx.witnesses|
    requires CheckInputs(p, tx, height, u, n).Ok?
    ensures CheckInputs(p, tx, height, u, n).value < TWO_64
  {
  }

  lemma {:induction false} RepeatFree(inputs: seq<Op>, n: nat)
    requires n <= |inputs| && AllDistinct(inputs)
    ensures FirstRepeat(inputs, n).None?
  {
    if n > 0 {
      RepeatFree(inputs, n - 1);
    }
  }

  lemma {:induction false} PrefixSum(u: UtxoMap, inputs: seq<Op>, n: nat)
    requires n <= |inputs| && forall op :: op in inputs ==> op in u
    ensures forall op :: op in inputs[..n] ==> op in u
    ensures InputSum(u, inputs[..n]) <= InputSum(u, inputs)
    decreases |inputs| - n
  {
    if n < |inputs| {
      PrefixSum(u, inputs, n + 1);
      assert inputs[..n + 1][..n] == inputs[..n];
    } else {
      assert inputs[..n] == inputs;
    }
  }

  lemma {:induction false} InputsPass(p: Params, tx: Txn, height: nat, u: UtxoMap, n: nat)
    requires n <= |tx.body.inputs| == |tx.witnesses| && forall op :: op in tx.body.inputs ==> op in u
    requires forall i :: 0 <= i < |tx.body.inputs| ==> MaySpend(p, tx, height, i, u[tx.body.inputs[i]])
    requires InputSum(u, tx.body.inputs) < TWO_64
    ensures CheckInputs(p, tx, height, u, n).Ok?
  {
    if n > 0 {
      var ins := tx.body.inputs;
      InputsPass(p, tx, height, u, n - 1);
      InputsFound(p, tx, height, u, n - 1);
      PrefixSum(u, ins, n);
      assert ins[..n][..n - 1] == ins[..n - 1];
      assert MaySpend(p, tx, height, n - 1, u[ins[n - 1]]);
    }
  }

  // ----- the ledger invariant -----

  // created holds the txid of every transaction applied so far.
  ghost predicate LedgerInv(u: UtxoMap, created: set<Hash>, height: nat) {
    && (forall op :: op in u ==> op.txid in created)
    && (forall id :: id in created ==> Settled(u, created, height, id))
  }

  // A created transaction is recognised by its txid; its inputs are gone for good.
  ghost predicate Settled(u: UtxoMap, created: set<Hash>, height: nat, id: Hash) {
    && id.Sha3? && id.message.TxidPre?
    && var body := id.message.body;
       if body.inputs == [] then |body.coinbaseData| >= 8 && LeValue(body.coinbaseData[..8]) < height
       else forall op :: op in body.inputs ==> op !in u && op.txid in created
  }

  // Outputs of a transaction that fits in a block are numbered without wrapping.
  ghost predicate Numbered(tx: Txn) {
    |tx.body.outputs| <= TWO_32
  }

  // An accepted spend is new, creates only new outpoints, and conserves value.
  lemma ApplySpend(p: Params, u: UtxoMap, created: set<Hash>, height: nat, tx: Txn)
    requires LedgerInv(u, created, height) && Numbered(tx)
    requires CheckTx(p, tx, height, u).Ok?
    ensures Txid(tx) !in created
    ensures LedgerInv(ApplyTx(u, tx, height, false), created + {Txid(tx)}, height)
    ensures Total(ApplyTx(u, tx, height, false)) + CheckTx(p, tx, height, u).value == Total(u)
  {
    CheckTxMeaning(p, tx, height, u);
    var ins, outs, id := tx.body.inputs, tx.body.outputs, Txid(tx);
    assert ins[0] in ins;
    assert !Settled(u, created, height, id);
    var u1 := Spend(u, ins);
    TotalSpend(u, ins);
    assert outs[..|outs|] == outs;
    CreateTotal(u1, id, outs, height, false, |outs|);
    CreateKeys(u1, id, outs, height, false, |outs|);
    var u2, created2 := ApplyTx(u, tx, height, false), created + {id};
    forall c | c in created2
      ensures Settled(u2, created2, height, c)
    {
      if c in created {
        assert Settled(u, created, height, c);
      }
    }
  }

  // A coinbase of this height is new, and its outputs add their value.
  lemma ApplyCoinbase(u: UtxoMap, created: set<Hash>, height: nat, cb: Txn)
    requires LedgerInv(u, created, height) && Numbered(cb)
    requires cb.body.inputs == [] && |cb.body.coinbaseData| >= 8 && LeValue(cb.body.coinbaseData[..8]) == height
    ensures Txid(cb) !in created
    ensures var u' := Create(u, Txid(cb), cb.body.outputs, height, true, |cb.body.outputs|);
            && LedgerInv(u', created + {Txid(cb)}, height + 1)
            && Total(u') == Total(u) + OutputSum(cb.body.outputs)
  {
    var outs, id := cb.body.outputs, Txid(cb);
    assert !Settled(u, created, height, id);
    assert outs[..|outs|] == outs;
    CreateTotal(u, id, outs, height, true, |outs|);
    CreateKeys(u, id, outs, height, true, |outs|);
    var u', created' := Create(u, id, outs, height, true, |outs|), created + {id};
    forall c | c in created'
      ensures Settled(u', created', height + 1, c)
    {
      if c in created {
        assert Settled(u, created, height, c);
      }
    }
  }

  ghost function TxidSet(txs: seq<Txn>): set<Hash> {
    set tx | tx in txs :: Txid(tx)
  }

  lemma {:induction false} ApplyTxsKeeps(p: Params, u: UtxoMap, created: set<Hash>, txs: seq<Txn>, height: nat, n: nat)
    requires n <= |txs| && LedgerInv(u, created, height)
    requires forall tx :: tx in txs ==> Numbered(tx)
    requires ApplyTxs(p, u, txs, height, n).Ok?
    ensures var r := ApplyTxs(p, u, txs, height, n).value;
            && LedgerInv(r.utxos, created + TxidSet(txs[..n]), height)
            && Total(r.utxos) + r.fees == Total(u)
    ensures TxidSet(txs[..n]) !! created
  {
    hide LedgerInv, Total, CheckTx, ApplyTx;
    if n == 0 {
      assert created + TxidSet(txs[..n]) == created;
    } else {
      ApplyTxsKeeps(p, u, created, txs, height, n - 1);
      var r := ApplyTxs(p, u, txs, height, n - 1).value;
      var tx := txs[n - 1];
      assert tx in txs;
      ApplySpend(p, r.utxos, created + TxidSet(txs[..n - 1]), height, tx);
      assert txs[..n] == txs[..n - 1] + [tx];
      assert created + TxidSet(txs[..n - 1]) + {Txid(tx)} == created + TxidSet(txs[..n]);
    }
  }

  // The value a block's coinbase leaves unclaimed out of its fees.
  ghost function Unclaimed(p: Params, u: UtxoMap, b: Blk, height: nat): nat
    requires ValidateBlock(p, u, b, height).Ok?
  {
    var fees := ApplyTxs(p, u, b.transactions[1..], height, |b.transactions| - 1).value.fees;
    var cbTotal := OutputSum(b.transactions[0].body.outputs);
    if cbTotal < fees then fees - cbTotal else 0
  }

  ghost predicate NumberedBlock(b: Blk) {
    forall tx :: tx in b.transactions ==> Numbered(tx)
  }

  // One block: nothing is created twice, minted is at most the subsidy, and
  // minted = growth of the unspent total + fees nobody claimed.
  lemma ValidateBlockKeeps(p: Params, u: UtxoMap, created: set<Hash>, b: Blk, height: nat)
    requires LedgerInv(u, created, height) && NumberedBlock(b)
    requires ValidateBlock(p, u, b, height).Ok?
    ensures var o := ValidateBlock(p, u, b, height).value;
            && LedgerInv(o.utxos, created + TxidSet(b.transactions), height + 1)
            && Total(o.utxos) + Unclaimed(p, u, b, height) == Total(u) + o.minted
            && o.minted <= BlockReward(height)
    ensures TxidSet(b.transactions) !! created
  {
    hide LedgerInv, Total, ApplyTxs, Create, BlockReward;
    var txs := b.transactions;
    var cb, rest := txs[0], txs[1..];
    ApplyTxsKeeps(p, u, created, rest, height, |rest|);
    assert rest[..|rest|] == rest;
    var spent := ApplyTxs(p, u, rest, height, |rest|).value;
    var outs := cb.body.outputs;
    assert outs[..|outs|] == outs;
    OutputsChecked(outs, |outs|);
    ApplyCoinbase(spent.utxos, created + TxidSet(rest), height, cb);
    assert txs == [cb] + rest;
    assert created + TxidSet(rest) + {Txid(cb)} == created + TxidSet(txs);
  }

  // ----- whole chains -----

  ghost function Created(blocks: seq<Blk>): set<Hash> {
    if blocks == [] then {}
    else Created(blocks[..|blocks| - 1]) + TxidSet(blocks[|blocks| - 1].transactions)
  }

  ghost function Burned(p: Params, blocks: seq<Blk>): nat
    requires ApplyChain(p, blocks).Ok?
  {
    if blocks == [] then 0
    else
      var n := |blocks| - 1;
      Burned(p, blocks[..n]) + Unclaimed(p, ApplyChain(p, blocks[..n]).value.utxos, blocks[n], n)
  }

  // Along any valid chain: the unspent total plus the unclaimed fees is exactly
  // the supply, which is within the emission so far and the cap.
  lemma {:induction false} SupplyExact(p: Params, blocks: seq<Blk>)
    requires ApplyChain(p, blocks).Ok? && forall b :: b in blocks ==> NumberedBlock(b)
    ensures var t := ApplyChain(p, blocks).value;
            && LedgerInv(t.utxos, Created(blocks), |blocks|)
            && Total(t.utxos) + Burned(p, blocks) == t.supply
            && t.supply <= RewardSum(|blocks|) <= SUPPLY_CAP
  {
    hide LedgerInv, Total, ValidateBlock, BlockReward, Unclaimed;
    RewardSumCapped(|blocks|);
    EmptyLedger();
    if blocks != [] {
      var n := |blocks| - 1;
      assert blocks[n] in blocks;
      SupplyExact(p, blocks[..n]);
      ValidateBlockKeeps(p, ApplyChain(p, blocks[..n]).value.utxos, Created(blocks[..n]), blocks[n], n);
    }
  }

  lemma EmptyLedger()
    ensures LedgerInv(map[], {}, 0) && Total(map[]) == 0
  {
  }

  // Nothing a block creates was created by an earlier block of its chain, nor
  // twice within the block: outputs are never overwritten.
  lemma NeverCreatedTwice(p: Params, blocks: seq<Blk>, n: nat)
    requires ApplyChain(p, blocks).Ok? && n < |blocks| && forall b :: b in blocks ==> NumberedBlock(b)
    ensures TxidSet(blocks[n].transactions) !! Created(blocks[..n])
    ensures DistinctTxids(blocks[n].transactions)
  {
    PrefixApplies(p, blocks, n + 1);
    PrefixApplies(p, blocks, n);
    assert blocks[..n + 1][..n] == blocks[..n];
    assert blocks[n] in blocks;
    SupplyExact(p, blocks[..n]);
    ValidateBlockKeeps(p, ApplyChain(p, blocks[..n]).value.utxos, Created(blocks[..n]), blocks[n], n);
  }

  lemma {:induction false} PrefixApplies(p: Params, blocks: seq<Blk>, n: nat)
    requires n <= |blocks| && ApplyChain(p, blocks).Ok?
    ensures ApplyChain(p, blocks[..n]).Ok?
    decreases |blocks|
  {
    if n < |blocks| {
      PrefixApplies(p, blocks[..|blocks| - 1], n);
      assert blocks[..|blocks| - 1][..n] == blocks[..n];
    } else {
      assert blocks[..n] == blocks;
    }
  }

  // ----- the overflow exits -----

  // Some transaction's own outputs add up past 64 bits.
  ghost predicate HugeOutputs(b: Blk) {
    exists tx :: tx in b.transactions && OutputSum(tx.body.outputs) >= TWO_64
  }

  lemma {:induction false} InputSumBelowTotal(u: UtxoMap, inputs: seq<Op>)
    requires AllDistinct(inputs) && forall op :: op in inputs ==> op in u
    ensures InputSum(u, inputs) <= Total(u)
  {
    TotalSpend(u, inputs);
  }

  lemma {:induction false} InputTotalFits(p: Params, tx: Txn, height: nat, u: UtxoMap, n: nat)
    requires n <= |tx.body.inputs| == |tx.witnesses|
    requires FirstRepeat(tx.body.inputs, |tx.body.inputs|).None? && Total(u) < TWO_64
    ensures CheckInputs(p, tx, height, u, n) != Err(Overflow)
  {
    var ins := tx.body.inputs;
    if n > 0 {
      InputTotalFits(p, tx, height, u, n - 1);
      if CheckInputs(p, tx, height, u, n - 1).Ok? && ins[n - 1] in u {
        InputsFound(p, tx, height, u, n - 1);
        NoRepeat(ins, |ins|);
        assert ins[..|ins|] == ins;
        assert ins[..n] == ins[..n - 1] + [ins[n - 1]];
        InputSumBelowTotal(u, ins[..n]);
      }
    }
  }

  lemma CheckTxOverflow(p: Params, tx: Txn, height: nat, u: UtxoMap)
    requires Total(u) < TWO_64
    ensures CheckTx(p, tx, height, u) == Err(Overflow) ==> OutputSum(tx.body.outputs) >= TWO_64
  {
    var outs := tx.body.outputs;
    OutputsChecked(outs, |outs|);
    assert outs[..|outs|] == outs;
    if CheckShape(tx).Ok? {
      InputTotalFits(p, tx, height, u, |tx.body.inputs|);
    }
  }

  lemma {:induction false} FeesFit(p: Params, u: UtxoMap, created: set<Hash>, txs: seq<Txn>, height: nat, n: nat)
    requires n <= |txs| && LedgerInv(u, created, height) && Total(u) < TWO_64
    requires forall tx :: tx in txs ==> Numbered(tx)
    requires ApplyTxs(p, u, txs, height, n) == Err(Overflow)
    ensures exists tx :: tx in txs && OutputSum(tx.body.outputs) >= TWO_64
  {
    hide LedgerInv, Total, CheckTx, ApplyTx;
    if n > 0 {
      var before := ApplyTxs(p, u, txs, height, n - 1);
      if before.Err? {
        FeesFit(p, u, created, txs, height, n - 1);
      } else {
        ApplyTxsKeeps(p, u, created, txs, height, n - 1);
        var tx := txs[n - 1];
        assert tx in txs;
        CheckTxOverflow(p, tx, height, before.value.utxos);
        if CheckTx(p, tx, height, before.value.utxos).Ok? {
          ApplySpend(p, before.value.utxos, created + TxidSet(txs[..n - 1]), height, tx);
        }
      }
    }
  }

  // What no overflow exit of the block rule can see once n spends are applied: an
  // input total, a fee total or a coinbase allowance of 2^64, or a check that
  // overflows for another reason than its own transaction's outputs.
  ghost predicate ExitsDead(p: Params, u: UtxoMap, txs: seq<Txn>, height: nat, n: nat)
    requires n <= |txs| && ApplyTxs(p, u, txs, height, n).Ok?
  {
    var before := ApplyTxs(p, u, txs, height, n).value;
    && Total(before.utxos) < TWO_64
    && BlockReward(height) + before.fees < TWO_64
    && (n < |txs| ==>
          var tx := txs[n];
          var checked := CheckTx(p, tx, height, before.utxos);
          && (checked.Ok? ==> before.fees + checked.value < TWO_64)
          && (checked == Err(Overflow) ==> OutputSum(tx.body.outputs) >= TWO_64)
          && (CheckShape(tx).Ok? ==> CheckInputs(p, tx, height, before.utxos, |tx.body.inputs|) != Err(Overflow)))
  }

  lemma SpendExits(p: Params, blocks: seq<Blk>, txs: seq<Txn>, n: nat)
    requires ApplyChain(p, blocks).Ok? && forall c :: c in blocks ==> NumberedBlock(c)
    requires n <= |txs| && forall tx :: tx in txs ==> Numbered(tx)
    requires ApplyTxs(p, ApplyChain(p, blocks).value.utxos, txs, |blocks|, n).Ok?
    ensures ExitsDead(p, ApplyChain(p, blocks).value.utxos, txs, |blocks|, n)
  {
    hide LedgerInv, Total, ApplyTxs, ApplyChain, BlockReward, CheckTx, CheckInputs, ApplyTx, FirstRepeat;
    SupplyExact(p, blocks);
    RewardSumCapped(|blocks| + 1);
    var u, h := ApplyChain(p, blocks).value.utxos, |blocks|;
    ApplyTxsKeeps(p, u, Created(blocks), txs, h, n);
    if n < |txs| {
      var before, tx := ApplyTxs(p, u, txs, h, n).value, txs[n];
      assert tx in txs;
      CheckTxOverflow(p, tx, h, before.utxos);
      if CheckTx(p, tx, h, before.utxos).Ok? {
        ApplySpend(p, before.utxos, Created(blocks) + TxidSet(txs[..n]), h, tx);
      }
      if CheckShape(tx).Ok? {
        InputTotalFits(p, tx, h, before.utxos, |tx.body.inputs|);
      }
    }
  }

  // On top of a valid chain, whatever the block: as far as its spends apply, input
  // totals, fees and the coinbase allowance stay below 2^64, and a check overflows
  // only in the outputs of its own transaction.  So a block that overflows has a
  // transaction with such outputs, and what a valid one mints fits the supply.
  lemma OnlyOutputsOverflow(p: Params, blocks: seq<Blk>, b: Blk)
    requires ApplyChain(p, blocks).Ok? && forall c :: c in blocks ==> NumberedBlock(c)
    requires NumberedBlock(b)
    ensures var t, h := ApplyChain(p, blocks).value, |blocks|;
            && (b.transactions != [] ==>
                  forall n :: 0 <= n < |b.transactions| && ApplyTxs(p, t.utxos, b.transactions[1..], h, n).Ok? ==>
                    ExitsDead(p, t.utxos, b.transactions[1..], h, n))
            && (ValidateBlock(p, t.utxos, b, h) == Err(Overflow) ==> HugeOutputs(b))
            && (ValidateBlock(p, t.utxos, b, h).Ok? ==>
                  t.supply + ValidateBlock(p, t.utxos, b, h).value.minted <= SUPPLY_CAP < TWO_64)
  {
    hide LedgerInv, Total, ApplyTxs, ApplyChain, Create, BlockReward, ExitsDead;
    SupplyExact(p, blocks);
    var t, h, txs := ApplyChain(p, blocks).value, |blocks|, b.transactions;
    RewardSumCapped(h + 1);
    if txs != [] {
      assert forall tx :: tx in txs[1..] ==> tx in txs;
      forall n | 0 <= n < |txs| && ApplyTxs(p, t.utxos, txs[1..], h, n).Ok?
        ensures ExitsDead(p, t.utxos, txs[1..], h, n)
      {
        SpendExits(p, blocks, txs[1..], n);
      }
    }
    if ValidateBlock(p, t.utxos, b, h).Ok? {
      ValidateBlockKeeps(p, t.utxos, Created(blocks), b, h);
    } else if ValidateBlock(p, t.utxos, b, h) == Err(Overflow) {
      var cb, rest := txs[0], txs[1..];
      var outs := cb.body.outputs;
      assert outs[..|outs|] == outs;
      OutputsChecked(outs, |outs|);
      assert forall tx :: tx in rest ==> tx in txs;
      if ApplyTxs(p, t.utxos, rest, h, |rest|).Err? {
        FeesFit(p, t.utxos, Created(blocks), rest, h, |rest|);
      } else {
        ApplyTxsKeeps(p, t.utxos, Created(blocks), rest, h, |rest|);
        assert cb in txs;
      }
    }
  }
}
