// What the set of unspent outputs is, without replaying anything: every output a
// chain creates and no transaction of it spends.
module Unspent {
  import opened Prelude
  import opened Tx
  import opened Emission
  import opened Ledger
  import opened LittleEndian
  import opened Conservation
  import opened Tree
  import opened TreeProofs

  datatype Applied = Applied(tx: Txn, height: nat)

  ghost function AppliedAt(txs: seq<Txn>, height: nat): (h: seq<Applied>)
    ensures |h| == |txs|
  {
    seq(|txs|, i requires 0 <= i < |txs| => Applied(txs[i], height))
  }

  // Every transaction of a chain with its height: in each block the spends, then
  // the coinbase.
  ghost function History(blocks: seq<Blk>): seq<Applied> {
    if blocks == [] then []
    else
      var n := |blocks| - 1;
      History(blocks[..n]) + BlockHistory(blocks[n], n)
  }

  ghost function BlockHistory(b: Blk, height: nat): seq<Applied> {
    if b.transactions == [] then []
    else AppliedAt(b.transactions[1..], height) + [Applied(b.transactions[0], height)]
  }

  ghost predicate Makes(a: Applied, op: Op, x: Utxo) {
    && op.txid == Txid(a.tx) && op.vout < |a.tx.body.outputs|
    && x == Utxo(a.tx.body.outputs[op.vout], a.height, a.tx.body.IsCoinbase())
  }

  ghost predicate MadeIn(history: seq<Applied>, op: Op, x: Utxo) {
    exists i :: 0 <= i < |history| && Makes(history[i], op, x)
  }

  ghost predicate SpentIn(history: seq<Applied>, op: Op) {
    exists i :: 0 <= i < |history| && op in history[i].tx.body.inputs
  }

  ghost predicate Unspent(u: UtxoMap, op: Op, x: Utxo) {
    op in u && u[op] == x
  }

  // The unspent outputs are exactly those made and never spent.
  ghost predicate Exact(u: UtxoMap, history: seq<Applied>) {
    forall op, x :: Unspent(u, op, x) <==> MadeIn(history, op, x) && !SpentIn(history, op)
  }

  // Everything in the history names created transactions only.
  ghost predicate Recorded(history: seq<Applied>, created: set<Hash>) {
    forall i :: 0 <= i < |history| ==>
      Txid(history[i].tx) in created && forall op :: op in history[i].tx.body.inputs ==> op.txid in created
  }

  lemma {:induction false} CreateEntry(u: UtxoMap, txid: Hash, outs: seq<TxOutput>, height: nat, cb: bool, n: nat, op: Op, x: Utxo)
    requires n <= |outs| && n <= TWO_32 && forall op' :: op' in u ==> op'.txid != txid
    ensures Unspent(Create(u, txid, outs, height, cb, n), op, x)
            <==> Unspent(u, op, x) || (op.txid == txid && op.vout < n && x == Utxo(outs[op.vout], height, cb))
  {
    if n > 0 {
      CreateEntry(u, txid, outs, height, cb, n - 1, op, x);
    }
  }

  lemma ExactStep(u: UtxoMap, u': UtxoMap, history: seq<Applied>, created: set<Hash>, a: Applied)
    requires Exact(u, history) && Recorded(history, created) && Txid(a.tx) !in created
    requires forall op :: op in u ==> op.txid in created
    requires forall op :: op in a.tx.body.inputs ==> op in u
    requires |a.tx.body.outputs| <= TWO_32
    requires u' == Create(Spend(u, a.tx.body.inputs), Txid(a.tx), a.tx.body.outputs, a.height, a.tx.body.IsCoinbase(), |a.tx.body.outputs|)
    ensures Exact(u', history + [a]) && Recorded(history + [a], created + {Txid(a.tx)})
  {
    var h' := history + [a];
    var kept := Spend(u, a.tx.body.inputs);
    forall op, x
      ensures Unspent(u', op, x) <==> MadeIn(h', op, x) && !SpentIn(h', op)
    {
      CreateEntry(kept, Txid(a.tx), a.tx.body.outputs, a.height, a.tx.body.IsCoinbase(), |a.tx.body.outputs|, op, x);
      assert Unspent(u, op, x) <==> MadeIn(history, op, x) && !SpentIn(history, op);
      MadeRecorded(history, created, op, x);
      MadeSnoc(history, a, op, x);
      SpentSnoc(history, a, op);
      SpentRecorded(history, created, op);
    }
  }

  lemma MadeSnoc(history: seq<Applied>, a: Applied, op: Op, x: Utxo)
    ensures MadeIn(history + [a], op, x) <==> MadeIn(history, op, x) || Makes(a, op, x)
  {
    var h' := history + [a];
    if i :| 0 <= i < |history| && Makes(history[i], op, x) {
      assert h'[i] == history[i];
    }
    assert h'[|history|] == a;
  }

  lemma SpentSnoc(history: seq<Applied>, a: Applied, op: Op)
    ensures SpentIn(history + [a], op) <==> SpentIn(history, op) || op in a.tx.body.inputs
  {
    var h' := history + [a];
    if i :| 0 <= i < |history| && op in history[i].tx.body.inputs {
      assert h'[i] == history[i];
    }
    assert h'[|history|] == a;
  }

  lemma MadeRecorded(history: seq<Applied>, created: set<Hash>, op: Op, x: Utxo)
    requires Recorded(history, created)
    ensures MadeIn(history, op, x) ==> op.txid in created
  {
  }

  lemma SpentRecorded(history: seq<Applied>, created: set<Hash>, op: Op)
    requires Recorded(history, created)
    ensures SpentIn(history, op) ==> op.txid in created
  {
  }

  lemma {:induction false} ExactTxs(p: Params, u: UtxoMap, history: seq<Applied>, created: set<Hash>, txs: seq<Txn>, height: nat, n: nat)
    requires n <= |txs| && LedgerInv(u, created, height) && Exact(u, history) && Recorded(history, created)
    requires forall tx :: tx in txs ==> Numbered(tx)
    requires ApplyTxs(p, u, txs, height, n).Ok?
    ensures var u', h', c' := ApplyTxs(p, u, txs, height, n).value.utxos, history + AppliedAt(txs, height)[..n], created + TxidSet(txs[..n]);
            Exact(u', h') && Recorded(h', c')
  {
    hide CheckTx, Exact, Recorded, LedgerInv, Create;
    if n == 0 {
      assert history + AppliedAt(txs, height)[..0] == history;
      assert created + TxidSet(txs[..0]) == created;
    } else {
      var tx := txs[n - 1];
      var h := history + AppliedAt(txs, height)[..n - 1];
      var c := created + TxidSet(txs[..n - 1]);
      ExactTxs(p, u, history, created, txs, height, n - 1);
      ApplyTxsKeeps(p, u, created, txs, height, n - 1);
      var before := ApplyTxs(p, u, txs, height, n - 1).value;
      assert tx in txs;
      ExactSpend(p, before.utxos, h, c, height, tx);
      assert history + AppliedAt(txs, height)[..n] == h + [Applied(tx, height)];
      assert txs[..n] == txs[..n - 1] + [tx];
      assert created + TxidSet(txs[..n]) == c + {Txid(tx)};
    }
  }

  lemma ExactSpend(p: Params, u: UtxoMap, history: seq<Applied>, created: set<Hash>, height: nat, tx: Txn)
    requires LedgerInv(u, created, height) && Exact(u, history) && Recorded(history, created)
    requires Numbered(tx) && !tx.body.IsCoinbase() && CheckTx(p, tx, height, u).Ok?
    ensures Exact(ApplyTx(u, tx, height, false), history + [Applied(tx, height)])
    ensures Recorded(history + [Applied(tx, height)], created + {Txid(tx)})
  {
    hide CheckTx, Exact, Recorded, Settled;
    CheckTxMeaning(p, tx, height, u);
    ApplySpend(p, u, created, height, tx);
    ExactStep(u, ApplyTx(u, tx, height, false), history, created, Applied(tx, height));
  }

  lemma ExactBlock(p: Params, u: UtxoMap, history: seq<Applied>, created: set<Hash>, b: Blk, height: nat)
    requires LedgerInv(u, created, height) && Exact(u, history) && Recorded(history, created)
    requires NumberedBlock(b) && ValidateBlock(p, u, b, height).Ok?
    ensures Exact(ValidateBlock(p, u, b, height).value.utxos, history + BlockHistory(b, height))
    ensures Recorded(history + BlockHistory(b, height), created + TxidSet(b.transactions))
  {
    hide LedgerInv, Exact, Recorded, ApplyTxs, Create, BlockReward, CheckOutputs;
    var txs := b.transactions;
    var cb, rest := txs[0], txs[1..];
    ExactTxs(p, u, history, created, rest, height, |rest|);
    ApplyTxsKeeps(p, u, created, rest, height, |rest|);
    assert rest[..|rest|] == rest && AppliedAt(rest, height)[..|rest|] == AppliedAt(rest, height);
    ExactCoinbase(ApplyTxs(p, u, rest, height, |rest|).value.utxos, history + AppliedAt(rest, height),
                  created + TxidSet(rest), height, cb);
    assert history + BlockHistory(b, height) == history + AppliedAt(rest, height) + [Applied(cb, height)];
    assert txs == [cb] + rest;
    assert created + TxidSet(rest) + {Txid(cb)} == created + TxidSet(txs);
  }

  lemma ExactCoinbase(u: UtxoMap, history: seq<Applied>, created: set<Hash>, height: nat, cb: Txn)
    requires LedgerInv(u, created, height) && Exact(u, history) && Recorded(history, created)
    requires Numbered(cb) && cb.body.inputs == [] && |cb.body.coinbaseData| >= 8 && LeValue(cb.body.coinbaseData[..8]) == height
    ensures Exact(Create(u, Txid(cb), cb.body.outputs, height, true, |cb.body.outputs|), history + [Applied(cb, height)])
    ensures Recorded(history + [Applied(cb, height)], created + {Txid(cb)})
  {
    hide Exact, Recorded, Settled, Create;
    ApplyCoinbase(u, created, height, cb);
    assert Spend(u, cb.body.inputs) == u;
    ExactStep(u, Create(u, Txid(cb), cb.body.outputs, height, true, |cb.body.outputs|), history, created, Applied(cb, height));
  }

  // After any valid chain an output is spendable exactly when some transaction of
  // the chain made it, at that height and with that coinbase mark, and none spent it.
  lemma {:induction false} UnspentExactly(p: Params, blocks: seq<Blk>)
    requires ApplyChain(p, blocks).Ok? && forall b :: b in blocks ==> NumberedBlock(b)
    ensures Exact(ApplyChain(p, blocks).value.utxos, History(blocks))
    ensures Recorded(History(blocks), Created(blocks))
  {
    hide LedgerInv, Total, ValidateBlock, Exact, Recorded, BlockHistory, Burned, RewardSum;
    if blocks == [] {
      NothingMade();
    } else {
      var n := |blocks| - 1;
      assert blocks[n] in blocks;
      UnspentExactly(p, blocks[..n]);
      SupplyExact(p, blocks[..n]);
      ExactBlock(p, ApplyChain(p, blocks[..n]).value.utxos, History(blocks[..n]), Created(blocks[..n]), blocks[n], n);
    }
  }

  lemma NothingMade()
    ensures Exact(map[], []) && Recorded([], {})
  {
  }

  // So it is on every reachable tip.
  lemma UnspentOverRuns(p: Params, g: Blk, blocks: seq<Blk>)
    requires p.Valid() && NewTree(p, g).Ok?
    ensures var t := Run(p, g, blocks); Exact(TipTotals(p, t).utxos, History(ActiveChain(p, t)))
  {
    hide TreeInv, ActiveChain, ApplyChain, Exact, History, Recorded;
    ActiveNumbered(p, Run(p, g, blocks));
    UnspentExactly(p, ActiveChain(p, Run(p, g, blocks)));
  }

  // What an accepted transaction spends was never spent before on its chain.
  lemma SpentOnce(p: Params, blocks: seq<Blk>, tx: Txn, op: Op, height: nat)
    requires ApplyChain(p, blocks).Ok? && forall b :: b in blocks ==> NumberedBlock(b)
    requires CheckTx(p, tx, height, ApplyChain(p, blocks).value.utxos).Ok? && op in tx.body.inputs
    ensures !SpentIn(History(blocks), op)
  {
    hide CheckTx, ApplyChain, History, Recorded, SpentIn;
    var u := ApplyChain(p, blocks).value.utxos;
    UnspentExactly(p, blocks);
    CheckTxMeaning(p, tx, height, u);
    assert Unspent(u, op, u[op]);
  }

  // A coinbase output made at height n can be spent only from n + maturity on.
  lemma CoinbaseMatures(p: Params, blocks: seq<Blk>, n: nat, tx: Txn, op: Op, height: nat)
    requires ApplyChain(p, blocks).Ok? && forall b :: b in blocks ==> NumberedBlock(b)
    requires n < |blocks| && blocks[n].transactions != [] && op.txid == Txid(blocks[n].transactions[0])
    requires op in tx.body.inputs && CheckTx(p, tx, height, ApplyChain(p, blocks).value.utxos).Ok?
    ensures height >= n + p.coinbaseMaturity
  {
    hide CheckTx, Recorded, ApplyChain, History, Makes;
    var u := ApplyChain(p, blocks).value.utxos;
    UnspentExactly(p, blocks);
    CheckTxMeaning(p, tx, height, u);
    assert Unspent(u, op, u[op]);
    var i :| 0 <= i < |tx.body.inputs| && tx.body.inputs[i] == op;
    assert MaySpend(p, tx, height, i, u[op]);
    var j :| 0 <= j < |History(blocks)| && Makes(History(blocks)[j], op, u[op]);
    MadeByCoinbase(p, blocks, n, op, u[op], j);
  }

  lemma MadeByCoinbase(p: Params, blocks: seq<Blk>, n: nat, op: Op, x: Utxo, j: nat)
    requires ApplyChain(p, blocks).Ok? && n < |blocks|
    requires blocks[n].transactions != [] && op.txid == Txid(blocks[n].transactions[0])
    requires j < |History(blocks)| && Makes(History(blocks)[j], op, x)
    ensures x.coinbase && x.height == n
  {
    hide ApplyChain, History;
    CoinbaseHeights(p, blocks, j);
    BlockCoinbase(p, blocks, n);
  }

  // A coinbase in the history carries its height.
  lemma {:induction false} CoinbaseHeights(p: Params, blocks: seq<Blk>, j: nat)
    requires ApplyChain(p, blocks).Ok? && j < |History(blocks)|
    ensures var a := History(blocks)[j];
            a.tx.body.IsCoinbase() ==>
              |a.tx.body.coinbaseData| >= 8 && LeValue(a.tx.body.coinbaseData[..8]) == a.height
  {
    hide ApplyTxs, CheckOutputs, Create, BlockReward, DistinctTxids;
    var n := |blocks| - 1;
    var earlier := |History(blocks[..n])|;
    if j < earlier {
      CoinbaseHeights(p, blocks[..n], j);
    } else {
      var txs, u := blocks[n].transactions, ApplyChain(p, blocks[..n]).value.utxos;
      if j - earlier < |txs| - 1 {
        SpendsNoCoinbase(p, u, txs[1..], n, |txs| - 1, j - earlier);
      }
    }
  }

  lemma {:induction false} SpendsNoCoinbase(p: Params, u: UtxoMap, txs: seq<Txn>, height: nat, n: nat, k: nat)
    requires k < n <= |txs| && ApplyTxs(p, u, txs, height, n).Ok?
    ensures !txs[k].body.IsCoinbase()
  {
    hide CheckTx, ApplyTx;
    if k < n - 1 {
      SpendsNoCoinbase(p, u, txs, height, n - 1, k);
    }
  }

  lemma BlockCoinbase(p: Params, blocks: seq<Blk>, n: nat)
    requires ApplyChain(p, blocks).Ok? && n < |blocks|
    ensures var txs := blocks[n].transactions;
            txs != [] && txs[0].body.IsCoinbase() && |txs[0].body.coinbaseData| >= 8 && LeValue(txs[0].body.coinbaseData[..8]) == n
  {
    hide ApplyTxs, CheckOutputs, Create, BlockReward, DistinctTxids;
    PrefixApplies(p, blocks, n + 1);
  }
}
