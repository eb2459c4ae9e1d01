// The rules of a block, stated at once instead of check by check: of its
// transactions, of its header, and of the chain it ends.
module BlockRules {
  import opened Prelude
  import opened Tx
  import opened Emission
  import opened LittleEndian
  import opened Ledger
  import opened Conservation
  import opened Tree
  import opened TreeProofs
  import Compact
  import Median
  import Merkle

  // ----- the spends -----

  // The unspent outputs after the first n spends.
  ghost function After(u: UtxoMap, txs: seq<Txn>, height: nat, n: nat): UtxoMap
    requires n <= |txs|
  {
    if n == 0 then u else ApplyTx(After(u, txs, height, n - 1), txs[n - 1], height, false)
  }

  ghost predicate SpendHolds(p: Params, u: UtxoMap, txs: seq<Txn>, height: nat, k: nat)
    requires k < |txs|
  {
    SpendRules(p, txs[k], height, After(u, txs, height, k))
  }

  // What the first n spends leave of their inputs.
  ghost function Fees(p: Params, u: UtxoMap, txs: seq<Txn>, height: nat, n: nat): nat
    requires n <= |txs| && forall k :: 0 <= k < n ==> SpendHolds(p, u, txs, height, k)
  {
    if n == 0 then 0
    else
      assert SpendHolds(p, u, txs, height, n - 1);
      Fees(p, u, txs, height, n - 1)
      + InputSum(After(u, txs, height, n - 1), txs[n - 1].body.inputs) - OutputSum(txs[n - 1].body.outputs)
  }

  lemma {:induction false} SpendsMeaning(p: Params, u: UtxoMap, txs: seq<Txn>, height: nat, n: nat)
    requires n <= |txs|
    ensures ApplyTxs(p, u, txs, height, n).Ok? <==>
              (forall k :: 0 <= k < n ==> SpendHolds(p, u, txs, height, k)) && Fees(p, u, txs, height, n) < TWO_64
    ensures ApplyTxs(p, u, txs, height, n).Ok? ==>
              ApplyTxs(p, u, txs, height, n).value == Progress(After(u, txs, height, n), Fees(p, u, txs, height, n))
  {
    hide CheckTx, ApplyTx, InputSum, OutputSum, SpendRules;
    if n > 0 {
      SpendsMeaning(p, u, txs, height, n - 1);
      var tx, before := txs[n - 1], After(u, txs, height, n - 1);
      CheckTxMeaning(p, tx, height, before);
      SpendHasInputs(p, tx, height, before);
      if forall k :: 0 <= k < n ==> SpendHolds(p, u, txs, height, k) {
        assert SpendHolds(p, u, txs, height, n - 1);
      }
    }
  }

  lemma SpendHasInputs(p: Params, tx: Txn, height: nat, u: UtxoMap)
    ensures SpendRules(p, tx, height, u) ==> !tx.body.IsCoinbase()
    ensures SpendRules(p, tx, height, u) ==> (forall op :: op in tx.body.inputs ==> op in u)
    ensures SpendRules(p, tx, height, u) ==> OutputSum(tx.body.outputs) <= InputSum(u, tx.body.inputs)
  {
  }

  // ----- the block -----

  // The first transaction: no inputs and no witnesses, positive outputs, and data
  // that begins with the height.
  ghost predicate CoinbaseRules(cb: Txn, height: nat) {
    && cb.body.inputs == [] && cb.witnesses == [] && cb.body.outputs != []
    && (forall o :: o in cb.body.outputs ==> o.amount > 0)
    && 8 <= |cb.body.coinbaseData| <= 108 && LeValue(cb.body.coinbaseData[..8]) == height
  }

  // The amounts: fees and what the coinbase may claim fit 64 bits, and it claims no more.
  ghost predicate ClaimRules(cb: Txn, height: nat, fees: nat) {
    && BlockReward(height) + fees < TWO_64
    && OutputSum(cb.body.outputs) <= BlockReward(height) + fees
  }

  ghost predicate BlockRules(p: Params, u: UtxoMap, b: Blk, height: nat) {
    && b.transactions != []
    && CoinbaseRules(b.transactions[0], height)
    && DistinctTxids(b.transactions)
    && var spends := b.transactions[1..];
       && (forall k :: 0 <= k < |spends| ==> SpendHolds(p, u, spends, height, k))
       && ClaimRules(b.transactions[0], height, Fees(p, u, spends, height, |spends|))
  }

  // What a block that obeys the rules does: its spends in order, then the outputs of
  // its first transaction; it mints what that claims beyond the fees.
  ghost function Effect(p: Params, u: UtxoMap, b: Blk, height: nat): Outcome
    requires BlockRules(p, u, b, height)
  {
    var cb, spends := b.transactions[0], b.transactions[1..];
    var fees, claimed := Fees(p, u, spends, height, |spends|), OutputSum(cb.body.outputs);
    Outcome(ApplyTx(After(u, spends, height, |spends|), cb, height, true),
            if claimed > fees then claimed - fees else 0)
  }

  // A block is accepted if and only if it obeys the rules, and then has that effect.
  lemma ValidateBlockMeaning(p: Params, u: UtxoMap, b: Blk, height: nat)
    ensures ValidateBlock(p, u, b, height).Ok? <==> BlockRules(p, u, b, height)
    ensures BlockRules(p, u, b, height) ==> ValidateBlock(p, u, b, height) == Ok(Effect(p, u, b, height))
  {
    hide ApplyTxs, Create, OutputSum, SpendHolds, Fees, After, BlockReward, DistinctTxids, CheckOutputs;
    if b.transactions != [] {
      var cb, spends := b.transactions[0], b.transactions[1..];
      CoinbaseMeaning(cb, spends, height);
      SpendsMeaning(p, u, spends, height, |spends|);
      NoSpends(After(u, spends, height, |spends|), cb);
    }
  }

  lemma NoSpends(u: UtxoMap, cb: Txn)
    ensures cb.body.inputs == [] ==> Spend(u, cb.body.inputs) == u
  {
  }

  lemma CoinbaseMeaning(cb: Txn, spends: seq<Txn>, height: nat)
    ensures var total := CheckOutputs(cb.body.outputs, |cb.body.outputs|);
            && (CheckCoinbase([cb] + spends, height).Ok? && total.Ok?
                <==> CoinbaseRules(cb, height) && OutputSum(cb.body.outputs) < TWO_64)
            && (total.Ok? ==> total.value == OutputSum(cb.body.outputs))
  {
    hide OutputSum, LeValue;
    var outs := cb.body.outputs;
    assert outs[..|outs|] == outs;
    OutputsChecked(outs, |outs|);
  }

  // ----- the chain -----

  // Every block obeys the rules on what the blocks before it leave.
  ghost predicate ChainRules(p: Params, blocks: seq<Blk>)
    decreases |blocks|, 0
  {
    blocks == []
    || (var n := |blocks| - 1;
        ChainRules(p, blocks[..n]) && BlockRules(p, ChainEffect(p, blocks[..n]), blocks[n], n))
  }

  ghost function ChainEffect(p: Params, blocks: seq<Blk>): UtxoMap
    requires ChainRules(p, blocks)
    decreases |blocks|, 1
  {
    if blocks == [] then map[]
    else
      var n := |blocks| - 1;
      Effect(p, ChainEffect(p, blocks[..n]), blocks[n], n).utxos
  }

  // A chain replays if and only if every block obeys the rules.
  lemma {:induction false} ApplyChainMeaning(p: Params, blocks: seq<Blk>)
    requires forall b :: b in blocks ==> NumberedBlock(b)
    ensures ApplyChain(p, blocks).Ok? <==> ChainRules(p, blocks)
    ensures ChainRules(p, blocks) ==> ApplyChain(p, blocks).value.utxos == ChainEffect(p, blocks)
  {
    hide ValidateBlock, BlockRules, Effect, HugeOutputs, ExitsDead, ApplyTxs;
    if blocks != [] {
      var n := |blocks| - 1;
      assert blocks[n] in blocks;
      ApplyChainMeaning(p, blocks[..n]);
      if ChainRules(p, blocks[..n]) {
        ValidateBlockMeaning(p, ChainEffect(p, blocks[..n]), blocks[n], n);
        OnlyOutputsOverflow(p, blocks[..n], blocks[n]);
      }
    }
  }

  // ----- the header -----

  ghost predicate TargetRules(p: Params, header: Header, height: nat) {
    var target := Compact.BitsToTarget(header.bits);
    && target.Some? && target.value <= p.powLimit && p.epochLength > 0
    && p.powHash(height / p.epochLength, PowMessage(header), header.nonce) <= target.value
  }

  ghost predicate RootRules(b: Blk) {
    && b.header.txRoot == Merkle.Root(Txids(b.transactions))
    && b.header.witnessRoot == Merkle.Root(WitnessHashes(b.transactions))
  }

  // The required bits, a time after the median of the parent's chain, a size within
  // the limit, the roots of its own transactions, and proof of work.
  ghost predicate HeaderRules(p: Params, t: BlockTree, b: Blk)
    requires p.Valid() && b.header.prev in t.meta && t.genesis in t.meta
  {
    && b.header.bits == ExpectedBits(p, t.meta[b.header.prev], t.meta[t.genesis].time)
    && b.header.time > MedianTimePast(t.meta, b.header.prev)
    && BlockSize(b) <= p.maxBlockSize
    && RootRules(b)
    && TargetRules(p, b.header, t.meta[b.header.prev].height + 1)
  }

  lemma CheckHeaderMeaning(p: Params, t: BlockTree, b: Blk)
    requires p.Valid() && b.header.prev in t.meta && t.genesis in t.meta
    ensures CheckHeader(p, t.meta, t.genesis, b).Ok? <==> HeaderRules(p, t, b)
  {
    hide ExpectedBits, MedianTimePast, BlockSize, Merkle.Root, Compact.BitsToTarget;
  }

  lemma CheckGenesisMeaning(p: Params, g: Blk)
    requires p.Valid()
    ensures CheckGenesis(p, g).Ok? <==>
              && g.header.prev == Zero && g.header.bits == Compact.TargetToBits(p.powLimit)
              && TargetRules(p, g.header, 0) && RootRules(g) && BlockSize(g) <= p.maxBlockSize
  {
    hide BlockSize, Merkle.Root, Compact.BitsToTarget, Compact.TargetToBits;
  }

  // ----- acceptance -----

  // A new block with a known parent is stored if and only if it obeys the header rules
  // and, when it outweighs the tip, its whole chain obeys the block rules; it becomes
  // the tip if and only if it does outweigh it.
  lemma AddBlockMeaning(p: Params, t: BlockTree, b: Blk)
    requires p.Valid() && TreeInv(p, t)
    ensures t.tip in t.meta && t.genesis in t.meta && Rooted(t.meta) && t.all.Keys == t.meta.Keys
    ensures var r := AddBlock(p, t, b).1;
            && (r == Err(Duplicate) <==> BlockHash(b.header) in t.all)
            && (r == Err(UnknownParent) <==> BlockHash(b.header) !in t.all && b.header.prev !in t.meta)
            && (BlockHash(b.header) !in t.all && b.header.prev in t.meta ==>
                  var heavier := t.meta[b.header.prev].work + BlockWork(b) > t.meta[t.tip].work;
                  && (r.Ok? <==> HeaderRules(p, t, b) && (heavier ==> ChainRules(p, ChainTo(t, b.header.prev) + [b])))
                  && (r.Ok? ==> r.value == heavier))
  {
    hide NodeInv, CheckHeader, ApplyChain, BlockWork, HeaderRules, ChainRules, ChainTo;
    TreeFacts(p, t);
    if BlockHash(b.header) !in t.all && b.header.prev in t.meta {
      CheckHeaderMeaning(p, t, b);
      ContextErrors(p, t, b);
      if CheckHeader(p, t.meta, t.genesis, b).Ok? {
        CheckedHeader(p, t, b);
        SmallBlockNumbered(p, b);
        ChainNumbered(p, t, b.header.prev);
        ApplyChainMeaning(p, ChainTo(t, b.header.prev) + [b]);
        ReplayErrors(p, ChainTo(t, b.header.prev) + [b]);
      }
    }
  }

  lemma TreeFacts(p: Params, t: BlockTree)
    requires p.Valid() && TreeInv(p, t)
    ensures t.tip in t.meta && t.genesis in t.meta && Rooted(t.meta) && t.all.Keys == t.meta.Keys
  {
    hide NodeInv;
  }

  // The header checks and the replay never answer with the two errors of lookup.
  lemma ContextErrors(p: Params, t: BlockTree, b: Blk)
    requires p.Valid() && b.header.prev in t.meta && t.genesis in t.meta
    ensures CheckHeader(p, t.meta, t.genesis, b) != Err(Duplicate)
    ensures CheckHeader(p, t.meta, t.genesis, b) != Err(UnknownParent)
  {
    hide ExpectedBits, MedianTimePast, BlockSize, Merkle.Root, Compact.BitsToTarget;
  }

  lemma {:induction false} InputErrors(p: Params, tx: Txn, height: nat, u: UtxoMap, n: nat)
    requires n <= |tx.body.inputs| == |tx.witnesses|
    ensures CheckInputs(p, tx, height, u, n) != Err(Duplicate) && CheckInputs(p, tx, height, u, n) != Err(UnknownParent)
  {
    if n > 0 {
      InputErrors(p, tx, height, u, n - 1);
    }
  }

  lemma {:induction false} OutputErrors(outs: seq<TxOutput>, n: nat)
    requires n <= |outs|
    ensures CheckOutputs(outs, n) != Err(Duplicate) && CheckOutputs(outs, n) != Err(UnknownParent)
  {
    if n > 0 {
      OutputErrors(outs, n - 1);
    }
  }

  lemma {:induction false} SpendErrors(p: Params, u: UtxoMap, txs: seq<Txn>, height: nat, n: nat)
    requires n <= |txs|
    ensures ApplyTxs(p, u, txs, height, n) != Err(Duplicate) && ApplyTxs(p, u, txs, height, n) != Err(UnknownParent)
  {
    hide CheckInputs, CheckOutputs, ApplyTx;
    if n > 0 {
      SpendErrors(p, u, txs, height, n - 1);
      var tx := txs[n - 1];
      OutputErrors(tx.body.outputs, |tx.body.outputs|);
      if ApplyTxs(p, u, txs, height, n - 1).Ok? && CheckShape(tx).Ok? {
        InputErrors(p, tx, height, ApplyTxs(p, u, txs, height, n - 1).value.utxos, |tx.body.inputs|);
      }
    }
  }

  lemma {:induction false} ReplayErrors(p: Params, blocks: seq<Blk>)
    ensures ApplyChain(p, blocks) != Err(Duplicate) && ApplyChain(p, blocks) != Err(UnknownParent)
  {
    hide ApplyTxs, CheckOutputs, Create, BlockReward, DistinctTxids;
    if blocks != [] {
      var n := |blocks| - 1;
      ReplayErrors(p, blocks[..n]);
      var b := blocks[n];
      if ApplyChain(p, blocks[..n]).Ok? && b.transactions != [] {
        SpendErrors(p, ApplyChain(p, blocks[..n]).value.utxos, b.transactions[1..], n, |b.transactions| - 1);
        OutputErrors(b.transactions[0].body.outputs, |b.transactions[0].body.outputs|);
      }
    }
  }
}
