// The node's chain state: blocks, metadata, the active path, the unspent outputs
// and the supply, all updated in place.
module Chain {
  import opened Prelude
  import opened Tx
  import opened Ledger
  import opened Conservation
  import opened Tree
  import opened TreeProofs
  import opened Locator
  import Compact
  import Emission
  import Median
  import Merkle

  // ----- transaction-level loops -----

  // The checks of one spend.
  method CheckTxLoop(p: Params, tx: Txn, height: nat, u: UtxoMap, trackSpent: bool) returns (r: Result<nat, Error>)
    ensures r == CheckTx(p, tx, height, u)
  {
    hide CheckInputs, CheckOutputs, FirstRepeat;
    if |tx.body.inputs| == 0 {
      return Err(NoInputs);
    }
    if |tx.body.outputs| == 0 {
      return Err(NoOutputs);
    }
    if |tx.body.coinbaseData| != 0 {
      return Err(BadCoinbaseData);
    }
    if |tx.witnesses| != |tx.body.inputs| {
      return Err(WitnessMismatch);
    }
    var repeat := FindRepeat(tx.body.inputs);
    if repeat.Some? {
      return Err(UnknownInput(repeat.value));
    }
    var inTotal := SumInputs(p, tx, height, u, trackSpent);
    if inTotal.Err? {
      return inTotal;
    }
    var outTotal := SumOutputs(tx.body.outputs);
    if outTotal.Err? {
      return outTotal;
    }
    if inTotal.value < outTotal.value {
      return Err(InsufficientInputs);
    }
    return Ok(inTotal.value - outTotal.value);
  }

  method FindRepeat(inputs: seq<Op>) returns (r: Option<Op>)
    ensures r == FirstRepeat(inputs, |inputs|)
  {
    for i := 0 to |inputs|
      invariant FirstRepeat(inputs, i).None?
    {
      if inputs[i] in inputs[..i] {
        FirstRepeatFound(inputs, i + 1, |inputs|);
        return Some(inputs[i]);
      }
    }
    return None;
  }

  // The pool's caller also refuses an outpoint it has already looked up; the
  // repeat check before it makes that unobservable.
  method SumInputs(p: Params, tx: Txn, height: nat, u: UtxoMap, trackSpent: bool) returns (r: Result<nat, Error>)
    requires |tx.body.inputs| == |tx.witnesses| && FirstRepeat(tx.body.inputs, |tx.body.inputs|).None?
    ensures r == CheckInputs(p, tx, height, u, |tx.body.inputs|)
  {
    hide CheckInput, FirstRepeat;
    var ins := tx.body.inputs;
    NoRepeat(ins, |ins|);
    assert ins[..|ins|] == ins;
    var spent: seq<Op> := [];
    var inTotal: nat := 0;
    for i := 0 to |ins|
      invariant spent == ins[..i]
      invariant CheckInputs(p, tx, height, u, i) == Ok(inTotal)
    {
      var found: Option<Utxo> := None;
      if !(trackSpent && ins[i] in spent) {
        spent := spent + [ins[i]];
        found := Lookup(u, ins[i]);
      }
      var amount := CheckInput(p, tx, height, i, found);
      if amount.Err? {
        InputsFail(p, tx, height, u, i + 1, |ins|);
        return Err(amount.error);
      }
      if inTotal + amount.value >= TWO_64 {
        InputsFail(p, tx, height, u, i + 1, |ins|);
        return Err(Overflow);
      }
      inTotal := inTotal + amount.value;
    }
    return Ok(inTotal);
  }

  method SumOutputs(outs: seq<TxOutput>) returns (r: Result<nat, Error>)
    ensures r == CheckOutputs(outs, |outs|)
  {
    var total: nat := 0;
    for i := 0 to |outs|
      invariant CheckOutputs(outs, i) == Ok(total)
    {
      if outs[i].amount == 0 {
        OutputsFail(outs, i + 1, |outs|);
        return Err(ZeroOutput);
      }
      if total + outs[i].amount >= TWO_64 {
        OutputsFail(outs, i + 1, |outs|);
        return Err(Overflow);
      }
      total := total + outs[i].amount;
    }
    return Ok(total);
  }

  // The first failure of a prefix is the failure of the whole.

  lemma {:induction false} FirstRepeatFound(ins: seq<Op>, i: nat, n: nat)
    requires i <= n <= |ins| && FirstRepeat(ins, i).Some?
    ensures FirstRepeat(ins, n) == FirstRepeat(ins, i)
  {
    if i < n {
      FirstRepeatFound(ins, i, n - 1);
    }
  }

  lemma {:induction false} InputsFail(p: Params, tx: Txn, height: nat, u: UtxoMap, i: nat, n: nat)
    requires i <= n <= |tx.body.inputs| == |tx.witnesses| && CheckInputs(p, tx, height, u, i).Err?
    ensures CheckInputs(p, tx, height, u, n) == CheckInputs(p, tx, height, u, i)
  {
    if i < n {
      InputsFail(p, tx, height, u, i, n - 1);
    }
  }

  lemma {:induction false} OutputsFail(outs: seq<TxOutput>, i: nat, n: nat)
    requires i <= n <= |outs| && CheckOutputs(outs, i).Err?
    ensures CheckOutputs(outs, n) == CheckOutputs(outs, i)
  {
    if i < n {
      OutputsFail(outs, i, n - 1);
    }
  }

  lemma {:induction false} TxsFail(p: Params, u: UtxoMap, txs: seq<Txn>, height: nat, i: nat, n: nat)
    requires i <= n <= |txs| && ApplyTxs(p, u, txs, height, i).Err?
    ensures ApplyTxs(p, u, txs, height, n) == ApplyTxs(p, u, txs, height, i)
  {
    hide CheckTx, ApplyTx;
    if i < n {
      TxsFail(p, u, txs, height, i, n - 1);
    }
  }

  lemma {:induction false} ChainFails(p: Params, blocks: seq<Blk>, i: nat)
    requires i <= |blocks| && ApplyChain(p, blocks[..i]).Err?
    ensures ApplyChain(p, blocks) == ApplyChain(p, blocks[..i])
    decreases |blocks|
  {
    hide ValidateBlock;
    if i < |blocks| {
      assert blocks[..|blocks| - 1][..i] == blocks[..i];
      ChainFails(p, blocks[..|blocks| - 1], i);
    } else {
      assert blocks[..i] == blocks;
    }
  }

  method ApplyOutputs(u: UtxoMap, tx: Txn, height: nat, coinbase: bool) returns (u': UtxoMap)
    ensures u' == Create(u, Txid(tx), tx.body.outputs, height, coinbase, |tx.body.outputs|)
  {
    u' := u;
    for vout := 0 to |tx.body.outputs|
      invariant u' == Create(u, Txid(tx), tx.body.outputs, height, coinbase, vout)
    {
      u' := u'[OutPoint(Txid(tx), vout % TWO_32) := Utxo(tx.body.outputs[vout], height, coinbase)];
    }
  }

  // validate_block_txs: the minted amount, and the unspent outputs afterwards.
  method ValidateBlockTxs(p: Params, u: UtxoMap, b: Blk, height: nat) returns (r: Result<nat, Error>, u': UtxoMap)
    ensures match ValidateBlock(p, u, b, height)
            case Ok(o) => r == Ok(o.minted) && u' == o.utxos
            case Err(e) => r == Err(e)
  {
    hide ApplyTxs, Create, CheckOutputs, DistinctTxids, Emission.BlockReward;
    u' := u;
    var txs := b.transactions;
    var structure := CheckCoinbase(txs, height);
    if structure.Err? {
      return Err(structure.error), u';
    }
    var distinct := GuardDuplicates(txs);
    if !distinct {
      return Err(DuplicateTx), u';
    }
    var spent := ApplySpends(p, u, txs[1..], height);
    if spent.Err? {
      return Err(spent.error), u';
    }
    var fees := spent.value.fees;
    var cb := txs[0];
    var cbTotal := SumOutputs(cb.body.outputs);
    if cbTotal.Err? {
      return Err(cbTotal.error), u';
    }
    if Emission.BlockReward(height) + fees >= TWO_64 {
      return Err(Overflow), u';
    }
    if cbTotal.value > Emission.BlockReward(height) + fees {
      return Err(CoinbaseOverpay), u';
    }
    u' := ApplyOutputs(spent.value.utxos, cb, height, true);
    return Ok(if cbTotal.value > fees then cbTotal.value - fees else 0), u';
  }

  // The duplicate-transaction guard.
  method GuardDuplicates(txs: seq<Txn>) returns (distinct: bool)
    ensures distinct == DistinctTxids(txs)
  {
    var seen: set<Hash> := {};
    for i := 0 to |txs|
      invariant seen == set k | 0 <= k < i :: Txid(txs[k])
      invariant forall k, l :: 0 <= k < l < i ==> Txid(txs[k]) != Txid(txs[l])
    {
      if Txid(txs[i]) in seen {
        return false;
      }
      seen := seen + {Txid(txs[i])};
    }
    return true;
  }

  // Validate and apply the block's spends in order, collecting their fees.
  method ApplySpends(p: Params, u: UtxoMap, txs: seq<Txn>, height: nat) returns (r: Result<Progress, Error>)
    ensures r == ApplyTxs(p, u, txs, height, |txs|)
  {
    hide CheckTx, Create, Spend;
    var u' := u;
    var fees: nat := 0;
    for i := 0 to |txs|
      invariant ApplyTxs(p, u, txs, height, i) == Ok(Progress(u', fees))
    {
      var tx := txs[i];
      if tx.body.IsCoinbase() {
        TxsFail(p, u, txs, height, i + 1, |txs|);
        return Err(ExtraCoinbase);
      }
      var fee := CheckTxLoop(p, tx, height, u', false);
      if fee.Err? {
        TxsFail(p, u, txs, height, i + 1, |txs|);
        return Err(fee.error);
      }
      if fees + fee.value >= TWO_64 {
        TxsFail(p, u, txs, height, i + 1, |txs|);
        return Err(Overflow);
      }
      fees := fees + fee.value;
      u' := SpendAll(u', tx.body.inputs);
      u' := ApplyOutputs(u', tx, height, false);
    }
    return Ok(Progress(u', fees));
  }

  method SpendAll(u: UtxoMap, inputs: seq<Op>) returns (u': UtxoMap)
    ensures u' == Spend(u, inputs)
  {
    u' := u;
    for k := 0 to |inputs|
      invariant u' == Spend(u, inputs[..k])
    {
      u' := u' - {inputs[k]};
      assert inputs[..k + 1] == inputs[..k] + [inputs[k]];
    }
    assert inputs[..|inputs|] == inputs;
  }

  lemma WindowStep(meta: MetaMap, cur: Hash, n: nat)
    requires Rooted(meta) && cur in meta
    ensures n == 0 ==> Window(meta, cur, n) == []
    ensures n > 0 && meta[cur].parent == Zero ==> Window(meta, cur, n) == [meta[cur].time]
    ensures meta[cur].parent != Zero ==> meta[cur].parent in meta
    ensures n > 0 && meta[cur].parent != Zero ==>
              Window(meta, cur, n) == [meta[cur].time] + Window(meta, meta[cur].parent, n - 1)
  {
  }

  // Single steps for the ten newest blocks, then strides that double.
  method LocatorLoop(active: seq<Hash>) returns (out: seq<Hash>)
    requires active != []
    ensures out == Entries(active)
  {
    hide HeightsFrom, Pick;
    var tip := |active| - 1;
    out := [];
    var step: nat := 1;
    var h: int := tip;
    ghost var hs: seq<nat> := [];
    PickEmpty(active);
    while h > 0
      invariant h <= tip && step > 0 && |out| == |hs|
      invariant HeightsFrom(tip, 1, 0) == hs + HeightsFrom(h, step, |out|)
      invariant forall i :: 0 <= i < |hs| ==> hs[i] < |active|
      invariant out == Pick(active, hs)
      decreases h
    {
      HeightsStep(h, step, |out|);
      PickAppend(active, hs, h);
      out := out + [active[h]];
      hs := hs + [h];
      if |out| >= 10 {
        step := step * 2;
      }
      h := h - step;
    }
    HeightsStep(h, step, |out|);
    PickAppend(active, hs, 0);
    out := out + [active[0]];
  }

  lemma HeightsStep(h: int, step: nat, count: nat)
    requires step > 0
    ensures h <= 0 ==> HeightsFrom(h, step, count) == [0]
    ensures h > 0 ==>
              var step' := if count + 1 >= 10 then 2 * step else step;
              HeightsFrom(h, step, count) == [h] + HeightsFrom(h - step', step', count + 1)
  {
  }

  lemma PickEmpty(active: seq<Hash>)
    ensures Pick(active, []) == []
  {
  }

  lemma PickAppend(active: seq<Hash>, hs: seq<nat>, h: nat)
    requires h < |active| && forall i :: 0 <= i < |hs| ==> hs[i] < |active|
    ensures Pick(active, hs + [h]) == Pick(active, hs) + [active[h]]
  {
  }

  // One step of the walk moves the end of the path to the reversed list.
  lemma PathStep(meta: MetaMap, cur: Hash, back: seq<Hash>)
    requires Rooted(meta) && cur in meta
    ensures Reversed([]) == []
    ensures meta[cur].parent == Zero ==> PathTo(meta, cur) + Reversed(back) == Reversed(back + [cur])
    ensures meta[cur].parent != Zero ==>
              && meta[cur].parent in meta && meta[meta[cur].parent].height < meta[cur].height
              && PathTo(meta, cur) + Reversed(back) == PathTo(meta, meta[cur].parent) + Reversed(back + [cur])
  {
    assert (back + [cur])[..|back|] == back;
  }

  function Reversed(s: seq<Hash>): seq<Hash> {
    if s == [] then [] else [s[|s| - 1]] + Reversed(s[..|s| - 1])
  }

  // ----- the state -----

  class ChainState {
    const params: Params
    const genesisHash: Hash
    var all: BlockMap
    var meta: MetaMap
    var active: seq<Hash>
    var utxos: UtxoMap
    var supply: nat

    // The block tree with its tip.
    ghost function View(): BlockTree
      reads this
    {
      BlockTree(all, meta, if active == [] then Zero else active[|active| - 1], genesisHash)
    }

    // The incremental state is exactly what replaying the active path yields.
    ghost predicate Valid()
      reads this
    {
      && params.Valid()
      && TreeInv(params, View())
      && active == ActivePath(params, View())
      && ApplyChain(params, ActiveChain(params, View())) == Ok(Totals(utxos, supply))
    }

    constructor Empty(p: Params, genesisHash: Hash)
      ensures params == p && this.genesisHash == genesisHash
      ensures all == map[] && meta == map[] && active == [] && utxos == map[] && supply == 0
    {
      params, this.genesisHash := p, genesisHash;
      all, meta, active, utxos, supply := map[], map[], [], map[], 0;
    }

    // Fails exactly when the simple rule rejects the genesis block.
    static method New(p: Params, genesis: Blk) returns (r: Result<ChainState, Error>)
      requires p.Valid()
      ensures match NewTree(p, genesis)
              case Ok(t) => r.Ok? && fresh(r.value) && r.value.params == p && r.value.View() == t && r.value.Valid()
              case Err(e) => r == Err(e)
    {
      hide CheckGenesis, ApplyChain, BlockWork;
      var h := BlockHash(genesis.header);
      var state := new ChainState.Empty(p, h);
      var checked := state.ValidateGenesis(genesis);
      if checked.Err? {
        return Err(checked.error);
      }
      state.meta := state.meta[h := Meta(0, BlockWork(genesis), genesis.header.time, Zero)];
      state.all := state.all[h := genesis];
      state.active := state.active + [h];
      assert BlocksOf(state.all, state.active) == [genesis];
      var totals := state.ApplyChainLoop(state.active);
      if totals.Err? {
        return Err(totals.error);
      }
      state.utxos, state.supply := totals.value.utxos, totals.value.supply;
      assert state.View() == NewTree(p, genesis).value;
      NewTreeActive(p, genesis);
      return Ok(state);
    }

    method ValidateGenesis(g: Blk) returns (r: Result<(), Error>)
      requires params.Valid()
      ensures r == CheckGenesis(params, g)
    {
      hide Merkle.Root;
      var expected := Compact.TargetToBits(params.powLimit);
      if g.header.prev != Zero {
        return Err(BadGenesis);
      }
      if g.header.bits != expected {
        return Err(WrongBits(expected, g.header.bits));
      }
      var pow := CheckPow(params, g.header, 0);
      if pow.Err? {
        return pow;
      }
      var roots := CheckBlockRoots(g);
      if roots.Err? {
        return roots;
      }
      return if BlockSize(g) > params.maxBlockSize then Err(TooLarge) else Ok(());
    }

    method CheckBlockRoots(b: Blk) returns (r: Result<(), Error>)
      ensures r == CheckRoots(b)
    {
      var txRoot := Merkle.MerkleRoot(Txids(b.transactions));
      if b.header.txRoot != txRoot {
        return Err(BadMerkleRoot);
      }
      var witnessRoot := Merkle.MerkleRoot(WitnessHashes(b.transactions));
      return if b.header.witnessRoot != witnessRoot then Err(BadWitnessRoot) else Ok(());
    }

    method MedianTime(from: Hash) returns (median: nat)
      requires Rooted(meta) && from in meta
      ensures median == MedianTimePast(meta, from)
    {
      hide Rooted, Window, Median.Sort;
      var times: seq<nat> := [];
      var cur := from;
      var i := 0;
      while i < 11
        invariant 0 <= i <= 11 && cur in meta && |times| == i
        invariant Window(meta, from, 11) == times + Window(meta, cur, 11 - i)
      {
        WindowStep(meta, cur, 11 - i);
        times := times + [meta[cur].time];
        if meta[cur].parent == Zero {
          break;
        }
        cur := meta[cur].parent;
        i := i + 1;
      }
      if i == 11 {
        WindowStep(meta, cur, 0);
      }
      assert Window(meta, from, 11) == times;
      var sorted := Median.Sort(times);
      median := sorted[|times| / 2];
    }

    method ApplyChainLoop(chain: seq<Hash>) returns (r: Result<Totals, Error>)
      requires forall h :: h in chain ==> h in all
      ensures r == ApplyChain(params, BlocksOf(all, chain))
    {
      hide ValidateBlock;
      var u: UtxoMap := map[];
      var minted: nat := 0;
      ghost var blocks := BlocksOf(all, chain);
      for i := 0 to |chain|
        invariant ApplyChain(params, blocks[..i]) == Ok(Totals(u, minted))
      {
        assert chain[i] in chain;
        var block := all[chain[i]];
        assert blocks[..i + 1][..i] == blocks[..i] && blocks[..i + 1][i] == block;
        var v, u' := ValidateBlockTxs(params, u, block, i);
        if v.Err? {
          ChainFails(params, blocks, i + 1);
          return Err(v.error);
        }
        if minted + v.value >= TWO_64 {
          ChainFails(params, blocks, i + 1);
          return Err(Overflow);
        }
        u, minted := u', minted + v.value;
      }
      assert blocks[..|chain|] == blocks;
      return Ok(Totals(u, minted));
    }

    // The reorg walk: collect hashes back to the block without a parent, then reverse.
    method WalkBack(hash: Hash) returns (chain: seq<Hash>)
      requires Rooted(meta) && hash in meta
      ensures chain == PathTo(meta, hash)
    {
      hide PathTo, Reversed;
      var back: seq<Hash> := [];
      var cur := hash;
      PathStep(meta, cur, back);
      while true
        invariant cur in meta
        invariant PathTo(meta, hash) == PathTo(meta, cur) + Reversed(back)
        decreases meta[cur].height
      {
        PathStep(meta, cur, back);
        back := back + [cur];
        if meta[cur].parent == Zero {
          break;
        }
        cur := meta[cur].parent;
      }
      chain := Reversed(back);
    }

    // Insert a block: side chain, extension of the tip, or reorganisation with
    // rollback on failure.  The outcome and the new state are those of the simple
    // replay rule, and an error leaves every field as it was.
    method AddBlock(block: Blk) returns (r: Result<bool, Error>)
      requires Valid()
      modifies this
      ensures Valid()
      ensures (View(), r) == Tree.AddBlock(params, old(View()), block)
      ensures r.Err? ==> all == old(all) && meta == old(meta)
      ensures r != Ok(true) ==> active == old(active) && utxos == old(utxos) && supply == old(supply)
    {
      hide Tree.AddBlock, TreeInv, CheckHeader, ApplyChain, PathTo, BlocksOf, Rooted, ActivePath, ActiveChain;
      ghost var before := View();
      TreeShape(params, before);
      Refusals(params, before, block);
      var hash := BlockHash(block.header);
      if hash in all {
        return Err(Duplicate);
      }
      if block.header.prev !in meta {
        return Err(UnknownParent);
      }
      var parentHash := block.header.prev;
      var height := meta[parentHash].height + 1;
      var checked := CheckContext(block);
      if checked.Err? {
        return Err(checked.error);
      }
      Outcomes(params, before, block, Totals(utxos, supply));

      var cumWork := meta[parentHash].work + BlockWork(block);
      var tipHash := active[|active| - 1];
      meta := meta[hash := Meta(height, cumWork, block.header.time, parentHash)];
      all := all[hash := block];
      assert View() == Grown(before, block);
      if cumWork <= meta[tipHash].work {
        return Ok(false);
      }

      if parentHash == tipHash {
        r := ExtendTip(block, before);
      } else {
        r := Reorganise(block, before);
      }
    }

    // The state in the middle of AddBlock: the heavier block is stored, the tip is
    // still the old one.
    ghost predicate Pending(before: BlockTree, block: Blk)
      reads this
    {
      && params.Valid() && TreeInv(params, before)
      && active == ActivePath(params, before)
      && ApplyChain(params, ActiveChain(params, before)) == Ok(Totals(utxos, supply))
      && before.all.Keys == before.meta.Keys
      && BlockHash(block.header) !in before.all && block.header.prev in before.meta
      && before.genesis in before.meta && before.tip in before.meta
      && CheckHeader(params, before.meta, before.genesis, block).Ok?
      && View() == Grown(before, block)
      && before.meta[before.tip].work < meta[BlockHash(block.header)].work
    }

    // Fast path: apply the block to the current unspent outputs.
    method ExtendTip(block: Blk, ghost before: BlockTree) returns (r: Result<bool, Error>)
      requires Pending(before, block) && block.header.prev == before.tip
      modifies this
      ensures Valid()
      ensures (View(), r) == Tree.AddBlock(params, before, block)
      ensures r.Err? ==> all == before.all && meta == before.meta
      ensures r == Ok(true) || (r.Err? && active == old(active) && utxos == old(utxos) && supply == old(supply))
    {
      hide Tree.AddBlock, TreeInv, CheckHeader, ApplyChain, ValidateBlock, PathTo, BlocksOf, Rooted, ActivePath, ActiveChain, BlockWork;
      var hash := BlockHash(block.header);
      Outcomes(params, before, block, Totals(utxos, supply));
      var minted, u := ValidateBlockTxs(params, utxos, block, meta[hash].height);
      if minted.Err? {
        Forget(hash, before);
        return Err(minted.error);
      }
      if supply + minted.value >= TWO_64 {
        assert false;  // the early return of the source is unreachable
      }
      active := active + [hash];
      utxos, supply := u, supply + minted.value;
      assert View() == Grown(before, block).(tip := hash);
      return Ok(true);
    }

    // Reorganisation: replay the whole candidate chain from genesis.
    method Reorganise(block: Blk, ghost before: BlockTree) returns (r: Result<bool, Error>)
      requires Pending(before, block)
      modifies this
      ensures Valid()
      ensures (View(), r) == Tree.AddBlock(params, before, block)
      ensures r.Err? ==> all == before.all && meta == before.meta
      ensures r == Ok(true) || (r.Err? && active == old(active) && utxos == old(utxos) && supply == old(supply))
    {
      hide Tree.AddBlock, TreeInv, CheckHeader, ApplyChain, ValidateBlock, PathTo, BlocksOf, Rooted, ActivePath, ActiveChain, BlockWork;
      var hash := BlockHash(block.header);
      Outcomes(params, before, block, Totals(utxos, supply));
      var chain := WalkBack(hash);
      var totals := ApplyChainLoop(chain);
      if totals.Err? {
        Forget(hash, before);
        return Err(totals.error);
      }
      active, utxos, supply := chain, totals.value.utxos, totals.value.supply;
      assert View() == Grown(before, block).(tip := hash);
      return Ok(true);
    }

    // Roll back the insertion of a block.
    method Forget(hash: Hash, ghost before: BlockTree)
      requires hash !in before.all && hash !in before.meta && before.genesis == genesisHash
      requires active != [] && before.tip == active[|active| - 1]
      requires all - {hash} == before.all && meta - {hash} == before.meta
      modifies this`all, this`meta
      ensures View() == before
    {
      meta := meta - {hash};
      all := all - {hash};
    }

    // The header checks of add_block, in order.
    method CheckContext(block: Blk) returns (r: Result<(), Error>)
      requires params.Valid() && Rooted(meta) && block.header.prev in meta && genesisHash in meta
      ensures r == CheckHeader(params, meta, genesisHash, block)
    {
      hide ExpectedBits, CheckPow, CheckRoots, MedianTimePast, Rooted;
      var parent := meta[block.header.prev];
      var expected := ExpectedBits(params, parent, meta[genesisHash].time);
      if block.header.bits != expected {
        return Err(WrongBits(expected, block.header.bits));
      }
      var median := MedianTime(block.header.prev);
      if block.header.time <= median {
        return Err(TimeTooOld);
      }
      if BlockSize(block) > params.maxBlockSize {
        return Err(TooLarge);
      }
      var roots := CheckBlockRoots(block);
      if roots.Err? {
        return roots;
      }
      return CheckPow(params, block.header, parent.height + 1);
    }

    // The pool's check of a transaction against the next block.
    method ValidateStandaloneTx(tx: Txn) returns (r: Result<nat, Error>)
      requires Valid()
      ensures r == StandaloneCheck(params, utxos, |active|, tx)
    {
      if tx.body.IsCoinbase() {
        return Err(NoInputs);
      }
      r := CheckTxLoop(params, tx, |active|, utxos, true);
    }

    method IsActive(h: Hash) returns (b: bool)
      requires Valid()
      ensures b <==> h in active
    {
      hide TreeInv, ApplyChain, ActiveChain, ActivePath;
      ActiveHeights(params, View());
      b := h in meta && meta[h].height < |active| && active[meta[h].height] == h;
    }

    method LocatorHashes() returns (out: seq<Hash>)
      requires Valid()
      ensures out == Entries(active)
    {
      hide TreeInv, ApplyChain, ActiveChain, ActivePath;
      TreeShape(params, View());
      out := LocatorLoop(active);
    }

    method HashesAfterLocator(locator: seq<Hash>, max: nat) returns (out: seq<Hash>)
      requires Valid()
      ensures out == HashesAfter(active, locator, max)
    {
      hide TreeInv, ApplyChain, ActiveChain, ActivePath, After;
      ActiveHeights(params, View());
      var start: nat := 0;
      var i := 0;
      while i < |locator|
        invariant 0 <= i <= |locator| && start == 0
        invariant StartHeight(active, locator) == StartHeight(active, locator[i..])
      {
        var known := IsActive(locator[i]);
        if known {
          start := meta[locator[i]].height;
          UniqueIndex(active, locator[i], start);
          break;
        }
        assert locator[i..][1..] == locator[i + 1..];
        i := i + 1;
      }
      assert start == StartHeight(active, locator);
      var from := start + 1;
      out := After(active, from, max);
    }
  }

  // A spend is admissible to the pool when it would be valid in the next block.
  function StandaloneCheck(p: Params, u: UtxoMap, height: nat, tx: Txn): Result<nat, Error> {
    if tx.body.IsCoinbase() then Err(NoInputs) else CheckTx(p, tx, height, u)
  }

  lemma ActiveHeights(p: Params, t: BlockTree)
    requires p.Valid() && TreeInv(p, t)
    ensures forall i :: 0 <= i < |ActivePath(p, t)| ==>
              ActivePath(p, t)[i] in t.meta && t.meta[ActivePath(p, t)[i]].height == i
    ensures DistinctHashes(ActivePath(p, t))
  {
    hide NodeInv, ApplyChain;
    forall i | 0 <= i < |ActivePath(p, t)|
      ensures ActivePath(p, t)[i] in t.meta && t.meta[ActivePath(p, t)[i]].height == i
    {
      PathPrefix(t.meta, t.tip, i);
    }
  }

  lemma UniqueIndex(s: seq<Hash>, h: Hash, i: nat)
    requires DistinctHashes(s) && i < |s| && s[i] == h
    ensures IndexOf(s, h) == i
  {
  }

  lemma NewTreeActive(p: Params, g: Blk)
    requires p.Valid() && NewTree(p, g).Ok?
    ensures var t := NewTree(p, g).value;
            && TreeInv(p, t) && ActivePath(p, t) == [BlockHash(g.header)] && ActiveChain(p, t) == [g]
  {
    hide NodeInv, CheckGenesis, ApplyChain, BlockWork;
    NewTreeInv(p, g);
    var t := NewTree(p, g).value;
    assert PathTo(t.meta, t.tip) == [t.tip];
  }

  lemma TreeShape(p: Params, t: BlockTree)
    requires p.Valid() && TreeInv(p, t)
    ensures t.all.Keys == t.meta.Keys && t.genesis in t.meta && t.tip in t.meta && Rooted(t.meta)
    ensures |ActivePath(p, t)| == t.meta[t.tip].height + 1
  {
  }

  // When the simple rule refuses a block outright.
  lemma Refusals(p: Params, t: BlockTree, b: Blk)
    requires p.Valid() && TreeInv(p, t)
    ensures BlockHash(b.header) in t.all ==> Tree.AddBlock(p, t, b) == (t, Err(Duplicate))
    ensures BlockHash(b.header) !in t.all && b.header.prev !in t.meta ==> Tree.AddBlock(p, t, b) == (t, Err(UnknownParent))
    ensures t.genesis in t.meta
    ensures BlockHash(b.header) !in t.all && b.header.prev in t.meta && CheckHeader(p, t.meta, t.genesis, b).Err? ==>
              Tree.AddBlock(p, t, b) == (t, Err(CheckHeader(p, t.meta, t.genesis, b).error))
  {
    hide NodeInv, CheckHeader, ApplyChain, Rooted;
  }

  // What the simple rule does with a block whose header passes, in terms of the
  // incremental state.
  lemma Outcomes(p: Params, t: BlockTree, b: Blk, totals: Totals)
    requires p.Valid() && TreeInv(p, t) && ApplyChain(p, ActiveChain(p, t)) == Ok(totals)
    requires BlockHash(b.header) !in t.all && b.header.prev in t.meta && t.genesis in t.meta
    requires CheckHeader(p, t.meta, t.genesis, b).Ok?
    ensures var g, h := Grown(t, b), BlockHash(b.header);
            && t.tip in t.meta && h in g.meta && Rooted(g.meta) && g.all.Keys == g.meta.Keys
            && (forall x :: x in PathTo(g.meta, h) ==> x in g.all)
            && var replay := ApplyChain(p, BlocksOf(g.all, PathTo(g.meta, h)));
               if g.meta[h].work <= t.meta[t.tip].work then
                 && Tree.AddBlock(p, t, b) == (g, Ok(false))
                 && TreeInv(p, g) && ActivePath(p, g) == ActivePath(p, t) && ActiveChain(p, g) == ActiveChain(p, t)
               else if replay.Err? then Tree.AddBlock(p, t, b) == (t, Err(replay.error))
               else
                 && Tree.AddBlock(p, t, b) == (g.(tip := h), Ok(true))
                 && TreeInv(p, g.(tip := h))
                 && ActivePath(p, g.(tip := h)) == PathTo(g.meta, h)
                 && ActiveChain(p, g.(tip := h)) == BlocksOf(g.all, PathTo(g.meta, h))
    ensures b.header.prev == t.tip ==>
              var g, h := Grown(t, b), BlockHash(b.header);
              var v := ValidateBlock(p, totals.utxos, b, g.meta[h].height);
              && PathTo(g.meta, h) == ActivePath(p, t) + [h]
              && ApplyChain(p, BlocksOf(g.all, PathTo(g.meta, h)))
                 == (match v case Err(e) => Err(e) case Ok(o) => Ok(Totals(o.utxos, totals.supply + o.minted)))
              && (v.Ok? ==> totals.supply + v.value.minted < TWO_64)
  {
    hide NodeInv, CheckHeader, ApplyChain, ValidateBlock, PathTo, BlocksOf, Rooted;
    AddBlockKeeps(p, t, b);
    ActiveAfter(p, t, b);
    GrownNodes(p, t, b);
    GrownChain(p, t, b, t.tip);
    if b.header.prev == t.tip {
      CheckedHeader(p, t, b);
      ExtendsReplay(p, t, b, totals);
    }
  }

  // Replaying the active chain plus one block is the stored totals plus that block,
  // and the supply counter cannot overflow.
  lemma ExtendsReplay(p: Params, t: BlockTree, b: Blk, totals: Totals)
    requires p.Valid() && TreeInv(p, t) && ApplyChain(p, ActiveChain(p, t)) == Ok(totals)
    requires BlockSize(b) <= p.maxBlockSize
    ensures var v := ValidateBlock(p, totals.utxos, b, |ActivePath(p, t)|);
            ApplyChain(p, ActiveChain(p, t) + [b])
            == (match v case Err(e) => Err(e) case Ok(o) => Ok(Totals(o.utxos, totals.supply + o.minted)))
    ensures var v := ValidateBlock(p, totals.utxos, b, |ActivePath(p, t)|);
            v.Ok? ==> totals.supply + v.value.minted < TWO_64
  {
    hide ValidateBlock, TreeInv, ActiveChain, ActivePath, HugeOutputs, ApplyTxs, ExitsDead;
    ActiveNumbered(p, t);
    SmallBlockNumbered(p, b);
    var chain := ActiveChain(p, t);
    OnlyOutputsOverflow(p, chain, b);
    assert (chain + [b])[..|chain|] == chain;
  }
}
