// Block templates: greedy inclusion under the size limit, a coinbase claiming
// reward and fees, and the nonce search.
module Miner {
  import opened Prelude
  import opened Tx
  import opened Emission
  import opened Ledger
  import opened LittleEndian
  import opened Conservation
  import opened Tree
  import opened TreeProofs
  import opened Chain
  import opened Joint
  import Compact
  import Nonce
  import Merkle

  type Version = v: Bytes | |v| == 3 witness [0, 0, 0]

  // "SUMP"
  const VERSION_MARKER: Bytes := [0x53, 0x55, 0x4D, 0x50]

  datatype Selection = Selection(included: seq<Txn>, fees: nat, budget: nat)

  predicate Conflicts(included: seq<Txn>, tx: Txn) {
    exists i :: 0 <= i < |included| && ShareInput(included[i], tx)
  }

  // Greedy inclusion of the first n candidates.
  function Select(p: Params, u: UtxoMap, height: nat, txs: seq<Txn>, n: nat): Selection
    requires n <= |txs|
  {
    if n == 0 then Selection([], 0, if p.maxBlockSize >= 4096 then p.maxBlockSize - 4096 else 0)
    else
      var s := Select(p, u, height, txs, n - 1);
      var tx := txs[n - 1];
      var fee := StandaloneCheck(p, u, height, tx);
      if fee.Err? || TxSize(tx) > s.budget || Conflicts(s.included, tx) then s
      else Selection(s.included + [tx], s.fees + fee.value, s.budget - TxSize(tx))
  }

  function Coinbase(height: nat, amount: U64, payout: Pkh, version: Version): Txn {
    Transaction(
      TxBody(1, [], [TxOutput(amount, P2pkh(MlDsa, payout))], 0,
             LeBytes(height, 8) + VERSION_MARKER + version),
      [])
  }

  function BlockOf(prev: Hash, time: U64, bits: U32, txs: seq<Txn>): Blk {
    Block(BlockHeader(1, prev, Merkle.Root(Txids(txs)), Merkle.Root(WitnessHashes(txs)), time, bits, 0), txs)
  }

  // The template on top of a tip with the given metadata; 64-bit sums wrap.
  function TemplateFor(p: Params, u: UtxoMap, prev: Hash, height: nat, median: nat, bits: U32,
                       txs: seq<Txn>, payout: Pkh, version: Version, now: U64): Blk
  {
    var s := Select(p, u, height, txs, |txs|);
    var amount := (BlockReward(height) + s.fees) % TWO_64;
    var next := (median + 1) % TWO_64;
    BlockOf(prev, if now > next then now else next, bits, [Coinbase(height, amount, payout, version)] + s.included)
  }

  ghost function Template(p: Params, t: BlockTree, txs: seq<Txn>, payout: Pkh, version: Version, now: U64): Blk
    requires p.Valid() && TreeInv(p, t)
  {
    TipShape(p, t);
    TemplateFor(p, TipTotals(p, t).utxos, t.tip, t.meta[t.tip].height + 1, MedianTimePast(t.meta, t.tip),
                ExpectedBits(p, t.meta[t.tip], t.meta[t.genesis].time), txs, payout, version, now)
  }

  lemma TipShape(p: Params, t: BlockTree)
    requires p.Valid() && TreeInv(p, t)
    ensures t.tip in t.meta && t.genesis in t.meta
  {
  }

  method BuildBlockTemplate(state: ChainState, txs: seq<Txn>, payout: Pkh, version: Version, now: U64) returns (block: Blk)
    requires state.Valid()
    ensures block == Template(state.params, state.View(), txs, payout, version, now)
  {
    hide TreeInv, Template, TemplateFor, ApplyChain, ActiveChain, ActivePath, Select, ExpectedBits, BlockReward, MedianTimePast;
    var p := state.params;
    TreeShape(p, state.View());
    StateTemplate(p, state.View(), Totals(state.utxos, state.supply), txs, payout, version, now);
    var height := |state.active|;
    var tip := state.active[height - 1];
    var median := state.MedianTime(tip);
    var s := SelectLoop(state, txs);
    var bits := ExpectedBits(p, state.meta[tip], state.meta[state.genesisHash].time);
    block := Assemble(p, state.utxos, tip, height, median, bits, txs, s, payout, version, now);
  }

  lemma StateTemplate(p: Params, t: BlockTree, totals: Totals, txs: seq<Txn>, payout: Pkh, version: Version, now: U64)
    requires p.Valid() && TreeInv(p, t) && ApplyChain(p, ActiveChain(p, t)) == Ok(totals)
    ensures t.tip in t.meta && t.genesis in t.meta
    ensures Template(p, t, txs, payout, version, now)
            == TemplateFor(p, totals.utxos, t.tip, t.meta[t.tip].height + 1, MedianTimePast(t.meta, t.tip),
                           ExpectedBits(p, t.meta[t.tip], t.meta[t.genesis].time), txs, payout, version, now)
  {
    hide TreeInv, TemplateFor, ApplyChain, ActiveChain, ExpectedBits, MedianTimePast;
    TipShape(p, t);
  }

  // Time, coinbase, roots and header around the selected transactions.
  method Assemble(p: Params, u: UtxoMap, prev: Hash, height: nat, median: nat, bits: U32, txs: seq<Txn>, s: Selection,
                  payout: Pkh, version: Version, now: U64)
    returns (block: Blk)
    requires s == Select(p, u, height, txs, |txs|)
    ensures block == TemplateFor(p, u, prev, height, median, bits, txs, payout, version, now)
  {
    hide Select, BlockReward, Coinbase, Merkle.Root;
    var next := (median + 1) % TWO_64;
    var coinbase := Coinbase(height, (BlockReward(height) + s.fees) % TWO_64, payout, version);
    var transactions := [coinbase] + s.included;
    var txRoot := Merkle.MerkleRoot(Txids(transactions));
    var witnessRoot := Merkle.MerkleRoot(WitnessHashes(transactions));
    block := Block(BlockHeader(1, prev, txRoot, witnessRoot, if now > next then now else next, bits, 0), transactions);
  }

  method SelectLoop(state: ChainState, txs: seq<Txn>) returns (selection: Selection)
    requires state.Valid()
    ensures selection == Select(state.params, state.utxos, |state.active|, txs, |txs|)
  {
    hide TreeInv, ApplyChain, ActiveChain, ActivePath, StandaloneCheck, TxSize;
    var p := state.params;
    var included: seq<Txn> := [];
    var fees: nat := 0;
    var budget: nat := if p.maxBlockSize >= 4096 then p.maxBlockSize - 4096 else 0;
    for i := 0 to |txs|
      invariant Selection(included, fees, budget) == Select(p, state.utxos, |state.active|, txs, i)
    {
      var fee := state.ValidateStandaloneTx(txs[i]);
      if fee.Ok? && TxSize(txs[i]) <= budget && !Conflicts(included, txs[i]) {
        budget := budget - TxSize(txs[i]);
        fees := fees + fee.value;
        included := included + [txs[i]];
      }
    }
    selection := Selection(included, fees, budget);
  }

  // ----- the nonce search -----

  function PowFunction(p: Params, height: nat, header: Header): U64 -> nat
    requires p.epochLength > 0
  {
    (nonce: U64) => p.powHash(height / p.epochLength, PowMessage(header), nonce)
  }

  function WithNonce(b: Blk, nonce: U64): Blk {
    b.(header := b.header.(nonce := nonce))
  }

  // Mine a block in place; None when the nonces run out.
  function MineBlock(p: Params, height: nat, b: Blk, iters: nat): Option<Blk>
    requires p.epochLength > 0 && Compact.BitsToTarget(b.header.bits).Some?
  {
    var hit := Nonce.FirstHit(PowFunction(p, height, b.header), Compact.BitsToTarget(b.header.bits).value, b.header.nonce, iters);
    if hit.None? then None else Some(WithNonce(b, hit.value))
  }

  // ----- a mined template connects -----

  // The selection: independent admissible spends that fit the budget.
  lemma {:induction false} SelectKeeps(p: Params, u: UtxoMap, height: nat, txs: seq<Txn>, n: nat)
    requires n <= |txs| && p.maxBlockSize < TWO_32
    ensures var s := Select(p, u, height, txs, n);
            && Independent(s.included)
            && (forall tx :: tx in s.included ==> tx in txs && Admissible(p, u, height, tx))
            && s.fees == FeeSum(p, u, height, s.included)
            && TxsSize(s.included) + s.budget == if p.maxBlockSize >= 4096 then p.maxBlockSize - 4096 else 0
  {
    hide CheckTx, TxSize, TxsSize, Independent, FeeSum;
    if n == 0 {
      NothingSelected(p, u, height);
    } else {
      SelectKeeps(p, u, height, txs, n - 1);
      var s, tx := Select(p, u, height, txs, n - 1), txs[n - 1];
      if Select(p, u, height, txs, n) != s {
        TxOutputsFit(tx);
        SelectOne(p, u, height, s.included, tx);
      }
    }
  }

  // Greedy: a candidate is left out only if it is invalid on its own, larger than
  // what the selection leaves of the budget, or in conflict with what is included.
  lemma {:induction false} SelectGreedy(p: Params, u: UtxoMap, height: nat, txs: seq<Txn>, n: nat, i: nat)
    requires i < n <= |txs|
    ensures var s := Select(p, u, height, txs, n);
            || txs[i] in s.included || StandaloneCheck(p, u, height, txs[i]).Err?
            || TxSize(txs[i]) > s.budget || Conflicts(s.included, txs[i])
    ensures Select(p, u, height, txs, n).budget <= Select(p, u, height, txs, n - 1).budget
  {
    hide StandaloneCheck, TxSize, ShareInput;
    var before, tx := Select(p, u, height, txs, n - 1), txs[n - 1];
    if i < n - 1 {
      SelectGreedy(p, u, height, txs, n - 1, i);
      ConflictsSnoc(before.included, tx, txs[i]);
    }
  }

  lemma ConflictsSnoc(included: seq<Txn>, more: Txn, tx: Txn)
    ensures Conflicts(included, tx) ==> Conflicts(included + [more], tx)
  {
    if Conflicts(included, tx) {
      var i :| 0 <= i < |included| && ShareInput(included[i], tx);
      assert (included + [more])[i] == included[i];
    }
  }

  lemma NothingSelected(p: Params, u: UtxoMap, height: nat)
    ensures Independent([]) && FeeSum(p, u, height, []) == 0 && TxsSize<Hash>([]) == 0
  {
  }

  lemma SelectOne(p: Params, u: UtxoMap, height: nat, included: seq<Txn>, tx: Txn)
    requires Independent(included) && !Conflicts(included, tx) && Admissible(p, u, height, tx)
    requires forall t :: t in included ==> Admissible(p, u, height, t)
    ensures Independent(included + [tx])
    ensures forall t :: t in included + [tx] ==> Admissible(p, u, height, t)
    ensures FeeSum(p, u, height, included + [tx]) == FeeSum(p, u, height, included) + CheckTx(p, tx, height, u).value
    ensures TxsSize(included + [tx]) == TxsSize(included) + TxSize(tx)
  {
    hide CheckTx, TxSize;
    assert (included + [tx])[..|included|] == included;
  }

  lemma CoinbaseShape(height: nat, amount: U64, payout: Pkh, version: Version, rest: seq<Txn>)
    requires height < TWO_64
    ensures var cb := Coinbase(height, amount, payout, version);
            && CheckCoinbase([cb] + rest, height).Ok?
            && cb.body.IsCoinbase() && TxSize(cb) == 77
            && CheckOutputs(cb.body.outputs, |cb.body.outputs|) == if amount == 0 then Err(ZeroOutput) else Ok(amount as nat)
  {
    Widths();
    LeRoundTrip(height, 8);
    var cb := Coinbase(height, amount, payout, version);
    assert cb.body.coinbaseData[..8] == LeBytes(height, 8);
    var outs := cb.body.outputs;
    assert outs[..|outs| - 1] == [];
    assert OutputsSize(outs) == 30;
    assert WitnessesSize(cb.witnesses) == 0;
  }

  lemma {:induction false} TxsSizeAppend(a: seq<Txn>, b: seq<Txn>)
    ensures TxsSize(a + b) == TxsSize(a) + TxsSize(b)
  {
    hide TxSize;
    if b == [] {
      assert a + b == a;
    } else {
      TxsSizeAppend(a, b[..|b| - 1]);
      assert (a + b)[..|a + b| - 1] == a + b[..|b| - 1];
    }
  }

  // What the template's transactions do to the tip state: they apply, and the
  // coinbase is accepted unless it would pay nothing.
  lemma TemplateApplies(p: Params, u: UtxoMap, created: set<Hash>, height: nat, txs: seq<Txn>,
                        payout: Pkh, version: Version, amount: U64, b: Blk)
    requires p.Valid() && LedgerInv(u, created, height) && Total(u) <= RewardSum(height) && height < TWO_64
    requires amount == (BlockReward(height) + Select(p, u, height, txs, |txs|).fees) % TWO_64
    requires b.transactions == [Coinbase(height, amount, payout, version)] + Select(p, u, height, txs, |txs|).included
    ensures amount == BlockReward(height) + Select(p, u, height, txs, |txs|).fees
    ensures && ValidateBlock(p, u, b, height).Ok? == (amount > 0)
            && (amount == 0 ==> ValidateBlock(p, u, b, height) == Err(ZeroOutput))
    ensures p.maxBlockSize >= 201 ==> BlockSize(b) <= p.maxBlockSize
  {
    hide CheckTx, LedgerInv, Total, BlockReward, ApplyTxs, BlockSize, TxsSize, TxSize, CheckOutputs, CheckCoinbase, DistinctTxids, RewardSum,
         Coinbase, ValidateBlock, Select;
    var s := Select(p, u, height, txs, |txs|);
    SelectKeeps(p, u, height, txs, |txs|);
    UnspentFits(height, Total(u));
    JointlyValid(p, u, created, height, s.included);
    AmountFits(height, s.fees);
    var cb := Coinbase(height, amount, payout, version);
    CoinbaseShape(height, amount, payout, version, s.included);
    forall tx | tx in s.included
      ensures !tx.body.IsCoinbase()
    {
      assert Admissible(p, u, height, tx);
    }
    CoinbaseApart(b.transactions, s.included, cb);
    assert b.transactions[1..] == s.included;
    BlockOutcome(p, u, b, height, s.included, s.fees);
    TxsSizeAppend(b.transactions[..1], s.included);
    SizeOfTemplate(b, s.included);
  }

  // A block whose coinbase claims exactly reward and fees, around spends that apply.
  lemma BlockOutcome(p: Params, u: UtxoMap, b: Blk, height: nat, rest: seq<Txn>, fees: nat)
    requires b.transactions != [] && b.transactions[1..] == rest && BlockReward(height) + fees < TWO_64
    requires CheckCoinbase(b.transactions, height).Ok? && DistinctTxids(b.transactions)
    requires ApplyTxs(p, u, rest, height, |rest|).Ok? && ApplyTxs(p, u, rest, height, |rest|).value.fees == fees
    requires var outs, amount := b.transactions[0].body.outputs, BlockReward(height) + fees;
             CheckOutputs(outs, |outs|) == if amount == 0 then Err(ZeroOutput) else Ok(amount)
    ensures if BlockReward(height) + fees == 0 then ValidateBlock(p, u, b, height) == Err(ZeroOutput)
            else ValidateBlock(p, u, b, height).Ok?
  {
    hide ApplyTxs, BlockReward, CheckOutputs, CheckCoinbase, DistinctTxids, Create;
  }

  lemma UnspentFits(height: nat, total: nat)
    requires total <= RewardSum(height)
    ensures total < TWO_64
  {
    hide RewardSum;
    RewardSumFits(height);
  }

  lemma AmountFits(height: nat, fees: nat)
    requires fees <= RewardSum(height)
    ensures BlockReward(height) + fees < TWO_64
    ensures (BlockReward(height) + fees) % TWO_64 == BlockReward(height) + fees
  {
    hide BlockReward, RewardSum;
    RewardSumFits(height + 1);
    NextReward(height);
    Unwrapped(BlockReward(height) + fees);
  }

  lemma NextReward(height: nat)
    ensures RewardSum(height + 1) == RewardSum(height) + BlockReward(height)
  {
    hide BlockReward;
  }

  lemma Unwrapped(x: nat)
    requires x < TWO_64
    ensures x % TWO_64 == x
  {
  }

  lemma SizeOfTemplate(b: Blk, rest: seq<Txn>)
    requires b.transactions != [] && b.transactions[1..] == rest
    requires TxsSize(b.transactions[..1] + rest) == TxsSize(b.transactions[..1]) + TxsSize(rest)
    requires TxSize(b.transactions[0]) == 77
    ensures BlockSize(b) == 201 + TxsSize(rest)
  {
    hide TxSize;
    assert b.transactions[..1] + rest == b.transactions;
    assert b.transactions[..1][..0] == [];
  }

  lemma CoinbaseApart(all: seq<Txn>, rest: seq<Txn>, cb: Txn)
    requires all == [cb] + rest && cb.body.IsCoinbase()
    requires Independent(rest) && forall tx :: tx in rest ==> !tx.body.IsCoinbase()
    ensures DistinctTxids(all)
  {
    IndependentDistinct(rest);
    forall i, j | 0 <= i < j < |all|
      ensures Txid(all[i]) != Txid(all[j])
    {
      assert all[j] == rest[j - 1] && rest[j - 1] in rest;
      if i > 0 {
        assert all[i] == rest[i - 1];
      }
    }
  }

  // A block on the tip is never already stored: it would outweigh the tip.
  lemma TipChildNew(p: Params, t: BlockTree, b: Blk)
    requires p.Valid() && TreeInv(p, t) && b.header.prev == t.tip
    ensures BlockHash(b.header) !in t.all
  {
    hide CheckHeader, CheckGenesis, ApplyChain, BlockWork;
    var h := BlockHash(b.header);
    if h in t.all {
      assert NodeInv(p, t, h);
      WorkPositive(p, t.all[h]);
      PrevNotZero(p, t, t.tip);
    }
  }

  // The header rules hold for a template whose nonce meets the target.
  lemma TemplateHeader(p: Params, t: BlockTree, txs: seq<Txn>, payout: Pkh, version: Version, now: U64, nonce: U64)
    requires p.Valid() && TreeInv(p, t) && t.tip in t.meta && t.genesis in t.meta
    requires MedianTimePast(t.meta, t.tip) < TWO_64 - 1
    requires BlockSize(Template(p, t, txs, payout, version, now)) <= p.maxBlockSize
    requires var b := Template(p, t, txs, payout, version, now);
             var target := Compact.BitsToTarget(b.header.bits);
             target.Some? ==>
               PowFunction(p, t.meta[t.tip].height + 1, b.header)(nonce) <= target.value
    ensures var b := WithNonce(Template(p, t, txs, payout, version, now), nonce);
            b.header.prev == t.tip && CheckHeader(p, t.meta, t.genesis, b).Ok?
  {
    hide TreeInv, TipTotals, ExpectedBits, TemplateFor, MedianTimePast, Compact.BitsToTarget, CheckRoots, BlockSize;
    ExpectedBitsDecode(p, t.meta[t.tip], t.meta[t.genesis].time);
    TemplateParts(p, TipTotals(p, t).utxos, t.tip, t.meta[t.tip].height + 1, MedianTimePast(t.meta, t.tip),
                  ExpectedBits(p, t.meta[t.tip], t.meta[t.genesis].time), txs, payout, version, now, nonce);
  }

  lemma TemplateParts(p: Params, u: UtxoMap, prev: Hash, height: nat, median: nat, bits: U32,
                      txs: seq<Txn>, payout: Pkh, version: Version, now: U64, nonce: U64)
    requires median < TWO_64 - 1
    ensures var b := WithNonce(TemplateFor(p, u, prev, height, median, bits, txs, payout, version, now), nonce);
            && b.header.prev == prev && b.header.bits == bits && b.header.nonce == nonce
            && b.header.time > median && b.header.time >= now
            && PowMessage(b.header) == PowMessage(TemplateFor(p, u, prev, height, median, bits, txs, payout, version, now).header)
            && CheckRoots(b).Ok?
            && BlockSize(b) == BlockSize(TemplateFor(p, u, prev, height, median, bits, txs, payout, version, now))
  {
    hide Merkle.Root, Select, BlockReward, Coinbase, TxsSize;
  }

  // For any reachable state and any candidate list, the template with a nonce
  // that meets its target becomes the new tip, unless reward and fees are both
  // zero, in which case its coinbase is refused.
  lemma MinedTemplateConnects(p: Params, t: BlockTree, txs: seq<Txn>, payout: Pkh, version: Version, now: U64, nonce: U64)
    requires p.Valid() && TreeInv(p, t) && t.tip in t.meta
    requires p.maxBlockSize >= 201 && t.meta[t.tip].height + 1 < TWO_64
    requires MedianTimePast(t.meta, t.tip) < TWO_64 - 1
    requires var b := Template(p, t, txs, payout, version, now);
             var target := Compact.BitsToTarget(b.header.bits);
             target.Some? ==>
               PowFunction(p, t.meta[t.tip].height + 1, b.header)(nonce) <= target.value
    ensures var b := WithNonce(Template(p, t, txs, payout, version, now), nonce);
            var fees := Select(p, TipTotals(p, t).utxos, t.meta[t.tip].height + 1, txs, |txs|).fees;
            AddBlock(p, t, b).1
            == if BlockReward(t.meta[t.tip].height + 1) + fees > 0 then Ok(true) else Err(ZeroOutput)
  {
    hide TreeInv, AddBlock, Template, CheckHeader, ValidateBlock, ApplyChain, ActiveChain, ActivePath, BlockReward, Select,
         MedianTimePast, RewardSum, LedgerInv, Total, Burned, BlockSize, Compact.BitsToTarget;
    TipShape(p, t);
    var totals := TipTotals(p, t);
    var template := Template(p, t, txs, payout, version, now);
    var b := WithNonce(template, nonce);
    var chain := ActiveChain(p, t);
    ActiveNumbered(p, t);
    SupplyExact(p, chain);
    TemplateTransactions(p, t, txs, payout, version, now);
    var amount := (BlockReward(|chain|) + Select(p, totals.utxos, |chain|, txs, |txs|).fees) % TWO_64;
    TemplateApplies(p, totals.utxos, Created(chain), |chain|, txs, payout, version, amount, template);
    SameContents(p, totals.utxos, template, nonce, |chain|);
    TemplateHeader(p, t, txs, payout, version, now, nonce);
    TipChildNew(p, t, b);
    Extends(p, t, b, totals);
  }

  lemma TemplateTransactions(p: Params, t: BlockTree, txs: seq<Txn>, payout: Pkh, version: Version, now: U64)
    requires p.Valid() && TreeInv(p, t)
    ensures var u, h := TipTotals(p, t).utxos, |ActivePath(p, t)|;
            var s := Select(p, u, h, txs, |txs|);
            Template(p, t, txs, payout, version, now).transactions
            == [Coinbase(h, (BlockReward(h) + s.fees) % TWO_64, payout, version)] + s.included
  {
    hide TreeInv, TipTotals, ActivePath, Select, BlockReward, MedianTimePast, ExpectedBits, TemplateFor, Coinbase;
    TreeShape(p, t);
    TransactionsOf(p, TipTotals(p, t).utxos, t.tip, t.meta[t.tip].height + 1, MedianTimePast(t.meta, t.tip),
                   ExpectedBits(p, t.meta[t.tip], t.meta[t.genesis].time), txs, payout, version, now);
  }

  lemma TransactionsOf(p: Params, u: UtxoMap, prev: Hash, height: nat, median: nat, bits: U32,
                       txs: seq<Txn>, payout: Pkh, version: Version, now: U64)
    ensures var s := Select(p, u, height, txs, |txs|);
            TemplateFor(p, u, prev, height, median, bits, txs, payout, version, now).transactions
            == [Coinbase(height, (BlockReward(height) + s.fees) % TWO_64, payout, version)] + s.included
  {
    hide Select, BlockReward, Coinbase, Merkle.Root;
  }

  // The nonce plays no part in a block's size or its transactions' effect.
  lemma SameContents(p: Params, u: UtxoMap, b: Blk, nonce: U64, height: nat)
    ensures BlockSize(WithNonce(b, nonce)) == BlockSize(b)
    ensures ValidateBlock(p, u, WithNonce(b, nonce), height) == ValidateBlock(p, u, b, height)
  {
    hide ApplyTxs, CheckCoinbase, CheckOutputs, DistinctTxids;
  }

  // A block on the tip whose header passes succeeds or fails with its transactions.
  lemma Extends(p: Params, t: BlockTree, b: Blk, totals: Totals)
    requires p.Valid() && TreeInv(p, t) && t.tip in t.meta && t.genesis in t.meta && b.header.prev == t.tip
    requires ApplyChain(p, ActiveChain(p, t)) == Ok(totals)
    requires BlockHash(b.header) !in t.all && CheckHeader(p, t.meta, t.genesis, b).Ok?
    ensures AddBlock(p, t, b).1
            == match ValidateBlock(p, totals.utxos, b, |ActivePath(p, t)|) case Ok(_) => Ok(true) case Err(e) => Err(e)
  {
    hide TreeInv, AddBlock, CheckHeader, ValidateBlock, ApplyChain, ActiveChain, ActivePath, PathTo, BlocksOf, Rooted, BlockWork;
    Outcomes(p, t, b, totals);
    CheckedHeader(p, t, b);
    WorkPositive(p, b);
  }

  // ----- whom a template pays -----

  // The one output of the block's first transaction is unspent: this amount, locked to
  // the payee, marked as a coinbase of this height.
  ghost predicate Pays(u: UtxoMap, b: Blk, amount: nat, payout: Pkh, height: nat) {
    && b.transactions != [] && |b.transactions[0].body.outputs| == 1
    && var op := OutPoint(Txid(b.transactions[0]), 0);
       && op in u && u[op].output.amount == amount && u[op].output.lock == P2pkh(MlDsa, payout)
       && u[op].height == height && u[op].coinbase
  }

  lemma CoinbasePays(p: Params, u: UtxoMap, b: Blk, height: nat, amount: U64, payout: Pkh, version: Version, rest: seq<Txn>)
    requires b.transactions == [Coinbase(height, amount, payout, version)] + rest
    requires ValidateBlock(p, u, b, height).Ok?
    ensures Pays(ValidateBlock(p, u, b, height).value.utxos, b, amount, payout, height)
  {
    hide ApplyTxs, CheckOutputs, CheckCoinbase, DistinctTxids, BlockReward;
  }

  // What the software version in the data of a coinbase reads as, if it is there.
  function CoinbaseVersion(data: Bytes): Option<(byte, byte, byte)> {
    if |data| >= 15 && data[8..12] == VERSION_MARKER then Some((data[12], data[13], data[14])) else None
  }

  lemma VersionSignalled(height: nat, amount: U64, payout: Pkh, version: Version)
    ensures CoinbaseVersion(Coinbase(height, amount, payout, version).body.coinbaseData)
            == Some((version[0], version[1], version[2]))
  {
    var data := Coinbase(height, amount, payout, version).body.coinbaseData;
    assert data[8..12] == VERSION_MARKER;
  }

  // The state after a block on the tip is what the block makes of the tip's outputs.
  lemma TipAfter(p: Params, t: BlockTree, b: Blk)
    requires p.Valid() && TreeInv(p, t) && AddBlock(p, t, b).1 == Ok(true) && b.header.prev == t.tip
    ensures TreeInv(p, AddBlock(p, t, b).0)
    ensures var v := ValidateBlock(p, TipTotals(p, t).utxos, b, |ActiveChain(p, t)|);
            v.Ok? && TipTotals(p, AddBlock(p, t, b).0).utxos == v.value.utxos
  {
    hide TreeInv, AddBlock, ValidateBlock, PathTo, BlocksOf, ActivePath;
    ActiveAfter(p, t, b);
    TipChain(p, t);
    ActiveNumbered(p, t);
    ActiveNumbered(p, AddBlock(p, t, b).0);
    var chain := ActiveChain(p, t);
    assert (chain + [b])[..|chain|] == chain;
  }

  lemma TipChain(p: Params, t: BlockTree)
    requires p.Valid() && TreeInv(p, t)
    ensures t.tip in t.meta && Rooted(t.meta) && t.all.Keys == t.meta.Keys && ChainTo(t, t.tip) == ActiveChain(p, t)
  {
    hide NodeInv, ApplyChain;
  }

  // Reward and fees never wrap, so the coinbase of a template claims exactly them.
  lemma TemplateAmount(p: Params, t: BlockTree, txs: seq<Txn>, payout: Pkh, version: Version, now: U64)
    requires p.Valid() && TreeInv(p, t) && |ActivePath(p, t)| < TWO_64
    ensures var h := |ActivePath(p, t)|;
            var s := Select(p, TipTotals(p, t).utxos, h, txs, |txs|);
            && BlockReward(h) + s.fees < TWO_64
            && Template(p, t, txs, payout, version, now).transactions
               == [Coinbase(h, BlockReward(h) + s.fees, payout, version)] + s.included
  {
    hide TreeInv, Template, ApplyChain, ActiveChain, ActivePath, BlockReward, Select, Coinbase, RewardSum, LedgerInv, Total, Burned,
         BlockSize, ValidateBlock;
    var totals, chain := TipTotals(p, t), ActiveChain(p, t);
    ActiveNumbered(p, t);
    SupplyExact(p, chain);
    TemplateTransactions(p, t, txs, payout, version, now);
    var amount := (BlockReward(|chain|) + Select(p, totals.utxos, |chain|, txs, |txs|).fees) % TWO_64;
    TemplateApplies(p, totals.utxos, Created(chain), |chain|, txs, payout, version, amount,
                    Template(p, t, txs, payout, version, now));
  }

  // A mined template that becomes the tip leaves reward and fees to the payee alone,
  // signals the software version and is no earlier than the clock.
  lemma TemplatePays(p: Params, t: BlockTree, txs: seq<Txn>, payout: Pkh, version: Version, now: U64, nonce: U64)
    requires p.Valid() && TreeInv(p, t) && t.tip in t.meta
    requires t.meta[t.tip].height + 1 < TWO_64 && MedianTimePast(t.meta, t.tip) < TWO_64 - 1
    requires AddBlock(p, t, WithNonce(Template(p, t, txs, payout, version, now), nonce)).1 == Ok(true)
    ensures var b, h := WithNonce(Template(p, t, txs, payout, version, now), nonce), t.meta[t.tip].height + 1;
            var t' := AddBlock(p, t, b).0;
            && TreeInv(p, t')
            && Pays(TipTotals(p, t').utxos, b,
                    BlockReward(h) + Select(p, TipTotals(p, t).utxos, h, txs, |txs|).fees, payout, h)
            && CoinbaseVersion(b.transactions[0].body.coinbaseData) == Some((version[0], version[1], version[2]))
            && b.transactions[1..] == Select(p, TipTotals(p, t).utxos, h, txs, |txs|).included
            && b.header.time > MedianTimePast(t.meta, t.tip) && b.header.time >= now
            && (b.header.time == now || b.header.time == MedianTimePast(t.meta, t.tip) + 1)
  {
    hide TreeInv, AddBlock, Template, ValidateBlock, ApplyChain, BlocksOf, PathTo, BlockReward, Select, Coinbase,
         MedianTimePast, TipTotals, Pays, CoinbaseVersion;
    var b, h := WithNonce(Template(p, t, txs, payout, version, now), nonce), |ActivePath(p, t)|;
    TreeShape(p, t);
    ActiveNumbered(p, t);
    TemplateAmount(p, t, txs, payout, version, now);
    TemplateTimes(p, t, txs, payout, version, now);
    TipAfter(p, t, b);
    var s := Select(p, TipTotals(p, t).utxos, h, txs, |txs|);
    CoinbasePays(p, TipTotals(p, t).utxos, b, h, BlockReward(h) + s.fees, payout, version, s.included);
    VersionSignalled(h, BlockReward(h) + s.fees, payout, version);
  }

  lemma TemplateTimes(p: Params, t: BlockTree, txs: seq<Txn>, payout: Pkh, version: Version, now: U64)
    requires p.Valid() && TreeInv(p, t) && t.tip in t.meta && MedianTimePast(t.meta, t.tip) < TWO_64 - 1
    ensures var header, median := Template(p, t, txs, payout, version, now).header, MedianTimePast(t.meta, t.tip);
            header.prev == t.tip && header.time > median && header.time >= now && (header.time == now || header.time == median + 1)
  {
    hide TreeInv, TipTotals, Select, BlockReward, MedianTimePast, ExpectedBits, Coinbase, Merkle.Root;
    TipShape(p, t);
  }

  // What submitting a mined template comes to.
  lemma MinedOutcome(p: Params, t: BlockTree, txs: seq<Txn>, payout: Pkh, version: Version, now: U64, nonce: U64)
    requires p.Valid() && TreeInv(p, t) && t.tip in t.meta
    requires p.maxBlockSize >= 201 && t.meta[t.tip].height + 1 < TWO_64
    requires MedianTimePast(t.meta, t.tip) < TWO_64 - 1
    requires var b := Template(p, t, txs, payout, version, now);
             var target := Compact.BitsToTarget(b.header.bits);
             target.Some? ==>
               PowFunction(p, t.meta[t.tip].height + 1, b.header)(nonce) <= target.value
    ensures var b, h := WithNonce(Template(p, t, txs, payout, version, now), nonce), |ActivePath(p, t)|;
            var amount, (t', r) := BlockReward(h) + Select(p, TipTotals(p, t).utxos, h, txs, |txs|).fees, AddBlock(p, t, b);
            && TreeInv(p, t')
            && r == (if amount > 0 then Ok(true) else Err(ZeroOutput))
            && (r.Ok? ==> ActivePath(p, t') == ActivePath(p, t) + [BlockHash(b.header)]
                          && Pays(TipTotals(p, t').utxos, b, amount, payout, h))
  {
    hide TreeInv, AddBlock, Template, TipTotals, PathTo, BlockReward, Select, MedianTimePast, Pays, CoinbaseVersion,
         Compact.BitsToTarget;
    var b := WithNonce(Template(p, t, txs, payout, version, now), nonce);
    TreeShape(p, t);
    TipPath(p, t);
    TemplateTimes(p, t, txs, payout, version, now);
    MinedTemplateConnects(p, t, txs, payout, version, now, nonce);
    AddBlockKeeps(p, t, b);
    if AddBlock(p, t, b).1.Ok? {
      ActiveAfter(p, t, b);
      TemplatePays(p, t, txs, payout, version, now, nonce);
    }
  }

  // A template on the tip with its nonce found, and what submitting it comes to;
  // None when the nonces run out.
  method MineTemplate(state: ChainState, txs: seq<Txn>, payout: Pkh, version: Version, now: U64, iters: nat)
    returns (mined: Option<Blk>)
    requires state.Valid()
    requires state.params.maxBlockSize >= 201 && |state.active| < TWO_64
    requires MedianTimePast(state.meta, state.active[|state.active| - 1]) < TWO_64 - 1
    ensures var p, t, h := state.params, state.View(), |state.active|;
            mined.Some? ==>
              var amount := BlockReward(h) + Select(p, state.utxos, h, txs, |txs|).fees;
              var (t', r) := Tree.AddBlock(p, t, mined.value);
              && TreeInv(p, t')
              && r == (if amount > 0 then Ok(true) else Err(ZeroOutput))
              && (r.Ok? ==> ActivePath(p, t') == state.active + [BlockHash(mined.value.header)]
                            && Pays(TipTotals(p, t').utxos, mined.value, amount, payout, h))
  {
    hide TreeInv, Template, AddBlock, ApplyChain, ActiveChain, PathTo, Select, BlockReward, MedianTimePast,
         Compact.BitsToTarget, Nonce.FirstHit, Pays, MineBlock, PowFunction, WithNonce;
    var p := state.params;
    ghost var t := state.View();
    TreeShape(p, t);
    var template := BuildBlockTemplate(state, txs, payout, version, now);
    TemplateBits(p, t, txs, payout, version, now);
    mined := MineBlock(p, |state.active|, template, iters);
    if mined.Some? {
      MinedMeets(p, |state.active|, template, iters);
      MinedOutcome(p, t, txs, payout, version, now, mined.value.header.nonce);
    }
  }

  // Template, nonce search and submission; None when the nonces run out.
  method MineAndConnect(state: ChainState, txs: seq<Txn>, payout: Pkh, version: Version, now: U64, iters: nat)
    returns (r: Option<Result<Blk, Error>>)
    requires state.Valid()
    requires state.params.maxBlockSize >= 201 && |state.active| < TWO_64
    requires MedianTimePast(state.meta, state.active[|state.active| - 1]) < TWO_64 - 1
    modifies state
    ensures state.Valid()
    ensures r.None? ==> state.View() == old(state.View())
    ensures var fees := Select(state.params, old(state.utxos), old(|state.active|), txs, |txs|).fees;
            r.Some? ==> (r.value.Ok? <==> BlockReward(old(|state.active|)) + fees > 0)
    ensures r.Some? && r.value.Ok? ==> state.active == old(state.active) + [BlockHash(r.value.value.header)]
    ensures var fees := Select(state.params, old(state.utxos), old(|state.active|), txs, |txs|).fees;
            r.Some? && r.value.Ok? ==>
              Pays(state.utxos, r.value.value, BlockReward(old(|state.active|)) + fees, payout, old(|state.active|))
    ensures r.Some? && r.value.Err? ==> r.value.error == ZeroOutput && state.View() == old(state.View())
  {
    hide TreeInv, AddBlock, ApplyChain, ActiveChain, ActivePath, Select, BlockReward, MedianTimePast, Pays;
    var mined := MineTemplate(state, txs, payout, version, now, iters);
    if mined.None? {
      return None;
    }
    var added := state.AddBlock(mined.value);
    return Some(if added.Ok? then Ok(mined.value) else Err(added.error));
  }

  lemma TipPath(p: Params, t: BlockTree)
    requires p.Valid() && TreeInv(p, t)
    ensures t.tip in t.meta && Rooted(t.meta) && PathTo(t.meta, t.tip) == ActivePath(p, t)
  {
  }

  lemma TemplateBits(p: Params, t: BlockTree, txs: seq<Txn>, payout: Pkh, version: Version, now: U64)
    requires p.Valid() && TreeInv(p, t)
    ensures Compact.BitsToTarget(Template(p, t, txs, payout, version, now).header.bits).Some?
    ensures Template(p, t, txs, payout, version, now).header.prev == t.tip
  {
    hide TreeInv, TipTotals, Select, BlockReward, MedianTimePast, ExpectedBits, Compact.BitsToTarget, Merkle.Root;
    TipShape(p, t);
    ExpectedBitsDecode(p, t.meta[t.tip], t.meta[t.genesis].time);
  }

  lemma MinedMeets(p: Params, height: nat, b: Blk, iters: nat)
    requires p.epochLength > 0 && Compact.BitsToTarget(b.header.bits).Some?
    requires MineBlock(p, height, b, iters).Some?
    ensures var m := MineBlock(p, height, b, iters).value;
            m == WithNonce(b, m.header.nonce)
            && PowFunction(p, height, b.header)(m.header.nonce) <= Compact.BitsToTarget(b.header.bits).value
  {
    hide Compact.BitsToTarget, Nonce.FirstHit;
    Nonce.FirstHitIsFirst(PowFunction(p, height, b.header), Compact.BitsToTarget(b.header.bits).value, b.header.nonce, iters);
  }
}
