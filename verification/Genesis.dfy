// The genesis block, and when a node starts from it.
module Genesis {
  import opened Prelude
  import opened Tx
  import opened Emission
  import opened LittleEndian
  import opened Ledger
  import opened Tree
  import opened TreeProofs
  import opened Nonce
  import opened Miner
  import Compact
  import Merkle

  const NOBODY: Pkh := [0, 0, 0, 0, 0, 0, 0, 0, 0, 0, 0, 0, 0, 0, 0, 0, 0, 0, 0, 0]

  // The height-0 subsidy, paid to a key hash nobody controls.
  function GenesisCoinbase(message: Bytes): Txn {
    Transaction(TxBody(1, [], [TxOutput(BlockReward(0) % TWO_64, P2pkh(MlDsa, NOBODY))], 0, LeBytes(0, 8) + message), [])
  }

  function Unmined(p: Params, message: Bytes, time: U64): Blk
    requires p.Valid()
  {
    BlockOf(Zero, time, Compact.TargetToBits(p.powLimit), [GenesisCoinbase(message)])
  }

  function Mined(p: Params, message: Bytes, time: U64, nonce: U64): Blk
    requires p.Valid()
  {
    var b := Unmined(p, message, time);
    b.(header := b.header.(nonce := nonce))
  }

  // The genesis target: the limit, rounded down to an encodable one.
  function GenesisTarget(p: Params): nat
    requires p.Valid()
  {
    var target := Compact.BitsToTarget(Compact.TargetToBits(p.powLimit));
    if target.Some? then target.value else 0
  }

  // A node starts from this block exactly when its nonce meets the genesis target,
  // its message fits the coinbase and its 194 bytes plus the message fit a block.
  lemma GenesisStarts(p: Params, message: Bytes, time: U64, nonce: U64)
    requires p.Valid()
    ensures var g := Mined(p, message, time, nonce);
            NewTree(p, g).Ok? <==>
              && p.powHash(0, PowMessage(g.header), nonce) <= GenesisTarget(p)
              && |message| <= MAX_COINBASE_EXTRA
              && 194 + |message| <= p.maxBlockSize
  {
    hide Compact.TargetToBits, Compact.BitsToTarget, ValidateBlock, Merkle.Root, GenesisCoinbase, BlockSize, BlockReward;
    var g := Mined(p, message, time, nonce);
    Compact.RoundTrip(p.powLimit);
    GenesisSize(p, message, time, nonce);
    GenesisApplies(p, message, time, nonce);
    assert ApplyChain(p, [g][..0]) == Ok(Totals(map[], 0));
  }

  lemma GenesisSize(p: Params, message: Bytes, time: U64, nonce: U64)
    requires p.Valid()
    ensures BlockSize(Mined(p, message, time, nonce)) == 194 + |message|
  {
    hide Compact.TargetToBits, Merkle.Root, BlockReward;
    var txs := [GenesisCoinbase(message)];
    var outs := txs[0].body.outputs;
    assert txs[..0] == [] && outs[..0] == [];
    assert OutputsSize(outs) == 30;
    assert TxsSize(txs) == TxSize(txs[0]);
  }

  lemma GenesisApplies(p: Params, message: Bytes, time: U64, nonce: U64)
    requires p.Valid()
    ensures var r := ValidateBlock(p, map[], Mined(p, message, time, nonce), 0);
            r.Ok? <==> |message| <= MAX_COINBASE_EXTRA
    ensures var r := ValidateBlock(p, map[], Mined(p, message, time, nonce), 0);
            r.Ok? ==> r.value.minted == R0
  {
    hide Compact.TargetToBits, Merkle.Root, Create, BlockReward;
    FirstReward();
    Widths();
    LeRoundTrip(0, 8);
    var cb := GenesisCoinbase(message);
    assert cb.body.coinbaseData[..8] == LeBytes(0, 8);
    assert CheckOutputs(cb.body.outputs, 1) == Ok(R0);
  }

  lemma FirstReward()
    ensures BlockReward(0) == R0 && 0 < R0 < TWO_64
  {
  }

  // A node that starts holds one unspent output: the first reward, 1,384,578,107 units,
  // locked to twenty zero bytes.
  lemma GenesisHolds(p: Params, message: Bytes, time: U64, nonce: U64)
    requires p.Valid() && NewTree(p, Mined(p, message, time, nonce)).Ok?
    ensures var g := Mined(p, message, time, nonce);
            && ApplyChain(p, [g])
               == Ok(Totals(map[OutPoint(Txid(g.transactions[0]), 0) :=
                                  Utxo(TxOutput(1_384_578_107, P2pkh(MlDsa, seq(20, _ => 0))), 0, true)],
                            1_384_578_107))
            && g.transactions[0].body.coinbaseData[8..] == message
            && g.header.time == time
  {
    hide Compact.TargetToBits, Compact.BitsToTarget, Merkle.Root, BlockReward, CheckGenesis;
    var g := Mined(p, message, time, nonce);
    FirstReward();
    GenesisApplies(p, message, time, nonce);
    assert [g][..0] == [];
    var cb := g.transactions[0];
    assert g.transactions[1..] == [];
    assert NOBODY == seq(20, _ => 0);
    assert cb.body.outputs == [TxOutput(R0, P2pkh(MlDsa, NOBODY))];
    assert CheckOutputs(cb.body.outputs, 1) == Ok(R0);
    assert Create(map[], Txid(cb), cb.body.outputs, 0, true, 1)
           == map[OutPoint(Txid(cb), 0) := Utxo(cb.body.outputs[0], 0, true)];
  }

  // Build the genesis block, from a known nonce or by searching for one.
  method BuildGenesis(p: Params, message: Bytes, time: U64, known: Option<U64>, iters: nat) returns (g: Option<Blk>)
    requires p.Valid()
    ensures known.Some? ==> g == Some(Mined(p, message, time, known.value))
    ensures known.None? && g.Some? && |message| <= MAX_COINBASE_EXTRA && 194 + |message| <= p.maxBlockSize ==>
              NewTree(p, g.value).Ok?
  {
    hide Compact.TargetToBits, Compact.BitsToTarget, NewTree, Merkle.Root, FirstHit, GenesisTarget, GenesisCoinbase;
    if known.Some? {
      return Some(Mined(p, message, time, known.value));
    }
    var b := Unmined(p, message, time);
    var hash := (nonce: U64) => p.powHash(0, PowMessage(b.header), nonce);
    var hit := FirstHit(hash, GenesisTarget(p), 0, iters);
    FirstHitIsFirst(hash, GenesisTarget(p), 0, iters);
    if hit.None? {
      return None;
    }
    g := Some(Mined(p, message, time, hit.value));
    assert PowMessage(g.value.header) == PowMessage(b.header);
    GenesisStarts(p, message, time, hit.value);
  }

  // The invariant of the block tree is met by an actual node.
  lemma NodesExist()
    ensures exists p: Params, t: BlockTree :: p.Valid() && TreeInv(p, t)
  {
    hide Compact.TargetToBits, Compact.BitsToTarget, NewTree, Merkle.Root, TreeInv, GenesisCoinbase;
    var p := Params(60, 86_400, TWO_256 / 4, 100, 4_000_000, 4096, _ => NOBODY, (_, _, _, _) => true, (_, _, _) => 0);
    GenesisStarts(p, [], 0, 0);
    NewTreeInv(p, Mined(p, [], 0, 0));
  }
}
