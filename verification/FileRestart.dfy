// Saving the active chain as bytes and starting again from the file.
module FileRestart {
  import opened Prelude
  import opened Tx
  import opened Ledger
  import opened Tree
  import opened TreeProofs
  import opened Chain
  import opened Sync
  import opened Codec
  import opened Preimages
  import opened Store
  import opened Restore
  import opened Emission
  import opened LittleEndian
  import opened Miner
  import opened Genesis
  import Compact
  import Merkle

  function ConcreteTx(sha3: Digest, tx: Txn): RawTx {
    Transaction(ConcreteBody(sha3, tx.body), tx.witnesses)
  }

  function ConcreteTxs(sha3: Digest, txs: seq<Txn>): (raw: seq<RawTx>)
    ensures |raw| == |txs|
  {
    seq(|txs|, i requires 0 <= i < |txs| => ConcreteTx(sha3, txs[i]))
  }

  // A block with its hash terms computed.
  function ConcreteBlock(sha3: Digest, b: Blk): RawBlock {
    Block(ConcreteHeader(sha3, b.header), ConcreteTxs(sha3, b.transactions))
  }

  function ConcreteBlocks(sha3: Digest, blocks: seq<Blk>): (raw: seq<RawBlock>)
    ensures |raw| == |blocks|
  {
    seq(|blocks|, i requires 0 <= i < |blocks| => ConcreteBlock(sha3, blocks[i]))
  }

  // Every hash a block mentions is of one of the given messages.
  ghost predicate BlockWithin(sha3: Digest, ms: set<Bytes>, b: Blk) {
    && Within(sha3, ms, b.header.prev) && Within(sha3, ms, b.header.txRoot) && Within(sha3, ms, b.header.witnessRoot)
    && forall tx :: tx in b.transactions ==> WithinBody(sha3, ms, tx.body)
  }

  // Blocks over collision-free messages are equal when their bytes' contents are.
  lemma BlockFaithful(sha3: Digest, ms: set<Bytes>, a: Blk, b: Blk)
    requires CollisionFree(sha3, ms) && BlockWithin(sha3, ms, a) && BlockWithin(sha3, ms, b)
    requires ConcreteBlock(sha3, a) == ConcreteBlock(sha3, b)
    ensures a == b
  {
    hide CollisionFree, Within, WithinBody, Concrete, ConcreteBody;
    TermsFaithful(sha3, ms, a.header.prev, b.header.prev);
    TermsFaithful(sha3, ms, a.header.txRoot, b.header.txRoot);
    TermsFaithful(sha3, ms, a.header.witnessRoot, b.header.witnessRoot);
    var s, t := a.transactions, b.transactions;
    assert |s| == |ConcreteTxs(sha3, s)| == |t|;
    forall i | 0 <= i < |s|
      ensures s[i] == t[i]
    {
      assert ConcreteTxs(sha3, s)[i] == ConcreteTxs(sha3, t)[i];
      BodiesFaithful(sha3, ms, s[i].body, t[i].body);
    }
  }

  lemma BlocksFaithful(sha3: Digest, ms: set<Bytes>, a: seq<Blk>, b: seq<Blk>)
    requires CollisionFree(sha3, ms)
    requires (forall x :: x in a ==> BlockWithin(sha3, ms, x)) && (forall x :: x in b ==> BlockWithin(sha3, ms, x))
    requires ConcreteBlocks(sha3, a) == ConcreteBlocks(sha3, b)
    ensures a == b
  {
    hide CollisionFree, BlockWithin, ConcreteBlock;
    assert |a| == |ConcreteBlocks(sha3, a)| == |b|;
    forall i | 0 <= i < |a|
      ensures a[i] == b[i]
    {
      assert ConcreteBlocks(sha3, a)[i] == ConcreteBlocks(sha3, b)[i];
      BlockFaithful(sha3, ms, a[i], b[i]);
    }
  }

  // Computing the hashes leaves the size alone.
  lemma {:induction false} ConcreteTxsSize(sha3: Digest, txs: seq<Txn>)
    ensures TxsSize(ConcreteTxs(sha3, txs)) == TxsSize(txs)
  {
    hide ConcreteBody;
    if txs != [] {
      var n := |txs| - 1;
      ConcreteTxsSize(sha3, txs[..n]);
      assert ConcreteTxs(sha3, txs)[..n] == ConcreteTxs(sha3, txs[..n]);
      SameTxSize(sha3, txs[n]);
    }
  }

  lemma SameTxSize(sha3: Digest, tx: Txn)
    ensures TxSize(ConcreteTx(sha3, tx)) == TxSize(tx)
  {
    hide OutputsSize, WitnessesSize;
  }

  // The active blocks of a node fit the file when they are within the decoder's limits.
  lemma ActiveFits(p: Params, t: BlockTree, sha3: Digest, network: byte)
    requires p.Valid() && TreeInv(p, t) && |ActivePath(p, t)| < TWO_32
    requires forall b :: b in ActiveChain(p, t) ==> FitsBlock(ConcreteBlock(sha3, b))
    ensures FitsFile(Saved(network, ConcreteBlocks(sha3, ActiveChain(p, t))))
  {
    hide TreeInv, ActivePath, ActiveChain, FitsBlock, ConcreteHeader;
    PathStored(p, t);
    var blocks := ActiveChain(p, t);
    forall i | 0 <= i < |blocks|
      ensures FitsFrame(ConcreteBlocks(sha3, blocks)[i])
    {
      assert blocks[i] in blocks;
      StoredSize(p, t, ActivePath(p, t)[i]);
      ConcreteTxsSize(sha3, blocks[i].transactions);
    }
  }

  lemma StoredSize(p: Params, t: BlockTree, h: Hash)
    requires p.Valid() && TreeInv(p, t) && h in t.all
    ensures BlockSize(t.all[h]) <= p.maxBlockSize < TWO_32
  {
    hide ApplyChain, Rooted, CheckHeader, CheckGenesis, BlockSize, BlockWork, ChainTo;
    assert NodeInv(p, t, h);
  }

  // A saved file, whatever follows in it, loads; the only blocks it can be read as
  // are the active ones; and starting from them gives back the active path, the
  // unspent outputs and the supply.
  method RestartFromFile(state: ChainState, sha3: Digest, ghost ms: set<Bytes>, network: byte, trailing: Bytes, reading: seq<Blk>)
    returns (loaded: Result<Saved, LoadError>, r: Result<ChainState, StartError>)
    requires state.Valid() && CollisionFree(sha3, ms) && |state.active| < TWO_32
    requires forall b :: b in ActiveChain(state.params, state.View()) ==>
               FitsBlock(ConcreteBlock(sha3, b)) && BlockWithin(sha3, ms, b)
    requires forall b :: b in reading ==> BlockWithin(sha3, ms, b)
    ensures loaded == Ok(Saved(network, ConcreteBlocks(sha3, ActiveChain(state.params, state.View()))))
    ensures loaded.value.blocks == ConcreteBlocks(sha3, reading) ==>
              && r.Ok? && fresh(r.value) && r.value.Valid()
              && r.value.active == state.active && r.value.utxos == state.utxos && r.value.supply == state.supply
  {
    hide TreeInv, ApplyChain, ActiveChain, ActivePath, NewTree, AddBlock, FitsBlock, FitsFile, FileBytes, LoadBytes, CollisionFree, BlockWithin, ConcreteBlock;
    var blocks := ActiveBlocks(state);
    var raw := ConcreteBlocks(sha3, blocks);
    var bytes := Save(network, raw);
    ActiveFits(state.params, state.View(), sha3, network);
    LoadSaved(Saved(network, raw), trailing);
    loaded := Load(bytes + trailing);
    r := Start(state.params, reading);
    if raw == ConcreteBlocks(sha3, reading) {
      BlocksFaithful(sha3, ms, blocks, reading);
      OwnBlocksStart(state.params, state.View(), blocks);
    }
  }

  // ----- a state whose file does not load -----

  function Ones(n: nat): (outs: seq<TxOutput>)
    ensures |outs| == n
  {
    seq(n, _ => TxOutput(1, P2pkh(MlDsa, NOBODY)))
  }

  lemma {:induction false} OnesAdd(n: nat, k: nat)
    requires k <= n < TWO_64
    ensures CheckOutputs(Ones(n), k) == Ok(k)
  {
    if k > 0 {
      OnesAdd(n, k - 1);
    }
  }

  lemma {:induction false} OnesSize(n: nat)
    ensures OutputsSize(Ones(n)) == 30 * n
  {
    if n > 0 {
      OnesSize(n - 1);
      assert Ones(n)[..n - 1] == Ones(n - 1);
    }
  }

  // A genesis block whose coinbase splits n units over n outputs.
  function WideGenesis(p: Params, n: nat, nonce: U64): Blk
    requires p.Valid()
  {
    var cb := Transaction(TxBody(1, [], Ones(n), 0, LeBytes(0, 8)), []);
    WithNonce(BlockOf(Zero, 0, Compact.TargetToBits(p.powLimit), [cb]), nonce)
  }

  lemma WideSize(p: Params, n: nat, nonce: U64)
    requires p.Valid()
    ensures BlockSize(WideGenesis(p, n, nonce)) == 164 + 30 * n
  {
    hide Compact.TargetToBits, Merkle.Root, OutputsSize;
    OnesSize(n);
    var txs := WideGenesis(p, n, nonce).transactions;
    assert txs[..0] == [];
    assert TxsSize(txs) == TxSize(txs[0]);
  }

  lemma WideApplies(p: Params, n: nat, nonce: U64)
    requires p.Valid() && 0 < n <= R0
    ensures ValidateBlock(p, map[], WideGenesis(p, n, nonce), 0).Ok?
    ensures ValidateBlock(p, map[], WideGenesis(p, n, nonce), 0).value.minted < TWO_64
  {
    hide Compact.TargetToBits, Merkle.Root, Create, BlockReward, CheckOutputs;
    FirstReward();
    Widths();
    LeRoundTrip(0, 8);
    OnesAdd(n, n);
    var cb := WideGenesis(p, n, nonce).transactions[0];
    assert cb.body.coinbaseData[..8] == LeBytes(0, 8);
  }

  // The consensus rules accept it, beyond the number of outputs the decoder reads
  // back; saved, it does not load as itself.
  lemma WideGenesisUnreadable(p: Params, n: nat, nonce: U64, sha3: Digest, network: byte, trailing: Bytes)
    requires p.Valid() && MAX_TX_IO < n <= R0 && 164 + 30 * n <= p.maxBlockSize
    requires p.powHash(0, PowMessage(WideGenesis(p, n, nonce).header), nonce) <= Genesis.GenesisTarget(p)
    ensures NewTree(p, WideGenesis(p, n, nonce)).Ok?
    ensures var f := Saved(network, ConcreteBlocks(sha3, [WideGenesis(p, n, nonce)]));
            LoadBytes(FileBytes(f) + trailing) != Ok(f)
  {
    hide Compact.TargetToBits, Compact.BitsToTarget, ValidateBlock, Merkle.Root, BlockSize, LoadBytes, FileBytes;
    var g := WideGenesis(p, n, nonce);
    Compact.RoundTrip(p.powLimit);
    WideSize(p, n, nonce);
    WideApplies(p, n, nonce);
    assert ApplyChain(p, [g][..0]) == Ok(Totals(map[], 0));
    var f := Saved(network, ConcreteBlocks(sha3, [g]));
    LoadsExactly(f, trailing);
    assert f.blocks[0] in f.blocks && f.blocks[0].transactions[0] in f.blocks[0].transactions;
    assert |f.blocks[0].transactions[0].body.outputs| == n;
  }
}
