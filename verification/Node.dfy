// The message handlers of a node, over its chain, its pool and what it has
// requested from each peer.
module Node {
  import opened Prelude
  import opened Protocol
  import opened Tx
  import opened Ledger
  import opened Conservation
  import opened Tree
  import opened TreeProofs
  import opened Locator
  import opened Chain
  import opened Mempool
  import opened Fees
  import opened Joint
  import opened Sync

  class Peer {
    var requested: set<Hash>

    constructor ()
      ensures requested == {}
    {
      requested := {};
    }
  }

  class FullNode {
    const chain: ChainState
    const pool: Pool

    // The pool is indexed and every pooled transaction is valid in the next block and
    // pays its way there.
    ghost predicate Valid()
      reads this, chain, pool
    {
      chain.Valid() && pool.Valid() && PoolPaid(chain.params, chain.utxos, |chain.active|, pool.txs)
    }

    constructor (chain: ChainState)
      requires chain.Valid()
      ensures Valid() && this.chain == chain && fresh(pool) && pool.txs == map[]
    {
      this.chain := chain;
      pool := new Pool();
    }

    // Add a block; a new tip refreshes the pool and is announced.
    method AcceptBlock(block: Blk) returns (r: Result<bool, Error>, announce: seq<Message>)
      requires Valid()
      modifies chain, pool
      ensures Valid()
      ensures (chain.View(), r) == AddBlock(chain.params, old(chain.View()), block)
      ensures pool.txs == if r != Ok(true) then old(pool.txs)
                          else map id | id in old(pool.txs)
                                 && !Displaced(old(pool.txs)[id], block.transactions)
                                 && StandaloneCheck(chain.params, chain.utxos, |chain.active|, old(pool.txs)[id]).Ok?
                                 :: old(pool.txs)[id]
      ensures announce == if r == Ok(true) then [Inv([BlockHash(block.header)], [])] else []
    {
      hide AddBlock, TreeInv, ApplyChain, ActiveChain, ActivePath, StandaloneCheck, IndexInv, Displaced;
      announce := [];
      ghost var before, pooled := chain.View(), pool.txs;
      r := chain.AddBlock(block);
      if r == Ok(true) {
        pool.UpdateForBlock(chain, block);
        SurvivorsPay(chain.params, before, chain.View(), pooled, pool.txs);
        announce := [Inv([BlockHash(block.header)], [])];
      }
    }

    // Admit a transaction, from a peer or submitted here, and announce it.
    method AcceptTx(tx: Txn) returns (r: Result<nat, PoolError>, announce: seq<Message>)
      requires Valid()
      modifies pool
      ensures Valid()
      ensures r == Admission(chain.params, chain.utxos, |chain.active|, old(pool.txs), old(pool.spends), old(pool.bytes), tx)
      ensures pool.txs == if r.Ok? then old(pool.txs)[Txid(tx) := tx] else old(pool.txs)
      ensures announce == if r.Ok? then [Inv([], [Txid(tx)])] else []
    {
      hide TreeInv, ApplyChain, ActiveChain, ActivePath, StandaloneCheck, IndexInv, TxSize;
      ghost var txs, spends, bytes := pool.txs, pool.spends, pool.bytes;
      r := pool.Insert(chain, tx);
      if r.Ok? {
        AdmittedPays(chain.params, chain.utxos, |chain.active|, txs, spends, bytes, tx);
      }
      announce := if r.Ok? then [Inv([], [Txid(tx)])] else [];
    }

    method HandleInv(peer: Peer, blocks: seq<Hash>, txs: seq<Hash>) returns (out: seq<Message>)
      requires Valid()
      modifies peer
      ensures Valid()
      ensures (peer.requested, out) == OnInv(chain.all, pool.txs.Keys, old(peer.requested), blocks, txs)
    {
      hide TreeInv, ApplyChain, ActiveChain, ActivePath, IndexInv;
      var wantBlocks: seq<Hash> := [];
      for i := 0 to |blocks|
        invariant peer.requested == old(peer.requested)
        invariant wantBlocks == Unrequested(Missing(chain.all, blocks[..i]), peer.requested)
      {
        WantSnoc(chain.all, peer.requested, blocks[..i], blocks[i]);
        assert blocks[..i + 1] == blocks[..i] + [blocks[i]];
        if blocks[i] !in chain.all && blocks[i] !in peer.requested {
          wantBlocks := wantBlocks + [blocks[i]];
        }
      }
      assert blocks[..|blocks|] == blocks;
      assert wantBlocks == Unrequested(Missing(chain.all, blocks), peer.requested);
      var wantTxs: seq<Hash> := [];
      for i := 0 to |txs|
        invariant peer.requested == old(peer.requested)
        invariant wantTxs == Unrequested(txs[..i], pool.txs.Keys)
      {
        UnrequestedSnoc(txs[..i], txs[i], pool.txs.Keys);
        assert txs[..i + 1] == txs[..i] + [txs[i]];
        if txs[i] !in pool.txs {
          wantTxs := wantTxs + [txs[i]];
        }
      }
      assert txs[..|txs|] == txs;
      out := [];
      assert wantBlocks == [] ==> peer.requested + Elements(wantBlocks) == peer.requested;
      if wantBlocks != [] || wantTxs != [] {
        peer.requested := peer.requested + Elements(wantBlocks);
        out := [GetData(wantBlocks, wantTxs)];
      }
    }

    method HandleGetData(blocks: seq<Hash>, txs: seq<Hash>) returns (out: Option<seq<Message>>)
      requires Valid()
      ensures out == OnGetData(chain.all, pool.txs, blocks, txs)
    {
      hide TreeInv, ApplyChain, ActiveChain, ActivePath, IndexInv, StandaloneCheck, ChainState.Valid, Pool.Valid;
      if |blocks| > MAX_INV || |txs| > MAX_INV {
        return None;
      }
      var sent: seq<Message> := [];
      for i := 0 to |blocks|
        invariant Stored(chain.all, blocks) == sent + Stored(chain.all, blocks[i..])
      {
        assert blocks[i..][1..] == blocks[i + 1..];
        if blocks[i] in chain.all {
          sent := sent + [BlockMsg(chain.all[blocks[i]])];
        }
      }
      assert sent == Stored(chain.all, blocks);
      for i := 0 to |txs|
        invariant Stored(chain.all, blocks) + Pooled(pool.txs, txs) == sent + Pooled(pool.txs, txs[i..])
      {
        assert txs[i..][1..] == txs[i + 1..];
        if txs[i] in pool.txs {
          sent := sent + [TxMsg(pool.txs[txs[i]])];
        }
      }
      assert txs[|txs|..] == [] && sent + [] == sent;
      return Some(sent);
    }

    method HandleGetBlocks(locator: seq<Hash>) returns (out: seq<Message>)
      requires Valid()
      ensures out == OnGetBlocks(chain.active, locator)
    {
      hide TreeInv, ApplyChain, ActiveChain, ActivePath, IndexInv, HashesAfter;
      var hashes := chain.HashesAfterLocator(locator, BLOCKS_PER_ROUND);
      out := if hashes == [] then [] else [Inv(hashes, [])];
    }

    method HandleBlock(peer: Peer, block: Blk) returns (out: seq<Message>, announce: seq<Message>, verdict: Verdict)
      requires Valid()
      modifies chain, pool, peer
      ensures Valid() && chain.active != []
      ensures var (t, r) := AddBlock(chain.params, old(chain.View()), block);
              && chain.View() == t
              && (peer.requested, out, verdict)
                 == AfterBlock(r, old(peer.requested) - {BlockHash(block.header)}, chain.active)
              && announce == if r == Ok(true) then [Inv([BlockHash(block.header)], [])] else []
      ensures pool.txs.Keys <= old(pool.txs.Keys)
    {
      hide AddBlock, TreeInv, ApplyChain, ActiveChain, ActivePath, StandaloneCheck, IndexInv, Displaced, Entries;
      var hash := BlockHash(block.header);
      peer.requested := peer.requested - {hash};
      var batchDone := peer.requested == {};
      var r;
      r, announce := AcceptBlock(block);
      TreeShape(chain.params, chain.View());
      out, verdict := [], Fine;
      if r.Ok? {
        if batchDone {
          var locator := chain.LocatorHashes();
          out := [GetBlocks(locator)];
        }
      } else if r.error == UnknownParent {
        peer.requested := {};
        var locator := chain.LocatorHashes();
        out, verdict := [GetBlocks(locator)], Orphan;
      } else if r.error != Duplicate {
        verdict := Punish(r.error);
      }
    }

    method HandleHello(height: nat, tip: Hash) returns (out: seq<Message>)
      requires Valid()
      ensures chain.active != [] && out == OnHello(chain.all, chain.active, height, tip)
    {
      hide TreeInv, ApplyChain, ActiveChain, ActivePath, IndexInv, Entries;
      TreeShape(chain.params, chain.View());
      var locator := chain.LocatorHashes();
      out := if height > |chain.active| - 1 && tip !in chain.all then [GetBlocks(locator)] else [];
    }

    // Whatever the pool holds, one message from the peer that names no transaction is
    // one step of the exchange: as the node that catches up.
    method ReceiveBehind(peer: Peer, msg: Message, ghost toPeer: seq<Message>, ghost toUs: seq<Message>)
      returns (out: seq<Message>, verdict: Verdict)
      requires Valid() && ((msg.Inv? && msg.txs == []) || msg.BlockMsg?)
      modifies chain, pool, peer
      ensures Valid() && pool.txs.Keys <= old(pool.txs.Keys)
      ensures Exchange(chain.View(), peer.requested, toPeer + out, toUs, verdict)
              == OurStep(chain.params, Exchange(old(chain.View()), old(peer.requested), toPeer, [msg] + toUs, Fine))
    {
      hide TreeInv, ApplyChain, ActiveChain, ActivePath, IndexInv, AddBlock, Entries, StandaloneCheck, OnInv;
      verdict := Fine;
      assert ([msg] + toUs)[1..] == toUs;
      match msg
      case Inv(blocks, txs) =>
        NoTxsNamed(chain.all, pool.txs, peer.requested, blocks);
        out := HandleInv(peer, blocks, txs);
      case BlockMsg(block) =>
        var announce;
        out, announce, verdict := HandleBlock(peer, block);
    }

    // And as the node that serves.
    method ReceiveAhead(msg: Message, ghost us: BlockTree, ghost requested: set<Hash>, ghost toPeer: seq<Message>, ghost toUs: seq<Message>)
      returns (out: seq<Message>, verdict: Verdict)
      requires Valid() && (msg.GetBlocks? || (msg.GetData? && msg.txs == []))
      ensures Exchange(us, requested, toPeer, toUs + out, verdict)
              == PeerStep(chain.params, chain.View(), Exchange(us, requested, [msg] + toPeer, toUs, Fine))
    {
      hide TreeInv, ApplyChain, ActiveChain, ActivePath, IndexInv, HashesAfter, OnGetData;
      verdict := Fine;
      assert ([msg] + toPeer)[1..] == toPeer;
      match msg
      case GetBlocks(locator) =>
        out := HandleGetBlocks(locator);
      case GetData(blocks, txs) =>
        NoTxsNamed(chain.all, pool.txs, {}, blocks);
        var reply := HandleGetData(blocks, txs);
        if reply.Some? {
          out := reply.value;
        } else {
          out, verdict := [], Punish(TooLarge);
        }
    }

    // Whatever the node has been through, every pooled transaction pays the pool's
    // rates in the next block.
    lemma PoolPays(id: Hash)
      requires Valid() && id in pool.txs
      ensures var tx := pool.txs[id];
              && SpendRules(chain.params, tx, |chain.active|, chain.utxos)
              && InputSum(chain.utxos, tx.body.inputs) >= OutputSum(tx.body.outputs) + TxSize(tx)
              && InputSum(chain.utxos, tx.body.inputs) >= OutputSum(tx.body.outputs) + 1000
    {
      hide TreeInv, ActiveChain, ActivePath, ApplyChain, IndexInv, StandaloneCheck, SpendRules, OutputSum, InputSum, TxSize;
      FeeMeaning(chain.params, chain.utxos, |chain.active|, pool.txs[id]);
    }

    // Whatever the node has been through, any selection from its pool applies in
    // the next block, in any order.
    lemma PoolReady(chosen: seq<Txn>)
      requires Valid() && Drawn(pool.txs, chosen)
      ensures ApplyTxs(chain.params, chain.utxos, chosen, |chain.active|, |chosen|).Ok?
    {
      hide TreeInv, ActiveChain, ActivePath, ApplyTxs, ApplyChain, IndexInv, StandaloneCheck;
      PoolApplies(chain.params, chain.View(), pool.txs, pool.spends, pool.bytes, chosen);
    }
  }

  // The pool plays no part where no transaction is named.
  lemma NoTxsNamed(all: BlockMap, pool: TxMap, requested: set<Hash>, blocks: seq<Hash>)
    ensures OnInv(all, pool.Keys, requested, blocks, []) == OnInv(all, {}, requested, blocks, [])
    ensures OnGetData(all, pool, blocks, []) == OnGetData(all, map[], blocks, [])
  {
  }

  lemma {:induction false} WantSnoc(all: BlockMap, requested: set<Hash>, hs: seq<Hash>, h: Hash)
    ensures Unrequested(Missing(all, hs + [h]), requested)
            == Unrequested(Missing(all, hs), requested) + (if h in all || h in requested then [] else [h])
  {
    MissingSnoc(all, hs, h);
    if h !in all {
      UnrequestedSnoc(Missing(all, hs), h, requested);
    } else {
      assert Missing(all, hs) + [] == Missing(all, hs);
    }
  }

  lemma {:induction false} MissingSnoc(all: BlockMap, hs: seq<Hash>, h: Hash)
    ensures Missing(all, hs + [h]) == Missing(all, hs) + (if h in all then [] else [h])
  {
    if hs != [] {
      MissingSnoc(all, hs[1..], h);
      assert (hs + [h])[1..] == hs[1..] + [h];
    }
  }

  lemma {:induction false} UnrequestedSnoc(hs: seq<Hash>, h: Hash, requested: set<Hash>)
    ensures Unrequested(hs + [h], requested) == Unrequested(hs, requested) + (if h in requested then [] else [h])
  {
    if hs != [] {
      UnrequestedSnoc(hs[1..], h, requested);
      assert (hs + [h])[1..] == hs[1..] + [h];
    }
  }
}
