// Blocks that repeat a transaction.  Their headers cannot be told from those of the
// blocks they imitate, and the duplicate guard sees them only when they would
// become the tip.
module Repeats {
  import opened Prelude
  import opened Tx
  import opened Emission
  import opened Ledger
  import opened Conservation
  import opened Tree
  import opened TreeProofs
  import opened Reload
  import Compact
  import Merkle

  // The same header over the transactions with the last one repeated.
  function RepeatLast(b: Blk): Blk
    requires b.transactions != []
  {
    b.(transactions := b.transactions + [b.transactions[|b.transactions| - 1]])
  }

  lemma RepeatRoots(b: Blk)
    requires |b.transactions| % 2 == 1 && |b.transactions| > 1 && CheckRoots(b).Ok?
    ensures CheckRoots(RepeatLast(b)).Ok? && !DistinctTxids(RepeatLast(b).transactions)
  {
    hide Merkle.Root;
    var txs := b.transactions;
    var n := |txs|;
    Merkle.OddListCollides(Txids(txs));
    Merkle.OddListCollides(WitnessHashes(txs));
    assert Txids(RepeatLast(b).transactions) == Txids(txs) + [Txids(txs)[n - 1]];
    assert WitnessHashes(RepeatLast(b).transactions) == WitnessHashes(txs) + [WitnessHashes(txs)[n - 1]];
    assert RepeatLast(b).transactions[n - 1] == RepeatLast(b).transactions[n];
  }

  // Where the code fails: a side block with an odd number of transactions above one
  // is stored with its last transaction repeated, and the genuine block is then
  // refused as a duplicate.
  lemma RepeatedCopyStored(p: Params, t: BlockTree, b: Blk)
    requires p.Valid() && TreeInv(p, t) && BlockHash(b.header) !in t.all
    requires b.header.prev in t.meta && t.genesis in t.meta && CheckHeader(p, t.meta, t.genesis, b).Ok?
    requires |b.transactions| % 2 == 1 && |b.transactions| > 1 && BlockSize(RepeatLast(b)) <= p.maxBlockSize
    requires t.tip in t.meta && t.meta[b.header.prev].work + BlockWork(b) <= t.meta[t.tip].work
    ensures var (t', r) := AddBlock(p, t, RepeatLast(b));
            && r == Ok(false) && TreeInv(p, t')
            && t'.all == t.all[BlockHash(b.header) := RepeatLast(b)]
            && !DistinctTxids(RepeatLast(b).transactions)
            && AddBlock(p, t', b) == (t', Err(Duplicate))
  {
    hide NodeInv, CheckHeader, ApplyChain, Rooted, Compact.BitsToTarget, WorkFromTarget, BlockSize, ChainTo, DistinctTxids;
    HeaderRoots(p, t, b);
    RepeatRoots(b);
    SameHeaderRules(p, t, b, RepeatLast(b));
    AddBlockKeeps(p, t, RepeatLast(b));
  }

  // The header rules see a block only through its header, its size and its roots.
  lemma SameHeaderRules(p: Params, t: BlockTree, a: Blk, b: Blk)
    requires p.Valid() && a.header == b.header && a.header.prev in t.meta && t.genesis in t.meta
    requires CheckHeader(p, t.meta, t.genesis, a).Ok? && CheckRoots(b).Ok? && BlockSize(b) <= p.maxBlockSize
    ensures CheckHeader(p, t.meta, t.genesis, b).Ok?
  {
    hide ExpectedBits, CheckRoots, CheckPow, BlockSize, MedianTimePast;
  }

  lemma HeaderRoots(p: Params, t: BlockTree, b: Blk)
    requires p.Valid() && b.header.prev in t.meta && t.genesis in t.meta
    requires CheckHeader(p, t.meta, t.genesis, b).Ok?
    ensures CheckRoots(b).Ok?
  {
    hide ExpectedBits, CheckRoots, CheckPow, BlockSize, MedianTimePast;
  }

  // No valid chain holds a block that repeats a transaction.
  lemma ChainDistinct(p: Params, blocks: seq<Blk>, n: nat)
    requires ApplyChain(p, blocks).Ok? && n < |blocks|
    ensures DistinctTxids(blocks[n].transactions)
  {
    hide ApplyTxs, CheckOutputs, Create, BlockReward, DistinctTxids, CheckCoinbase;
    PrefixApplies(p, blocks, n + 1);
  }

  // So nothing stored above such a block can ever become the tip, however heavy.
  lemma NothingAboveRepeats(p: Params, t: BlockTree, b: Blk)
    requires p.Valid() && TreeInv(p, t) && AddBlock(p, t, b).1 == Ok(true)
    ensures Rooted(t.meta) && t.all.Keys == t.meta.Keys && b.header.prev in t.meta
    ensures forall h :: h in PathTo(t.meta, b.header.prev) ==> DistinctTxids(t.all[h].transactions)
    ensures DistinctTxids(b.transactions)
  {
    hide NodeInv, CheckHeader, ApplyChain, DistinctTxids, BlocksOf;
    var path := PathTo(t.meta, b.header.prev);
    var chain := ChainTo(t, b.header.prev) + [b];
    ChainDistinct(p, chain, |chain| - 1);
    forall h | h in path
      ensures DistinctTxids(t.all[h].transactions)
    {
      var i :| 0 <= i < |path| && path[i] == h;
      ChainDistinct(p, chain, i);
      BlockAt(t.all, path, i);
    }
  }

  lemma BlockAt(all: BlockMap, path: seq<Hash>, i: nat)
    requires i < |path| && forall x :: x in path ==> x in all
    ensures path[i] in all && BlocksOf(all, path)[i] == all[path[i]]
  {
    assert path[i] in path;
  }

  // A block with the header of a valid one and other transactions fails on the
  // duplicate guard, and on nothing before it.
  lemma ImitationFails(p: Params, u: UtxoMap, good: Blk, bad: Blk, height: nat)
    requires ValidateBlock(p, u, good, height).Ok? && good.header == bad.header && good != bad
    requires CheckRoots(good).Ok? && CheckRoots(bad).Ok?
    ensures ValidateBlock(p, u, bad, height) == Err(DuplicateTx)
  {
    hide Merkle.Root, ApplyTxs, CheckOutputs, Create, BlockReward, DistinctTxids;
    if DistinctTxids(bad.transactions) {
      HeaderCommits(good, bad);
    }
    var s, t := good.transactions, bad.transactions;
    Merkle.RootFirst(Txids(s), Txids(t));
    Merkle.RootFirst(WitnessHashes(s), WitnessHashes(t));
    assert |Txids(t)| == |t| && |Txids(s)| == |s| && |WitnessHashes(t)| == |t| && |WitnessHashes(s)| == |s|;
    assert Txids(s)[0] == Txid(s[0]) && Txids(t)[0] == Txid(t[0]);
    assert WitnessHashes(s)[0] == WitnessHash(s[0]) && WitnessHashes(t)[0] == WitnessHash(t[0]);
    assert s[0] == t[0];
  }

  // A valid chain with some blocks imitated fails to replay, with that error, at
  // the first imitation.
  lemma {:induction false} ImitatedChainFails(p: Params, good: seq<Blk>, bad: seq<Blk>, n: nat)
    requires n <= |good| && n <= |bad| && ApplyChain(p, good[..n]).Ok?
    requires forall i :: 0 <= i < n ==> good[i].header == bad[i].header && CheckRoots(good[i]).Ok? && CheckRoots(bad[i]).Ok?
    ensures ApplyChain(p, bad[..n]) == if good[..n] == bad[..n] then ApplyChain(p, good[..n]) else Err(DuplicateTx)
  {
    hide ValidateBlock, CheckRoots;
    if n > 0 {
      assert good[..n][..n - 1] == good[..n - 1] && bad[..n][..n - 1] == bad[..n - 1];
      ImitatedChainFails(p, good, bad, n - 1);
      if good[..n - 1] == bad[..n - 1] && good[n - 1] != bad[n - 1] {
        ImitationFails(p, ApplyChain(p, good[..n - 1]).value.utxos, good[n - 1], bad[n - 1], n - 1);
        assert good[..n][n - 1] != bad[..n][n - 1];
      } else if good[..n - 1] != bad[..n - 1] {
        assert good[..n] != bad[..n];
      } else {
        assert good[..n] == good[..n - 1] + [good[n - 1]] == bad[..n];
      }
    } else {
      assert good[..0] == bad[..0];
    }
  }
}
