// Replaying the active chain into a fresh state rebuilds it, and a header
// commits to the transactions of its block.
module Reload {
  import opened Prelude
  import opened Tx
  import opened Ledger
  import opened Conservation
  import opened Tree
  import opened TreeProofs
  import Compact
  import Merkle

  // r holds exactly the first n + 1 blocks of t's active chain.
  ghost predicate HoldsPrefix(p: Params, t: BlockTree, r: BlockTree, n: nat)
    requires p.Valid() && TreeInv(p, t) && n < |ActivePath(p, t)|
  {
    var path := ActivePath(p, t);
    && TreeInv(p, r)
    && r.genesis == t.genesis && r.tip == path[n]
    && (forall h :: h in r.meta <==> h in path[..n + 1])
    && (forall h :: h in r.meta ==> r.meta[h] == t.meta[h] && r.all[h] == t.all[h])
  }

  lemma ParentOnPath(meta: MetaMap, tip: Hash, n: nat)
    requires Rooted(meta) && tip in meta && n < meta[tip].height
    ensures var path := PathTo(meta, tip);
            && path[n + 1] in meta && path[n] in meta
            && meta[path[n + 1]].parent == path[n]
            && meta[path[n + 1]].height == n + 1
  {
    var path := PathTo(meta, tip);
    PathPrefix(meta, tip, n + 1);
    PathPrefix(meta, tip, n);
    var h := path[n + 1];
    assert path[..n + 2] == PathTo(meta, meta[h].parent) + [h];
    assert path[n] == path[..n + 2][n] == PathTo(meta, meta[h].parent)[n];
  }

  lemma PathHeights(meta: MetaMap, tip: Hash, i: nat, j: nat)
    requires Rooted(meta) && tip in meta && i < j <= meta[tip].height
    ensures PathTo(meta, tip)[i] != PathTo(meta, tip)[j]
  {
    PathPrefix(meta, tip, i);
    PathPrefix(meta, tip, j);
  }

  lemma FreshInPrefix(p: Params, t: BlockTree, r: BlockTree, n: nat)
    requires p.Valid() && TreeInv(p, t) && n + 1 < |ActivePath(p, t)| && HoldsPrefix(p, t, r, n)
    ensures ActivePath(p, t)[n + 1] !in r.meta
  {
    hide NodeInv, ApplyChain, Rooted;
    var path := ActivePath(p, t);
    forall i | 0 <= i <= n
      ensures path[i] != path[n + 1]
    {
      PathHeights(t.meta, t.tip, i, n + 1);
    }
  }

  // The prefix state's own active path and chain.
  lemma PrefixActive(p: Params, t: BlockTree, r: BlockTree, n: nat)
    requires p.Valid() && TreeInv(p, t) && n < |ActivePath(p, t)| && HoldsPrefix(p, t, r, n)
    ensures ActivePath(p, r) == ActivePath(p, t)[..n + 1]
    ensures ActiveChain(p, r) == ActiveChain(p, t)[..n + 1]
  {
    hide NodeInv, ApplyChain, BlocksOf;
    var path := ActivePath(p, t);
    PathPrefix(t.meta, t.tip, n);
    assert forall h :: h in r.meta ==> h in path[..n + 1] && h in path;
    PathFrame(r.meta, t.meta, r.tip);
    BlocksFrame(r.all, t.all, PathTo(r.meta, r.tip));
    BlocksSlice(t.all, path, n + 1);
  }

  lemma PathStart(p: Params, t: BlockTree)
    requires p.Valid() && TreeInv(p, t)
    ensures ActivePath(p, t)[0] == t.genesis && ActiveChain(p, t)[0] == GenesisOf(p, t)
    ensures GenesisOf(p, t).header.prev == Zero && t.genesis == BlockHash(GenesisOf(p, t).header)
    ensures CheckGenesis(p, GenesisOf(p, t)).Ok?
    ensures t.meta[t.genesis] == Meta(0, BlockWork(GenesisOf(p, t)), GenesisOf(p, t).header.time, Zero)
  {
    hide CheckHeader, ApplyChain, BlocksOf, BlockWork, CheckPow, CheckRoots, BlockSize;
    PathPrefix(t.meta, t.tip, 0);
    assert NodeInv(p, t, ActivePath(p, t)[0]);
    assert NodeInv(p, t, t.genesis);
  }

  lemma ReloadFirst(p: Params, t: BlockTree)
    requires p.Valid() && TreeInv(p, t)
    ensures NewTree(p, GenesisOf(p, t)).Ok?
    ensures HoldsPrefix(p, t, NewTree(p, GenesisOf(p, t)).value, 0)
  {
    hide TreeInv, ActiveChain, ActivePath, CheckGenesis, ApplyChain, BlockWork;
    var g, chain := GenesisOf(p, t), ActiveChain(p, t);
    PathStart(p, t);
    ActiveNumbered(p, t);
    PrefixApplies(p, chain, 1);
    assert chain[..1] == [g];
    NewTreeInv(p, g);
    assert ActivePath(p, t)[..1] == [t.genesis];
  }

  // What the tree records about the block after element n of the active chain.
  lemma NextBlock(p: Params, t: BlockTree, n: nat, b: Blk)
    requires p.Valid() && TreeInv(p, t) && n + 1 < |ActivePath(p, t)| && b == ActiveChain(p, t)[n + 1]
    ensures ActivePath(p, t)[n + 1] == BlockHash(b.header)
    ensures b.header.prev == ActivePath(p, t)[n]
    ensures b.header.prev in t.meta && BlockHash(b.header) in t.meta && t.all[BlockHash(b.header)] == b
    ensures t.meta[BlockHash(b.header)]
            == Meta(t.meta[b.header.prev].height + 1, t.meta[b.header.prev].work + BlockWork(b),
                    b.header.time, b.header.prev)
    ensures CheckHeader(p, t.meta, t.genesis, b).Ok?
    ensures BlockWork(b) >= 1
  {
    hide CheckHeader, CheckGenesis, ApplyChain, BlockWork, BlocksOf;
    ParentOnPath(t.meta, t.tip, n);
    assert NodeInv(p, t, ActivePath(p, t)[n + 1]);
    assert NodeInv(p, t, t.genesis);
    WorkPositive(p, b);
  }

  // One more block of the active chain is accepted as the new tip.
  lemma NextAccepted(p: Params, t: BlockTree, r: BlockTree, n: nat, b: Blk)
    requires p.Valid() && TreeInv(p, t) && n + 1 < |ActivePath(p, t)| && HoldsPrefix(p, t, r, n)
    requires b == ActiveChain(p, t)[n + 1]
    ensures b.header.prev in r.meta
    ensures AddBlock(p, r, b) == (Grown(r, b).(tip := BlockHash(b.header)), Ok(true))
  {
    hide NodeInv, CheckHeader, CheckGenesis, ApplyChain, Rooted;
    NextBlock(p, t, n, b);
    FreshInPrefix(p, t, r, n);
    CheckHeaderFrame(p, r, t.meta, b);
    NextReplays(p, t, r, n, b);
  }

  lemma NextReplays(p: Params, t: BlockTree, r: BlockTree, n: nat, b: Blk)
    requires p.Valid() && TreeInv(p, t) && n + 1 < |ActivePath(p, t)| && HoldsPrefix(p, t, r, n)
    requires b == ActiveChain(p, t)[n + 1]
    ensures r.tip == ActivePath(p, t)[n] && ApplyChain(p, ChainTo(r, r.tip) + [b]).Ok?
  {
    hide NodeInv, ApplyChain, Rooted, BlocksOf, PathTo, ChainTo;
    var chain := ActiveChain(p, t);
    PrefixActive(p, t, r, n);
    PrefixApplies(p, chain, n + 2);
    assert chain[..n + 2] == chain[..n + 1] + [b];
  }

  lemma ReloadNext(p: Params, t: BlockTree, r: BlockTree, n: nat)
    requires p.Valid() && TreeInv(p, t) && n + 1 < |ActivePath(p, t)| && HoldsPrefix(p, t, r, n)
    ensures var b := ActiveChain(p, t)[n + 1];
            AddBlock(p, r, b).1 == Ok(true) && HoldsPrefix(p, t, AddBlock(p, r, b).0, n + 1)
  {
    hide TreeInv, AddBlock, ActivePath, ActiveChain, BlockWork, CheckHeader;
    var b, path := ActiveChain(p, t)[n + 1], ActivePath(p, t);
    NextBlock(p, t, n, b);
    NextAccepted(p, t, r, n, b);
    AddBlockKeeps(p, r, b);
    assert path[..n + 2] == path[..n + 1] + [BlockHash(b.header)];
  }

  // Loading the saved active chain into a fresh state: every block is accepted
  // as a new tip, and the result has the same tip, the same active chain, and so
  // the same unspent outputs and supply.
  lemma {:induction false} ReloadRebuilds(p: Params, t: BlockTree, n: nat)
    requires p.Valid() && TreeInv(p, t) && n < |ActivePath(p, t)|
    ensures NewTree(p, GenesisOf(p, t)).Ok?
    ensures var r := Run(p, GenesisOf(p, t), ActiveChain(p, t)[1..n + 1]);
            && HoldsPrefix(p, t, r, n)
            && (n + 1 < |ActivePath(p, t)| ==> AddBlock(p, r, ActiveChain(p, t)[n + 1]).1 == Ok(true))
            && (n + 1 == |ActivePath(p, t)| ==>
                  r.tip == t.tip && ActiveChain(p, r) == ActiveChain(p, t) && TipTotals(p, r) == TipTotals(p, t))
  {
    hide TreeInv, AddBlock, NewTree, HoldsPrefix, ActivePath, ActiveChain, ApplyChain;
    var g, chain := GenesisOf(p, t), ActiveChain(p, t);
    ReloadFirst(p, t);
    if n == 0 {
      assert chain[1..1] == [];
    } else {
      ReloadRebuilds(p, t, n - 1);
      ReloadNext(p, t, Run(p, g, chain[1..n]), n - 1);
      assert chain[1..n + 1] == chain[1..n] + [chain[n]];
      assert chain[1..n + 1][..n - 1] == chain[1..n];
    }
    var r := Run(p, g, chain[1..n + 1]);
    if n + 1 < |ActivePath(p, t)| {
      ReloadNext(p, t, r, n);
    } else {
      PrefixActive(p, t, r, n);
      assert chain[..n + 1] == chain;
      PrefixTip(p, t, r, n);
    }
  }

  lemma PrefixTip(p: Params, t: BlockTree, r: BlockTree, n: nat)
    requires p.Valid() && TreeInv(p, t) && n + 1 == |ActivePath(p, t)| && HoldsPrefix(p, t, r, n)
    ensures r.tip == t.tip
  {
    hide NodeInv, ApplyChain, Rooted;
  }

  // ----- headers commit to contents -----

  lemma TxidsDistinct(txs: seq<Txn>)
    requires DistinctTxids(txs)
    ensures Merkle.Distinct(Txids(txs))
  {
  }

  // Two duplicate-free blocks whose headers carry the same two roots hold the
  // same transactions, witnesses included.
  lemma HeaderCommits(a: Blk, b: Blk)
    requires a.header.txRoot == b.header.txRoot && a.header.witnessRoot == b.header.witnessRoot
    requires CheckRoots(a).Ok? && CheckRoots(b).Ok?
    requires DistinctTxids(a.transactions) && DistinctTxids(b.transactions)
    ensures a.transactions == b.transactions
  {
    hide Merkle.Root;
    var s, t := a.transactions, b.transactions;
    TxidsDistinct(s);
    TxidsDistinct(t);
    Merkle.RootInjective(Txids(s), Txids(t));
    Merkle.RootInjective(WitnessHashes(s), WitnessHashes(t));
    assert |s| == |Txids(s)| == |t|;
    forall i | 0 <= i < |s|
      ensures s[i] == t[i]
    {
      assert Txids(s)[i] == Txids(t)[i];
      assert WitnessHashes(s)[i] == WitnessHashes(t)[i];
    }
  }
}
