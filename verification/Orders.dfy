// The order in which blocks arrive does not matter, as long as parents come first
// and every block's own chain is valid.
module Orders {
  import opened Prelude
  import opened Tx
  import opened Ledger
  import opened Conservation
  import opened Tree
  import opened TreeProofs
  import opened Reload
  import Compact

  // A tree all of whose chains, side chains included, replay.
  ghost predicate FullyValid(p: Params, all: BlockTree)
    requires p.Valid()
  {
    TreeInv(p, all) && forall h {:trigger ChainTo(all, h)} :: h in all.meta ==> ApplyChain(p, ChainTo(all, h)).Ok?
  }

  ghost function Hashes(blocks: seq<Blk>): set<Hash> {
    set i | 0 <= i < |blocks| :: BlockHash(blocks[i].header)
  }

  // Blocks of the tree, each after its parent; repetitions are allowed.
  ghost predicate ParentsFirst(all: BlockTree, blocks: seq<Blk>) {
    forall i :: 0 <= i < |blocks| ==>
      var h, prev := BlockHash(blocks[i].header), blocks[i].header.prev;
      && h in all.all && all.all[h] == blocks[i] && h != all.genesis
      && (prev == all.genesis || prev in Hashes(blocks[..i]))
  }

  // t is the part of the tree on the given hashes and the genesis block.
  ghost predicate PartOf(t: BlockTree, all: BlockTree, hashes: set<Hash>) {
    && t.genesis == all.genesis
    && t.all.Keys == t.meta.Keys == hashes + {all.genesis}
    && (forall h :: h in t.meta ==> h in all.meta && h in all.all && t.meta[h] == all.meta[h] && t.all[h] == all.all[h])
  }

  lemma PartChain(p: Params, t: BlockTree, all: BlockTree, hashes: set<Hash>, h: Hash)
    requires p.Valid() && TreeInv(p, t) && TreeInv(p, all) && PartOf(t, all, hashes) && h in t.meta
    ensures Rooted(t.meta) && Rooted(all.meta) && h in all.meta && all.all.Keys == all.meta.Keys
    ensures PathTo(all.meta, h) == PathTo(t.meta, h) && ChainTo(all, h) == ChainTo(t, h)
  {
    hide NodeInv, ApplyChain, BlocksOf;
    PathFrame(t.meta, all.meta, h);
    BlocksFrame(t.all, all.all, PathTo(t.meta, h));
  }

  // What the tree records about one of its blocks.
  lemma Recorded(p: Params, all: BlockTree, h: Hash)
    requires p.Valid() && TreeInv(p, all) && h in all.meta && h != all.genesis
    ensures Rooted(all.meta) && all.all.Keys == all.meta.Keys && all.genesis in all.meta
    ensures var b := all.all[h];
            && h == BlockHash(b.header) && b.header.prev in all.meta && b.header.prev != Zero
            && CheckHeader(p, all.meta, all.genesis, b).Ok?
            && all.meta[h] == Meta(all.meta[b.header.prev].height + 1, all.meta[b.header.prev].work + BlockWork(b),
                                   b.header.time, b.header.prev)
  {
    hide CheckHeader, CheckGenesis, ApplyChain, BlockWork, Compact.BitsToTarget, BlockSize, ChainTo, PathTo;
    assert NodeInv(p, all, h);
    PrevNotZero(p, all, all.all[h].header.prev);
  }

  lemma ChainGrows(t: BlockTree, h: Hash)
    requires Rooted(t.meta) && t.all.Keys == t.meta.Keys && h in t.meta && t.meta[h].parent != Zero
    ensures t.meta[h].parent in t.meta
    ensures ChainTo(t, h) == ChainTo(t, t.meta[h].parent) + [t.all[h]]
  {
    BlocksAppend(t.all, PathTo(t.meta, t.meta[h].parent), h);
  }

  // A block of the tree, delivered after its parent, is stored as the tree has it.
  lemma PartGrows(p: Params, t: BlockTree, all: BlockTree, hashes: set<Hash>, b: Blk)
    requires p.Valid() && TreeInv(p, t) && FullyValid(p, all) && PartOf(t, all, hashes)
    requires var h := BlockHash(b.header); h in all.all && all.all[h] == b && h != all.genesis && b.header.prev in t.meta
    ensures PartOf(AddBlock(p, t, b).0, all, hashes + {BlockHash(b.header)})
  {
    hide NodeInv, CheckHeader, CheckGenesis, ApplyChain, Rooted, BlockWork, ChainTo, PathTo;
    var h := BlockHash(b.header);
    TreeKeys(p, all);
    if h in t.all {
      assert hashes + {all.genesis} == hashes + {h} + {all.genesis};
    } else {
      Recorded(p, all, h);
      ChainGrows(all, h);
      TreeKeys(p, t);
      CheckHeaderFrame(p, t, all.meta, b);
      PartChain(p, t, all, hashes, b.header.prev);
      assert ApplyChain(p, ChainTo(all, h)).Ok?;
    }
  }

  lemma TreeKeys(p: Params, t: BlockTree)
    requires p.Valid() && TreeInv(p, t)
    ensures t.all.Keys == t.meta.Keys && Rooted(t.meta) && t.genesis in t.meta && t.tip in t.meta
    ensures forall h :: h in t.meta ==> t.meta[h].work <= t.meta[t.tip].work
  {
    hide NodeInv;
  }

  // A run over blocks of the tree, parents first, stores exactly those blocks.
  lemma {:induction false} RunStores(p: Params, all: BlockTree, blocks: seq<Blk>)
    requires p.Valid() && FullyValid(p, all) && ParentsFirst(all, blocks)
    ensures NewTree(p, GenesisOf(p, all)).Ok?
    ensures PartOf(Run(p, GenesisOf(p, all), blocks), all, Hashes(blocks))
  {
    hide TreeInv, AddBlock, NewTree, HoldsPrefix;
    ReloadFirst(p, all);
    if blocks == [] {
      StartOf(p, all);
    } else {
      var n := |blocks| - 1;
      var before := Run(p, GenesisOf(p, all), blocks[..n]);
      EarlierFirst(all, blocks);
      RunStores(p, all, blocks[..n]);
      PartGrows(p, before, all, Hashes(blocks[..n]), blocks[n]);
      assert Hashes(blocks) == Hashes(blocks[..n]) + {BlockHash(blocks[n].header)} by { OneMore(blocks); }
    }
  }

  lemma OneMore(blocks: seq<Blk>)
    requires blocks != []
    ensures Hashes(blocks) == Hashes(blocks[..|blocks| - 1]) + {BlockHash(blocks[|blocks| - 1].header)}
  {
    var init := blocks[..|blocks| - 1];
    forall h | h in Hashes(blocks)
      ensures h in Hashes(init) + {BlockHash(blocks[|blocks| - 1].header)}
    {
      var i :| 0 <= i < |blocks| && h == BlockHash(blocks[i].header);
      if i < |init| {
        assert init[i] == blocks[i];
      }
    }
    forall h | h in Hashes(init)
      ensures h in Hashes(blocks)
    {
      var i :| 0 <= i < |init| && h == BlockHash(init[i].header);
      assert blocks[i] == init[i];
    }
  }

  lemma EarlierFirst(all: BlockTree, blocks: seq<Blk>)
    requires blocks != [] && ParentsFirst(all, blocks)
    ensures ParentsFirst(all, blocks[..|blocks| - 1])
  {
    var init := blocks[..|blocks| - 1];
    forall i | 0 <= i < |init|
      ensures init[..i] == blocks[..i] && init[i] == blocks[i]
    {
    }
  }

  lemma StartOf(p: Params, all: BlockTree)
    requires p.Valid() && TreeInv(p, all) && NewTree(p, GenesisOf(p, all)).Ok?
    ensures PartOf(NewTree(p, GenesisOf(p, all)).value, all, {})
  {
    hide TreeInv, CheckGenesis, ApplyChain, BlockWork;
    PathStart(p, all);
    TreeKeys(p, all);
  }

  // Two nodes that receive the same blocks, parents first, in whatever orders, store
  // the same and end with tips of the same work; a single heaviest block is the tip
  // of both, and then they have the same chain, unspent outputs and supply.
  lemma OrderIndependent(p: Params, all: BlockTree, a: seq<Blk>, b: seq<Blk>)
    requires p.Valid() && FullyValid(p, all) && ParentsFirst(all, a) && ParentsFirst(all, b) && Hashes(a) == Hashes(b)
    ensures NewTree(p, GenesisOf(p, all)).Ok?
    ensures var s, t := Run(p, GenesisOf(p, all), a), Run(p, GenesisOf(p, all), b);
            && s.all == t.all && s.meta == t.meta && s.tip in s.meta && t.tip in t.meta
            && s.meta[s.tip].work == t.meta[t.tip].work
            && ((forall h :: h in s.meta && h != s.tip ==> s.meta[h].work < s.meta[s.tip].work) ==>
                  s == t && TipTotals(p, s) == TipTotals(p, t))
  {
    hide TreeInv, AddBlock, NewTree, ActiveChain, ApplyChain, Hashes, ParentsFirst;
    RunStores(p, all, a);
    RunStores(p, all, b);
    var s, t := Run(p, GenesisOf(p, all), a), Run(p, GenesisOf(p, all), b);
    TreeKeys(p, s);
    TreeKeys(p, t);
    assert s.meta == t.meta && s.all == t.all;
  }
}
