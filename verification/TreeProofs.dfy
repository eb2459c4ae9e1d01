// What every run of AddBlock keeps.
module TreeProofs {
  import opened Prelude
  import opened Tx
  import opened Emission
  import opened Ledger
  import opened Conservation
  import opened Tree
  import Asert
  import Compact
  import Median
  import Merkle

  // ----- targets and work -----

  // The retarget rule always yields bits that decode to a target in range, so
  // the decoding after the header checks cannot fail.
  lemma ExpectedBitsDecode(p: Params, parent: Meta, genesisTime: U64)
    requires p.Valid()
    ensures var target := Compact.BitsToTarget(ExpectedBits(p, parent, genesisTime));
            target.Some? && 1 <= target.value <= p.powLimit
  {
    hide Asert.NextTarget, Compact.TargetToBits, Compact.BitsToTarget;
    var d := ToI64(parent.time - genesisTime);
    Compact.RoundTrip(Asert.NextTarget(p.powLimit, p.blockInterval, p.asertTau, d, parent.height, p.powLimit));
  }

  // Every admissible target is worth some work.
  lemma WorkPositive(p: Params, b: Blk)
    requires p.Valid() && Compact.BitsToTarget(b.header.bits).Some?
    requires Compact.BitsToTarget(b.header.bits).value <= p.powLimit
    ensures BlockWork(b) >= 1
  {
    var n := Compact.BitsToTarget(b.header.bits).value;
    QuotientPositive(TWO_256 - 1, n + 1);
  }

  lemma QuotientPositive(a: nat, d: nat)
    requires 0 < d <= a
    ensures a / d >= 1
  {
  }

  // ----- one step -----

  lemma CheckHeaderFrame(p: Params, t: BlockTree, meta': MetaMap, b: Blk)
    requires p.Valid() && Rooted(t.meta) && b.header.prev in t.meta && t.genesis in t.meta
    requires forall x :: x in t.meta ==> x in meta' && meta'[x] == t.meta[x]
    ensures CheckHeader(p, meta', t.genesis, b) == CheckHeader(p, t.meta, t.genesis, b)
  {
    hide ExpectedBits, CheckRoots, CheckPow, BlockSize;
    WindowFrame(t.meta, meta', b.header.prev, 11);
  }

  lemma CheckedHeader(p: Params, t: BlockTree, b: Blk)
    requires p.Valid() && b.header.prev in t.meta && t.genesis in t.meta
    requires CheckHeader(p, t.meta, t.genesis, b).Ok?
    ensures BlockSize(b) <= p.maxBlockSize
    ensures b.header.time > MedianTimePast(t.meta, b.header.prev)
    ensures Compact.BitsToTarget(b.header.bits).Some? && Compact.BitsToTarget(b.header.bits).value <= p.powLimit
  {
  }

  lemma GrownNodes(p: Params, t: BlockTree, b: Blk)
    requires p.Valid() && TreeInv(p, t)
    requires BlockHash(b.header) !in t.all && b.header.prev in t.meta
    requires CheckHeader(p, t.meta, t.genesis, b).Ok?
    ensures var g := Grown(t, b);
            && g.all.Keys == g.meta.Keys
            && (forall h :: h in g.meta ==> NodeInv(p, g, h))
            && Rooted(g.meta)
            && (forall h :: h in t.meta ==> h in g.meta && g.meta[h] == t.meta[h] && g.all[h] == t.all[h])
  {
    hide NodeInv, CheckHeader, ApplyChain, Rooted, ChainTo;
    var g := Grown(t, b);
    forall h | h in g.meta
      ensures NodeInv(p, g, h)
    {
      if h in t.meta {
        OldNode(p, t, g, h);
      } else {
        NewNode(p, t, b);
      }
    }
    ParentsRooted(p, g);
  }

  lemma NewNode(p: Params, t: BlockTree, b: Blk)
    requires p.Valid() && TreeInv(p, t)
    requires BlockHash(b.header) !in t.all && b.header.prev in t.meta
    requires CheckHeader(p, t.meta, t.genesis, b).Ok?
    ensures Grown(t, b).all.Keys == Grown(t, b).meta.Keys
    ensures NodeInv(p, Grown(t, b), BlockHash(b.header))
  {
    hide CheckHeader, CheckGenesis, ApplyChain, Rooted, BlockWork, BlockSize, Compact.BitsToTarget;
    CheckedHeader(p, t, b);
    CheckHeaderFrame(p, t, Grown(t, b).meta, b);
  }

  lemma OldNode(p: Params, t: BlockTree, g: BlockTree, h: Hash)
    requires p.Valid() && TreeInv(p, t) && h in t.meta && g.genesis == t.genesis
    requires g.all.Keys == g.meta.Keys
    requires forall x :: x in t.meta ==> x in g.meta && g.meta[x] == t.meta[x] && g.all[x] == t.all[x]
    ensures NodeInv(p, g, h)
  {
    hide CheckHeader, CheckGenesis, ApplyChain, Rooted, BlockWork, BlockSize, Compact.BitsToTarget;
    assert NodeInv(p, t, h);
    if h != t.genesis {
      CheckHeaderFrame(p, t, g.meta, t.all[h]);
    }
  }

  lemma GrownChain(p: Params, t: BlockTree, b: Blk, h: Hash)
    requires p.Valid() && TreeInv(p, t)
    requires BlockHash(b.header) !in t.all && b.header.prev in t.meta
    requires CheckHeader(p, t.meta, t.genesis, b).Ok?
    requires h in t.meta
    ensures var g := Grown(t, b);
            && g.all.Keys == g.meta.Keys && Rooted(g.meta)
            && ChainTo(g, h) == ChainTo(t, h)
            && PathTo(g.meta, h) == PathTo(t.meta, h)
            && ChainTo(g, BlockHash(b.header)) == ChainTo(t, b.header.prev) + [b]
            && PathTo(g.meta, BlockHash(b.header)) == PathTo(t.meta, b.header.prev) + [BlockHash(b.header)]
  {
    hide NodeInv, CheckHeader, ApplyChain;
    var g, hash := Grown(t, b), BlockHash(b.header);
    GrownNodes(p, t, b);
    PathFrame(t.meta, g.meta, h);
    PathFrame(t.meta, g.meta, b.header.prev);
    PrevNotZero(p, t, b.header.prev);
    BlocksFrame(t.all, g.all, PathTo(t.meta, h));
    BlocksFrame(t.all, g.all, PathTo(t.meta, b.header.prev));
    assert PathTo(g.meta, hash) == PathTo(t.meta, b.header.prev) + [hash];
    BlocksAppend(g.all, PathTo(t.meta, b.header.prev), hash);
  }

  lemma BlocksFrame(all: BlockMap, all': BlockMap, path: seq<Hash>)
    requires forall x :: x in path ==> x in all && x in all' && all'[x] == all[x]
    ensures BlocksOf(all', path) == BlocksOf(all, path)
  {
    assert forall i :: 0 <= i < |path| ==> path[i] in path;
  }

  lemma BlocksSlice(all: BlockMap, path: seq<Hash>, n: nat)
    requires n <= |path| && forall x :: x in path ==> x in all
    ensures forall x :: x in path[..n] ==> x in all
    ensures BlocksOf(all, path[..n]) == BlocksOf(all, path)[..n]
  {
  }

  lemma BlocksAppend(all: BlockMap, path: seq<Hash>, h: Hash)
    requires h in all && forall x :: x in path ==> x in all
    ensures BlocksOf(all, path + [h]) == BlocksOf(all, path) + [all[h]]
  {
  }

  lemma PrevNotZero(p: Params, t: BlockTree, h: Hash)
    requires p.Valid() && TreeInv(p, t) && h in t.meta
    ensures h != Zero
  {
    assert NodeInv(p, t, h);
  }

  // The invariant survives every block, accepted or not.
  lemma AddBlockKeeps(p: Params, t: BlockTree, b: Blk)
    requires p.Valid() && TreeInv(p, t)
    ensures TreeInv(p, AddBlock(p, t, b).0)
    ensures AddBlock(p, t, b).0.genesis == t.genesis
  {
    hide NodeInv, CheckHeader, ApplyChain, ChainTo, Rooted;
    var (t', r) := AddBlock(p, t, b);
    if r.Ok? {
      GrownNodes(p, t, b);
      GrownChain(p, t, b, t.tip);
      Retip(p, Grown(t, b), t'.tip);
    }
  }

  lemma Retip(p: Params, t: BlockTree, tip: Hash)
    requires p.Valid() && t.all.Keys == t.meta.Keys && t.genesis in t.meta && tip in t.meta
    requires Rooted(t.meta) && forall h :: h in t.meta ==> NodeInv(p, t, h)
    ensures forall h :: h in t.meta ==> NodeInv(p, t.(tip := tip), h)
    ensures ChainTo(t.(tip := tip), tip) == ChainTo(t, tip)
  {
    hide CheckHeader, CheckGenesis, ApplyChain, BlockWork, BlockSize, Compact.BitsToTarget;
    forall h | h in t.meta
      ensures NodeInv(p, t.(tip := tip), h)
    {
      assert NodeInv(p, t, h);
    }
  }

  // Ok(true) exactly when the tip's work strictly rises; otherwise the tip
  // stays.  An error changes nothing at all, and no stored block outweighs the tip.
  lemma HeaviestTip(p: Params, t: BlockTree, b: Blk)
    requires p.Valid() && TreeInv(p, t)
    ensures var (t', r) := AddBlock(p, t, b);
            && TreeInv(p, t')
            && (r == Ok(true) <==> t'.meta[t'.tip].work > t.meta[t.tip].work)
            && (r != Ok(true) ==> t'.tip == t.tip)
            && (r.Err? <==> t' == t)
            && (r.Ok? ==> t'.all == t.all[BlockHash(b.header) := b])
            && (forall h :: h in t'.meta ==> t'.meta[h].work <= t'.meta[t'.tip].work)
  {
    hide NodeInv, CheckHeader, ApplyChain, ChainTo, Rooted;
    AddBlockKeeps(p, t, b);
  }

  // How a step moves the active path and chain.
  lemma ActiveAfter(p: Params, t: BlockTree, b: Blk)
    requires p.Valid() && TreeInv(p, t)
    ensures var (t', r) := AddBlock(p, t, b);
            && TreeInv(p, t')
            && (r != Ok(true) ==> ActivePath(p, t') == ActivePath(p, t) && ActiveChain(p, t') == ActiveChain(p, t))
            && (r == Ok(true) ==>
                  && b.header.prev in t.meta
                  && ActivePath(p, t') == PathTo(t.meta, b.header.prev) + [BlockHash(b.header)]
                  && ActiveChain(p, t') == ChainTo(t, b.header.prev) + [b])
  {
    hide NodeInv, CheckHeader, ApplyChain, PathTo, BlocksOf, Rooted;
    AddBlockKeeps(p, t, b);
    if AddBlock(p, t, b).1.Ok? {
      GrownChain(p, t, b, t.tip);
      GrownNodes(p, t, b);
      if AddBlock(p, t, b).1 == Ok(true) {
        Retip(p, Grown(t, b), BlockHash(b.header));
      }
    }
  }

  // ----- runs -----

  ghost function Run(p: Params, g: Blk, blocks: seq<Blk>): BlockTree
    requires p.Valid() && NewTree(p, g).Ok?
    ensures TreeInv(p, Run(p, g, blocks))
    ensures Run(p, g, blocks).genesis == BlockHash(g.header)
  {
    if blocks == [] then
      NewTreeInv(p, g);
      NewTree(p, g).value
    else
      var before := Run(p, g, blocks[..|blocks| - 1]);
      AddBlockKeeps(p, before, blocks[|blocks| - 1]);
      AddBlock(p, before, blocks[|blocks| - 1]).0
  }

  lemma NewTreeInv(p: Params, g: Blk)
    requires p.Valid() && NewTree(p, g).Ok?
    ensures TreeInv(p, NewTree(p, g).value)
  {
    hide CheckPow, CheckRoots, BlockSize;
    var t := NewTree(p, g).value;
    GenesisTarget(p, g);
    assert NodeInv(p, t, t.genesis);
    assert ChainTo(t, t.tip) == [g];
  }

  lemma GenesisTarget(p: Params, g: Blk)
    requires p.Valid() && CheckGenesis(p, g).Ok?
    ensures Compact.BitsToTarget(g.header.bits).Some? && Compact.BitsToTarget(g.header.bits).value <= p.powLimit
  {
    hide Compact.BitsToTarget, Compact.TargetToBits;
  }

  ghost function GenesisOf(p: Params, t: BlockTree): (g: Blk)
    requires p.Valid() && TreeInv(p, t)
    ensures t.genesis in t.all && g == t.all[t.genesis]
  {
    t.all[t.genesis]
  }

  // The active path and its blocks.
  ghost function ActivePath(p: Params, t: BlockTree): (path: seq<Hash>)
    requires p.Valid() && TreeInv(p, t)
    ensures |path| == t.meta[t.tip].height + 1
    ensures forall x :: x in path ==> x in t.meta
  {
    PathTo(t.meta, t.tip)
  }

  ghost function ActiveChain(p: Params, t: BlockTree): (blocks: seq<Blk>)
    requires p.Valid() && TreeInv(p, t)
    ensures |blocks| == |ActivePath(p, t)|
    ensures forall i :: 0 <= i < |blocks| ==> ActivePath(p, t)[i] in t.meta && blocks[i] == t.all[ActivePath(p, t)[i]]
  {
    ChainTo(t, t.tip)
  }

  // The spendable outputs and the supply counter of a state.
  ghost function TipTotals(p: Params, t: BlockTree): Totals
    requires p.Valid() && TreeInv(p, t)
  {
    ApplyChain(p, ActiveChain(p, t)).value
  }

  lemma ActiveNumbered(p: Params, t: BlockTree)
    requires p.Valid() && TreeInv(p, t)
    ensures ApplyChain(p, ActiveChain(p, t)).Ok?
    ensures forall b :: b in ActiveChain(p, t) ==> NumberedBlock(b)
  {
    ChainNumbered(p, t, t.tip);
  }

  // After any run, the unspent total plus the fees no coinbase claimed is exactly
  // the supply; the supply is within the emission so far, which is within the cap.
  lemma SupplyOverRuns(p: Params, g: Blk, blocks: seq<Blk>)
    requires p.Valid() && NewTree(p, g).Ok?
    ensures var t := Run(p, g, blocks);
            var totals := TipTotals(p, t);
            && ApplyChain(p, ActiveChain(p, t)).Ok?
            && Total(totals.utxos) + Burned(p, ActiveChain(p, t)) == totals.supply
            && totals.supply <= RewardSum(t.meta[t.tip].height + 1) <= SUPPLY_CAP
  {
    hide TreeInv, ActiveChain, ApplyChain, Total, Burned, RewardSum;
    var t := Run(p, g, blocks);
    ActiveNumbered(p, t);
    SupplyExact(p, ActiveChain(p, t));
  }

  // On every reachable tip, whatever the block, no overflow exit but that of one
  // transaction's own outputs can be taken; in particular adding what the block
  // mints to the supply never overflows.
  lemma OverflowOverRuns(p: Params, g: Blk, blocks: seq<Blk>, b: Blk)
    requires p.Valid() && NewTree(p, g).Ok? && BlockSize(b) <= p.maxBlockSize
    ensures var t := Run(p, g, blocks);
            var totals, h := TipTotals(p, t), t.meta[t.tip].height + 1;
            && (b.transactions != [] ==>
                  forall n :: 0 <= n < |b.transactions| && ApplyTxs(p, totals.utxos, b.transactions[1..], h, n).Ok? ==>
                    ExitsDead(p, totals.utxos, b.transactions[1..], h, n))
            && (ValidateBlock(p, totals.utxos, b, h) == Err(Overflow) ==> HugeOutputs(b))
            && (ValidateBlock(p, totals.utxos, b, h).Ok? ==>
                  totals.supply + ValidateBlock(p, totals.utxos, b, h).value.minted <= SUPPLY_CAP)
  {
    hide TreeInv, ActiveChain, ApplyChain, ValidateBlock, HugeOutputs, ApplyTxs, ExitsDead;
    var t := Run(p, g, blocks);
    ActiveNumbered(p, t);
    SmallBlockNumbered(p, b);
    OnlyOutputsOverflow(p, ActiveChain(p, t), b);
  }

  // Along any reachable chain no transaction id is ever created twice.
  lemma NoOutpointTwice(p: Params, g: Blk, blocks: seq<Blk>, n: nat)
    requires p.Valid() && NewTree(p, g).Ok?
    requires n < |ActiveChain(p, Run(p, g, blocks))|
    ensures var chain := ActiveChain(p, Run(p, g, blocks));
            && TxidSet(chain[n].transactions) !! Created(chain[..n])
            && DistinctTxids(chain[n].transactions)
  {
    hide TreeInv, ActiveChain, ApplyChain;
    var t := Run(p, g, blocks);
    ActiveNumbered(p, t);
    NeverCreatedTwice(p, ActiveChain(p, t), n);
  }

  // ----- median time -----

  lemma WindowPrefix(meta: MetaMap, h: Hash, n: nat)
    requires Rooted(meta) && h in meta && n > 0
    ensures |Window(meta, h, n)| >= 1
    ensures |Window(meta, h, n - 1)| == |Window(meta, h, n)| || |Window(meta, h, n - 1)| == |Window(meta, h, n)| - 1
    ensures Window(meta, h, n - 1) == Window(meta, h, n)[..|Window(meta, h, n - 1)|]
    decreases n
  {
    if n > 1 && meta[h].parent != Zero {
      WindowPrefix(meta, meta[h].parent, n - 1);
    }
  }

  // The window of a block is the times of its chain's last blocks, newest first.
  lemma {:induction false} WindowMeaning(meta: MetaMap, h: Hash, n: nat)
    requires Rooted(meta) && h in meta
    ensures |Window(meta, h, n)| == if n <= meta[h].height then n else if n == 0 then 0 else meta[h].height + 1
    ensures forall i :: 0 <= i < |Window(meta, h, n)| ==>
              var ancestor := PathTo(meta, h)[meta[h].height - i];
              ancestor in meta && Window(meta, h, n)[i] == meta[ancestor].time
    decreases n
  {
    if n > 0 && meta[h].parent != Zero {
      var parent := meta[h].parent;
      WindowMeaning(meta, parent, n - 1);
      var path, window := PathTo(meta, h), Window(meta, h, n);
      forall i | 0 <= i < |window|
        ensures path[meta[h].height - i] in meta && window[i] == meta[path[meta[h].height - i]].time
      {
        if i > 0 {
          assert path[meta[h].height - i] == PathTo(meta, parent)[meta[parent].height - (i - 1)];
          assert window[i] == Window(meta, parent, n - 1)[i - 1];
        }
      }
    } else if n > 0 {
      assert PathTo(meta, h) == [h] && Window(meta, h, n) == [meta[h].time];
    }
  }

  // Median time past is at least v exactly when at most half of the last eleven times,
  // or of all there are, lie below v.
  lemma MedianTimeMeaning(meta: MetaMap, h: Hash, times: seq<nat>, v: nat)
    requires Rooted(meta) && h in meta
    requires |times| == if meta[h].height < 11 then meta[h].height + 1 else 11
    requires forall i :: 0 <= i < |times| ==>
               var ancestor := PathTo(meta, h)[meta[h].height - i];
               ancestor in meta && times[i] == meta[ancestor].time
    ensures MedianTimePast(meta, h) >= v <==> Median.CountBelow(times, v) <= |times| / 2
  {
    hide Median.MedianOf;
    WindowMeaning(meta, h, 11);
    assert times == Window(meta, h, 11);
    Median.MedianRank(times, v);
  }

  // Median time past never goes back from parent to child.
  lemma MedianNeverGoesBack(p: Params, t: BlockTree, h: Hash)
    requires p.Valid() && TreeInv(p, t) && h in t.meta && h != t.genesis
    ensures t.meta[h].parent in t.meta
    ensures MedianTimePast(t.meta, h) >= MedianTimePast(t.meta, t.meta[h].parent)
  {
    hide CheckHeader, ApplyChain, Median.MedianOf;
    assert NodeInv(p, t, h);
    var parent := t.meta[h].parent;
    CheckedHeader(p, t, t.all[h]);
    PrevNotZero(p, t, parent);
    var w, w' := Window(t.meta, parent, 11), Window(t.meta, parent, 10);
    WindowPrefix(t.meta, parent, 11);
    Median.MedianAdvances(w, t.meta[h].time, |w'|);
  }

  // Nor along any stretch of a stored chain.
  lemma {:induction false} MedianMonotone(p: Params, t: BlockTree, h: Hash, i: nat)
    requires p.Valid() && TreeInv(p, t) && h in t.meta && i <= t.meta[h].height
    ensures PathTo(t.meta, h)[i] in t.meta
    ensures MedianTimePast(t.meta, PathTo(t.meta, h)[i]) <= MedianTimePast(t.meta, h)
    decreases t.meta[h].height
  {
    PathPrefix(t.meta, h, i);
    if i < t.meta[h].height {
      assert NodeInv(p, t, h);
      assert NodeInv(p, t, t.genesis);
      MedianNeverGoesBack(p, t, h);
      MedianMonotone(p, t, t.meta[h].parent, i);
    }
  }
}
