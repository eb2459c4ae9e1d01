// The block tree and the simple rule for growing it: check the header against
// its parent chain, and move the tip only to a heavier block whose whole chain,
// replayed from genesis, is valid.
module Tree {
  import opened Prelude
  import opened Tx
  import opened Ledger
  import opened Conservation
  import Asert
  import Compact
  import Median
  import Merkle

  datatype Meta = Meta(height: nat, work: nat, time: U64, parent: Hash)

  type MetaMap = map<Hash, Meta>
  type BlockMap = map<Hash, Blk>

  datatype BlockTree = BlockTree(all: BlockMap, meta: MetaMap, tip: Hash, genesis: Hash)

  // ----- header rules -----

  function WorkFromTarget(target: nat): nat {
    (TWO_256 - 1) / (target + 1)
  }

  // Reinterpretation of the low 64 bits as a signed integer.
  function ToI64(x: int): int {
    var m := x % TWO_64;
    if m < TWO_63 then m else m - TWO_64
  }

  function ExpectedBits(p: Params, parent: Meta, genesisTime: U64): U32
    requires p.Valid()
  {
    var target := Asert.NextTarget(p.powLimit, p.blockInterval, p.asertTau,
                                   ToI64(parent.time - genesisTime), parent.height, p.powLimit);
    Compact.TargetToBits(target)
  }

  // Times of the block and up to n - 1 of its ancestors, newest first.
  function Window(meta: MetaMap, cur: Hash, n: nat): seq<nat>
    decreases n
  {
    if n == 0 || cur !in meta then []
    else if meta[cur].parent == Zero then [meta[cur].time]
    else [meta[cur].time] + Window(meta, meta[cur].parent, n - 1)
  }

  function MedianTimePast(meta: MetaMap, from: Hash): nat
    requires from in meta
  {
    Median.MedianOf(Window(meta, from, 11))
  }

  function CheckPow(p: Params, header: Header, height: nat): Result<(), Error>
    requires p.epochLength > 0
  {
    var target := Compact.BitsToTarget(header.bits);
    if target.None? then Err(BadBits)
    else if target.value > p.powLimit then Err(BadBits)
    else if p.powHash(height / p.epochLength, PowMessage(header), header.nonce) > target.value then Err(BadPow)
    else Ok(())
  }

  function Txids(txs: seq<Txn>): seq<Hash> {
    seq(|txs|, i requires 0 <= i < |txs| => Txid(txs[i]))
  }

  function WitnessHashes(txs: seq<Txn>): seq<Hash> {
    seq(|txs|, i requires 0 <= i < |txs| => WitnessHash(txs[i]))
  }

  function CheckRoots(b: Blk): Result<(), Error> {
    if b.header.txRoot != Merkle.Root(Txids(b.transactions)) then Err(BadMerkleRoot)
    else if b.header.witnessRoot != Merkle.Root(WitnessHashes(b.transactions)) then Err(BadWitnessRoot)
    else Ok(())
  }

  function CheckGenesis(p: Params, g: Blk): Result<(), Error>
    requires p.Valid()
  {
    var expected := Compact.TargetToBits(p.powLimit);
    if g.header.prev != Zero then Err(BadGenesis)
    else if g.header.bits != expected then Err(WrongBits(expected, g.header.bits))
    else
      var _ :- CheckPow(p, g.header, 0);
      var _ :- CheckRoots(g);
      if BlockSize(g) > p.maxBlockSize then Err(TooLarge) else Ok(())
  }

  // The contextual checks of a block against its parent chain.
  function CheckHeader(p: Params, meta: MetaMap, genesis: Hash, b: Blk): Result<(), Error>
    requires p.Valid() && b.header.prev in meta && genesis in meta
  {
    var parent := meta[b.header.prev];
    var expected := ExpectedBits(p, parent, meta[genesis].time);
    if b.header.bits != expected then Err(WrongBits(expected, b.header.bits))
    else if b.header.time <= MedianTimePast(meta, b.header.prev) then Err(TimeTooOld)
    else if BlockSize(b) > p.maxBlockSize then Err(TooLarge)
    else
      var _ :- CheckRoots(b);
      CheckPow(p, b.header, parent.height + 1)
  }

  // ----- paths -----

  // Parent links lead down to a block with no parent, one height at a time.
  ghost predicate Rooted(meta: MetaMap) {
    forall h {:trigger meta[h].parent} :: h in meta ==>
      if meta[h].parent == Zero then meta[h].height == 0
      else meta[h].parent in meta && meta[h].height == meta[meta[h].parent].height + 1
  }

  ghost function PathTo(meta: MetaMap, h: Hash): (path: seq<Hash>)
    requires Rooted(meta) && h in meta
    ensures |path| == meta[h].height + 1 && path[|path| - 1] == h
    ensures forall x :: x in path ==> x in meta
    decreases meta[h].height
  {
    if meta[h].parent == Zero then [h] else PathTo(meta, meta[h].parent) + [h]
  }

  ghost function BlocksOf(all: BlockMap, path: seq<Hash>): (blocks: seq<Blk>)
    requires forall x :: x in path ==> x in all
    ensures |blocks| == |path|
  {
    seq(|path|, i requires 0 <= i < |path| => all[path[i]])
  }

  lemma {:induction false} PathFrame(meta: MetaMap, meta': MetaMap, h: Hash)
    requires Rooted(meta) && Rooted(meta') && h in meta
    requires forall x :: x in meta ==> x in meta' && meta'[x] == meta[x]
    ensures PathTo(meta', h) == PathTo(meta, h)
    decreases meta[h].height
  {
    if meta[h].parent != Zero {
      PathFrame(meta, meta', meta[h].parent);
    }
  }

  lemma {:induction false} WindowFrame(meta: MetaMap, meta': MetaMap, h: Hash, n: nat)
    requires Rooted(meta) && h in meta
    requires forall x :: x in meta ==> x in meta' && meta'[x] == meta[x]
    ensures Window(meta', h, n) == Window(meta, h, n)
    decreases n
  {
    if n > 0 && meta[h].parent != Zero {
      WindowFrame(meta, meta', meta[h].parent, n - 1);
    }
  }

  // Element i of a path is the ancestor at height i, and cutting there leaves its path.
  lemma {:induction false} PathPrefix(meta: MetaMap, h: Hash, i: nat)
    requires Rooted(meta) && h in meta && i <= meta[h].height
    ensures PathTo(meta, h)[i] in meta && meta[PathTo(meta, h)[i]].height == i
    ensures PathTo(meta, h)[..i + 1] == PathTo(meta, PathTo(meta, h)[i])
    decreases meta[h].height
  {
    var path := PathTo(meta, h);
    if i < meta[h].height {
      var parent := meta[h].parent;
      PathPrefix(meta, parent, i);
      assert path == PathTo(meta, parent) + [h];
      assert path[..i + 1] == PathTo(meta, parent)[..i + 1];
    } else {
      assert path[..i + 1] == path;
    }
  }

  // ----- the tree invariant -----

  ghost predicate NodeInv(p: Params, t: BlockTree, h: Hash)
    requires p.Valid() && t.all.Keys == t.meta.Keys && h in t.meta && t.genesis in t.meta
  {
    var b, m := t.all[h], t.meta[h];
    && h == BlockHash(b.header)
    && m.time == b.header.time
    && m.parent == b.header.prev
    && Compact.BitsToTarget(b.header.bits).Some?
    && Compact.BitsToTarget(b.header.bits).value <= p.powLimit
    && BlockSize(b) <= p.maxBlockSize
    && (if h == t.genesis then
          && CheckGenesis(p, b).Ok?
          && m.height == 0
          && m.work == BlockWork(b)
        else
          && m.parent in t.meta
          && CheckHeader(p, t.meta, t.genesis, b).Ok?
          && m.height == t.meta[m.parent].height + 1
          && m.work == t.meta[m.parent].work + BlockWork(b))
  }

  function BlockWork(b: Blk): nat {
    var target := Compact.BitsToTarget(b.header.bits);
    if target.Some? then WorkFromTarget(target.value) else 0
  }

  // Every block is checked against its parent, nothing outweighs the tip, and the
  // tip's chain replays.  The triggers unfold a block or a chain only where a proof
  // names it.
  ghost predicate TreeInv(p: Params, t: BlockTree)
    requires p.Valid()
  {
    && t.all.Keys == t.meta.Keys
    && t.genesis in t.meta
    && t.tip in t.meta
    && (forall h {:trigger NodeInv(p, t, h)} :: h in t.meta ==> NodeInv(p, t, h))
    && (forall h {:trigger t.meta[h].work} :: h in t.meta ==> t.meta[h].work <= t.meta[t.tip].work)
    && Rooted(t.meta)
    && (forall h {:trigger ChainTo(t, h)} :: h == t.tip ==> ApplyChain(p, ChainTo(t, h)).Ok?)
  }

  // The blocks from genesis to h.
  ghost function ChainTo(t: BlockTree, h: Hash): seq<Blk>
    requires Rooted(t.meta) && t.all.Keys == t.meta.Keys && h in t.meta
  {
    BlocksOf(t.all, PathTo(t.meta, h))
  }

  lemma {:induction false} ParentsRooted(p: Params, t: BlockTree)
    requires p.Valid() && t.all.Keys == t.meta.Keys && t.genesis in t.meta
    requires forall h :: h in t.meta ==> NodeInv(p, t, h)
    ensures Rooted(t.meta)
  {
    forall h | h in t.meta
      ensures if t.meta[h].parent == Zero then t.meta[h].height == 0
              else t.meta[h].parent in t.meta && t.meta[h].height == t.meta[t.meta[h].parent].height + 1
    {
      assert NodeInv(p, t, h);
      if h != t.genesis {
        assert NodeInv(p, t, t.meta[h].parent);
      }
    }
  }

  // ----- growing the tree -----

  ghost function Grown(t: BlockTree, b: Blk): BlockTree
    requires b.header.prev in t.meta
  {
    var h, parent := BlockHash(b.header), t.meta[b.header.prev];
    t.(all := t.all[h := b],
       meta := t.meta[h := Meta(parent.height + 1, parent.work + BlockWork(b), b.header.time, b.header.prev)])
  }

  // The simple rule: no incremental state, no rollback.
  ghost function AddBlock(p: Params, t: BlockTree, b: Blk): (BlockTree, Result<bool, Error>)
    requires p.Valid() && TreeInv(p, t)
  {
    var h := BlockHash(b.header);
    if h in t.all then (t, Err(Duplicate))
    else if b.header.prev !in t.meta then (t, Err(UnknownParent))
    else
      var checked := CheckHeader(p, t.meta, t.genesis, b);
      if checked.Err? then (t, Err(checked.error))
      else
        var grown := Grown(t, b);
        if grown.meta[h].work <= t.meta[t.tip].work then (grown, Ok(false))
        else
          var replay := ApplyChain(p, ChainTo(t, b.header.prev) + [b]);
          if replay.Err? then (t, Err(replay.error)) else (grown.(tip := h), Ok(true))
  }

  ghost function NewTree(p: Params, g: Blk): Result<BlockTree, Error>
    requires p.Valid()
  {
    var _ :- CheckGenesis(p, g);
    var _ :- ApplyChain(p, [g]);
    var h := BlockHash(g.header);
    Ok(BlockTree(map[h := g], map[h := Meta(0, BlockWork(g), g.header.time, Zero)], h, h))
  }

  // ----- every stored block fits, so its outputs are numbered without wrapping -----

  lemma {:induction false} OutputsFit(outs: seq<TxOutput>)
    ensures |outs| <= OutputsSize(outs)
  {
    if outs != [] {
      OutputsFit(outs[..|outs| - 1]);
    }
  }

  lemma TxOutputsFit(tx: Txn)
    ensures |tx.body.outputs| <= TxSize(tx)
  {
    OutputsFit(tx.body.outputs);
  }

  lemma {:induction false} TxFits(txs: seq<Txn>, tx: Txn)
    requires tx in txs
    ensures |tx.body.outputs| <= TxSize(tx) <= TxsSize(txs)
  {
    TxOutputsFit(tx);
    if tx != txs[|txs| - 1] {
      TxFits(txs[..|txs| - 1], tx);
    }
  }

  lemma SmallBlockNumbered(p: Params, b: Blk)
    requires p.Valid() && BlockSize(b) <= p.maxBlockSize
    ensures NumberedBlock(b)
  {
    forall tx | tx in b.transactions
      ensures Numbered(tx)
    {
      TxFits(b.transactions, tx);
    }
  }

  lemma ChainNumbered(p: Params, t: BlockTree, h: Hash)
    requires p.Valid() && TreeInv(p, t) && h in t.meta
    ensures forall b :: b in ChainTo(t, h) ==> NumberedBlock(b)
  {
    var path := PathTo(t.meta, h);
    forall i | 0 <= i < |path|
      ensures NumberedBlock(ChainTo(t, h)[i])
    {
      assert path[i] in path;
      assert NodeInv(p, t, path[i]);
      SmallBlockNumbered(p, t.all[path[i]]);
    }
  }
}
