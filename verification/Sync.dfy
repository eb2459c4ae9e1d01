// Block sync with one honest, static peer: what the handlers send, and why the
// exchange ends with equal tips.
module Sync {
  import opened Prelude
  import opened Protocol
  import opened Tx
  import opened Ledger
  import opened Conservation
  import opened Tree
  import opened TreeProofs
  import opened Reload
  import opened Repeats
  import opened Locator
  import opened Chain
  import Compact
  import Median

  datatype Message =
    | Inv(blocks: seq<Hash>, txs: seq<Hash>)
    | GetData(blocks: seq<Hash>, txs: seq<Hash>)
    | GetBlocks(locator: seq<Hash>)
    | BlockMsg(block: Blk)
    | TxMsg(tx: Txn)

  // ----- the handlers, as functions of the state they read -----

  // The hashes not stored yet, in order.
  function Missing(all: BlockMap, hs: seq<Hash>): seq<Hash> {
    if hs == [] then []
    else if hs[0] in all then Missing(all, hs[1..])
    else [hs[0]] + Missing(all, hs[1..])
  }

  function Unrequested(hs: seq<Hash>, requested: set<Hash>): seq<Hash> {
    if hs == [] then []
    else if hs[0] in requested then Unrequested(hs[1..], requested)
    else [hs[0]] + Unrequested(hs[1..], requested)
  }

  function OnGetBlocks(active: seq<Hash>, locator: seq<Hash>): seq<Message> {
    var hashes := HashesAfter(active, locator, BLOCKS_PER_ROUND);
    if hashes == [] then [] else [Inv(hashes, [])]
  }

  function Stored(all: BlockMap, hs: seq<Hash>): seq<Message> {
    if hs == [] then []
    else (if hs[0] in all then [BlockMsg(all[hs[0]])] else []) + Stored(all, hs[1..])
  }

  function Pooled(pool: map<Hash, Txn>, hs: seq<Hash>): seq<Message> {
    if hs == [] then []
    else (if hs[0] in pool then [TxMsg(pool[hs[0]])] else []) + Pooled(pool, hs[1..])
  }

  // None: an oversized request, which drops the connection.
  function OnGetData(all: BlockMap, pool: map<Hash, Txn>, blocks: seq<Hash>, txs: seq<Hash>): Option<seq<Message>> {
    if |blocks| > MAX_INV || |txs| > MAX_INV then None else Some(Stored(all, blocks) + Pooled(pool, txs))
  }

  // A greeting from a peer that claims more blocks and an unknown tip starts sync.
  function OnHello(all: BlockMap, active: seq<Hash>, height: nat, tip: Hash): seq<Message>
    requires active != []
  {
    if height > |active| - 1 && tip !in all then [GetBlocks(Entries(active))] else []
  }

  // What is neither stored nor already requested, and not pooled, is requested.
  function OnInv(all: BlockMap, pooled: set<Hash>, requested: set<Hash>, blocks: seq<Hash>, txs: seq<Hash>): (set<Hash>, seq<Message>) {
    var wantBlocks := Unrequested(Missing(all, blocks), requested);
    var wantTxs := Unrequested(txs, pooled);
    (requested + Elements(wantBlocks),
     if wantBlocks == [] && wantTxs == [] then [] else [GetData(wantBlocks, wantTxs)])
  }

  function Elements(hs: seq<Hash>): set<Hash> {
    set h | h in hs
  }

  datatype Verdict = Fine | Orphan | Punish(error: Error)

  // How a received block is answered: the next request once the batch is
  // complete, a restart on an orphan, a ban on an invalid block.
  function AfterBlock(result: Result<bool, Error>, requested: set<Hash>, active: seq<Hash>): (set<Hash>, seq<Message>, Verdict)
    requires active != []
  {
    if result.Ok? then (requested, if requested == {} then [GetBlocks(Entries(active))] else [], Fine)
    else if result.error == UnknownParent then ({}, [GetBlocks(Entries(active))], Orphan)
    else if result.error == Duplicate then (requested, [], Fine)
    else (requested, [], Punish(result.error))
  }

  // ----- the exchange over two FIFO channels, with no transaction announced -----

  datatype Exchange = Exchange(us: BlockTree, requested: set<Hash>, toPeer: seq<Message>, toUs: seq<Message>, verdict: Verdict)

  // The peer handles the oldest message sent to it.
  ghost function PeerStep(p: Params, peer: BlockTree, s: Exchange): Exchange
    requires p.Valid() && TreeInv(p, peer) && s.toPeer != []
  {
    var rest := s.(toPeer := s.toPeer[1..]);
    match s.toPeer[0]
    case GetBlocks(locator) => rest.(toUs := s.toUs + OnGetBlocks(ActivePath(p, peer), locator))
    case GetData(blocks, txs) =>
      var reply := OnGetData(peer.all, map[], blocks, txs);
      if reply.Some? then rest.(toUs := s.toUs + reply.value) else rest.(verdict := Punish(TooLarge))
    case _ => rest
  }

  // We handle the oldest message sent to us.
  ghost function OurStep(p: Params, s: Exchange): Exchange
    requires p.Valid() && TreeInv(p, s.us) && s.toUs != []
  {
    var rest := s.(toUs := s.toUs[1..]);
    match s.toUs[0]
    case Inv(blocks, txs) =>
      var (requested, out) := OnInv(s.us.all, {}, s.requested, blocks, txs);
      rest.(requested := requested, toPeer := s.toPeer + out)
    case BlockMsg(b) =>
      var (us, result) := AddBlock(p, s.us, b);
      AddBlockKeeps(p, s.us, b);
      var (requested, out, verdict) := AfterBlock(result, s.requested - {BlockHash(b.header)}, ActivePath(p, us));
      Exchange(us, requested, s.toPeer + out, rest.toUs, if s.verdict.Fine? then verdict else s.verdict)
    case _ => rest
  }

  // ----- what we share with the peer -----

  // Blocks of the peer's active chain that we store are stored intact.
  ghost predicate Agree(p: Params, peer: BlockTree, us: BlockTree)
    requires p.Valid() && TreeInv(p, peer)
  {
    && us.genesis == peer.genesis
    && forall h :: h in us.all && h in ActivePath(p, peer) ==> us.all[h] == peer.all[h]
  }

  // We know the peer's chain up to height k.
  ghost predicate Knows(p: Params, peer: BlockTree, us: BlockTree, k: nat)
    requires p.Valid() && TreeInv(p, peer) && k < |ActivePath(p, peer)|
  {
    forall i :: 0 <= i <= k ==>
      var h := ActivePath(p, peer)[i];
      h in us.meta && us.meta[h] == peer.meta[h]
  }

  // Storing a block of the peer's chain means storing its ancestors, with the
  // peer's metadata.
  lemma {:induction false} KnownBelow(p: Params, peer: BlockTree, us: BlockTree, k: nat)
    requires p.Valid() && TreeInv(p, peer) && TreeInv(p, us) && us.genesis == peer.genesis
    requires k < |ActivePath(p, peer)| && ActivePath(p, peer)[k] in us.meta
    ensures Knows(p, peer, us, k)
  {
    hide TreeInv, ActivePath;
    var path := ActivePath(p, peer);
    if k == 0 {
      PathStart(p, peer);
      SameMetaAtGenesis(p, peer, us);
    } else {
      NextLink(p, peer, k - 1);
      ParentKnown(p, peer, us, path[k]);
      KnownBelow(p, peer, us, k - 1);
    }
  }

  lemma SameMetaAtGenesis(p: Params, a: BlockTree, b: BlockTree)
    requires p.Valid() && TreeInv(p, a) && TreeInv(p, b) && a.genesis == b.genesis
    ensures a.genesis in a.meta && b.genesis in b.meta && a.meta[a.genesis] == b.meta[b.genesis]
  {
    hide CheckHeader, CheckGenesis, ApplyChain, WorkFromTarget;
    assert NodeInv(p, a, a.genesis) && NodeInv(p, b, b.genesis);
  }

  // Element k + 1 of an active path has element k as its parent.
  lemma NextLink(p: Params, t: BlockTree, k: nat)
    requires p.Valid() && TreeInv(p, t) && k + 1 < |ActivePath(p, t)|
    ensures var h := ActivePath(p, t)[k + 1];
            && h in t.meta && ActivePath(p, t)[k] in t.meta
            && t.meta[h].parent == ActivePath(p, t)[k] && t.meta[h].height == k + 1 && h != t.genesis
  {
    hide CheckHeader, CheckGenesis, ApplyChain;
    ParentOnPath(t.meta, t.tip, k);
    assert NodeInv(p, t, t.genesis);
  }

  lemma ParentKnown(p: Params, peer: BlockTree, us: BlockTree, h: Hash)
    requires p.Valid() && TreeInv(p, peer) && TreeInv(p, us) && us.genesis == peer.genesis
    requires h in peer.meta && h in us.meta && h != peer.genesis
    ensures peer.meta[h].parent in peer.meta && peer.meta[h].parent in us.meta
    ensures us.meta[peer.meta[h].parent] == peer.meta[peer.meta[h].parent] ==> us.meta[h] == peer.meta[h]
  {
    hide CheckHeader, CheckGenesis, ApplyChain, WorkFromTarget;
    assert NodeInv(p, peer, h) && NodeInv(p, us, h);
  }

  // ----- one delivered block -----

  // The peer's next block after what we know.  If it does not outweigh our tip it is
  // stored as a side block.  If it does, it becomes our tip when our copies of the
  // peer's blocks agree with the peer's, and otherwise is refused as repeating a
  // transaction, which a copy below it does.
  lemma DeliverNext(p: Params, peer: BlockTree, us: BlockTree, k: nat)
    requires p.Valid() && TreeInv(p, peer) && TreeInv(p, us) && us.genesis == peer.genesis
    requires k + 1 < |ActivePath(p, peer)| && Knows(p, peer, us, k)
    requires ActivePath(p, peer)[k + 1] !in us.all
    requires forall i :: k < i < |ActivePath(p, peer)| ==> ActivePath(p, peer)[i] !in us.all
    ensures var b, h := ActiveChain(p, peer)[k + 1], ActivePath(p, peer)[k + 1];
            var (us', r) := AddBlock(p, us, b);
            && h == BlockHash(b.header) && h in peer.meta && us.tip in us.meta && TreeInv(p, us')
            && r == (if peer.meta[h].work <= us.meta[us.tip].work then Ok(false)
                     else if Agree(p, peer, us) then Ok(true) else Err(DuplicateTx))
            && (r.Err? ==> us' == us)
            && (r.Ok? ==>
                  && us'.genesis == us.genesis && us'.all == us.all[h := b]
                  && us.tip in us'.meta && us'.meta[us.tip] == us.meta[us.tip]
                  && us'.tip == (if r.value then h else us.tip))
  {
    hide NodeInv, CheckHeader, CheckGenesis, ApplyChain, Rooted, BlockWork, ActivePath, ActiveChain, ChainTo, Agree;
    var b := ActiveChain(p, peer)[k + 1];
    NextBlock(p, peer, k, b);
    AddBlockKeeps(p, us, b);
    HeaderAccepted(p, peer, us, k, b);
    ReplayDecides(p, peer, us, k, b);
  }

  lemma HeaderAccepted(p: Params, peer: BlockTree, us: BlockTree, k: nat, b: Blk)
    requires p.Valid() && TreeInv(p, peer) && TreeInv(p, us) && us.genesis == peer.genesis
    requires k + 1 < |ActivePath(p, peer)| && Knows(p, peer, us, k) && b == ActiveChain(p, peer)[k + 1]
    ensures b.header.prev in us.meta && us.genesis in us.meta
    ensures CheckHeader(p, us.meta, us.genesis, b).Ok?
  {
    hide TreeInv, ActivePath, ActiveChain, CheckHeader, BlockWork;
    NextBlock(p, peer, k, b);
    SameMetaAtGenesis(p, peer, us);
    SameWindow(p, peer, us, k, k, 11);
    HeaderRulesRead(p, peer.meta, us.meta, peer.genesis, b);
  }

  // The header rules read only the parent's metadata, its window and the first time.
  lemma HeaderRulesRead(p: Params, a: MetaMap, c: MetaMap, genesis: Hash, b: Blk)
    requires p.Valid() && b.header.prev in a && b.header.prev in c && genesis in a && genesis in c
    requires a[b.header.prev] == c[b.header.prev] && a[genesis] == c[genesis]
    requires Window(a, b.header.prev, 11) == Window(c, b.header.prev, 11)
    ensures CheckHeader(p, a, genesis, b) == CheckHeader(p, c, genesis, b)
  {
    hide ExpectedBits, CheckRoots, CheckPow, BlockSize, Median.MedianOf;
  }

  lemma {:induction false} SameWindow(p: Params, peer: BlockTree, us: BlockTree, k: nat, i: nat, n: nat)
    requires p.Valid() && TreeInv(p, peer) && TreeInv(p, us)
    requires i <= k < |ActivePath(p, peer)| && Knows(p, peer, us, k)
    ensures Window(us.meta, ActivePath(p, peer)[i], n) == Window(peer.meta, ActivePath(p, peer)[i], n)
    decreases n
  {
    hide TreeInv, ActivePath;
    var h := ActivePath(p, peer)[i];
    if n > 0 {
      LinkBelow(p, peer, i);
      if i > 0 {
        SameWindow(p, peer, us, k, i - 1, n - 1);
      }
    }
  }

  lemma LinkBelow(p: Params, t: BlockTree, i: nat)
    requires p.Valid() && TreeInv(p, t) && i < |ActivePath(p, t)|
    ensures ActivePath(p, t)[i] in t.meta
    ensures if i == 0 then t.meta[ActivePath(p, t)[i]].parent == Zero
            else t.meta[ActivePath(p, t)[i]].parent == ActivePath(p, t)[i - 1]
  {
    hide TreeInv, ActivePath;
    if i == 0 {
      PathStart(p, t);
    } else {
      NextLink(p, t, i - 1);
    }
  }

  // Our replay of the peer's chain up to its next block is the peer's own, unless one
  // of our copies is an imitation.
  lemma ReplayDecides(p: Params, peer: BlockTree, us: BlockTree, k: nat, b: Blk)
    requires p.Valid() && TreeInv(p, peer) && TreeInv(p, us) && us.genesis == peer.genesis
    requires k + 1 < |ActivePath(p, peer)| && Knows(p, peer, us, k) && b == ActiveChain(p, peer)[k + 1]
    requires forall i :: k < i < |ActivePath(p, peer)| ==> ActivePath(p, peer)[i] !in us.all
    ensures b.header.prev in us.meta && Rooted(us.meta) && us.all.Keys == us.meta.Keys
    ensures var replay := ApplyChain(p, ChainTo(us, b.header.prev) + [b]);
            if Agree(p, peer, us) then replay.Ok? else replay == Err(DuplicateTx)
  {
    hide TreeInv, ChainTo, ActivePath, ActiveChain, ApplyChain, CheckRoots, Agree, CheckHeader, BlockWork, Knows;
    var chain := ActiveChain(p, peer);
    NextBlock(p, peer, k, b);
    CopiedChain(p, peer, us, k);
    ActiveNumbered(p, peer);
    PrefixApplies(p, chain, k + 2);
    PrefixApplies(p, chain, k + 1);
    var ours := ChainTo(us, ActivePath(p, peer)[k]);
    CopyReplays(p, chain, ours, k + 1);
  }

  // Replaying a copy of a valid chain's start, with the chain's next block on top.
  lemma CopyReplays(p: Params, theirs: seq<Blk>, ours: seq<Blk>, n: nat)
    requires |ours| == n < |theirs| && ApplyChain(p, theirs[..n]).Ok? && ApplyChain(p, theirs[..n + 1]).Ok?
    requires forall i :: 0 <= i < n ==>
               theirs[i].header == ours[i].header && CheckRoots(theirs[i]).Ok? && CheckRoots(ours[i]).Ok?
    ensures var replay := ApplyChain(p, ours + [theirs[n]]);
            if ours == theirs[..n] then replay.Ok? else replay == Err(DuplicateTx)
  {
    hide ApplyChain, CheckRoots;
    OneLonger(theirs, n);
    assert ours[..n] == ours;
    ImitatedChainFails(p, theirs, ours, n);
    if ours != theirs[..n] {
      FailsBelow(p, ours, theirs[n]);
    }
  }

  lemma OneLonger<T>(s: seq<T>, n: nat)
    requires n < |s|
    ensures s[..n + 1] == s[..n] + [s[n]]
  {
  }

  lemma FailsBelow(p: Params, blocks: seq<Blk>, b: Blk)
    requires ApplyChain(p, blocks).Err?
    ensures ApplyChain(p, blocks + [b]) == ApplyChain(p, blocks)
  {
    hide ValidateBlock;
    assert (blocks + [b])[..|blocks|] == blocks;
  }

  // Our chain up to a known block of the peer's has the peer's headers and roots,
  // and is the peer's exactly when all our copies agree.
  lemma CopiedChain(p: Params, peer: BlockTree, us: BlockTree, k: nat)
    requires p.Valid() && TreeInv(p, peer) && TreeInv(p, us) && us.genesis == peer.genesis
    requires k < |ActivePath(p, peer)| && Knows(p, peer, us, k)
    requires forall i :: k < i < |ActivePath(p, peer)| ==> ActivePath(p, peer)[i] !in us.all
    ensures ActivePath(p, peer)[k] in us.meta && Rooted(us.meta) && us.all.Keys == us.meta.Keys
    ensures var ours, theirs := ChainTo(us, ActivePath(p, peer)[k]), ActiveChain(p, peer);
            && |ours| == k + 1 && |theirs| == |ActivePath(p, peer)|
            && (forall i :: 0 <= i <= k ==>
                  theirs[i].header == ours[i].header && CheckRoots(theirs[i]).Ok? && CheckRoots(ours[i]).Ok?)
            && (Agree(p, peer, us) <==> ours == theirs[..k + 1])
  {
    hide TreeInv, ApplyChain, ActivePath, ActiveChain, CheckRoots, ChainTo;
    var path := ActivePath(p, peer);
    TreeRooted(p, us);
    TreeRooted(p, peer);
    SharedPath(p, peer, us, k, k);
    ChainBlocks(us, path[k]);
    PathStored(p, peer);
    var ours, theirs := ChainTo(us, path[k]), ActiveChain(p, peer);
    forall i | 0 <= i <= k
      ensures path[i] in us.all && path[i] in peer.all && ours[i] == us.all[path[i]] && theirs[i] == peer.all[path[i]]
      ensures theirs[i].header == ours[i].header && CheckRoots(theirs[i]).Ok? && CheckRoots(ours[i]).Ok?
    {
      assert path[..k + 1][i] == path[i];
      StoredRoots(p, us, path[i]);
      StoredRoots(p, peer, path[i]);
    }
    if ours == theirs[..k + 1] {
      forall h | h in us.all && h in path
        ensures us.all[h] == peer.all[h]
      {
        var i :| 0 <= i < |path| && path[i] == h;
        assert i <= k;
        assert ours[i] == theirs[..k + 1][i];
      }
    }
  }

  lemma ChainBlocks(t: BlockTree, h: Hash)
    requires Rooted(t.meta) && t.all.Keys == t.meta.Keys && h in t.meta
    ensures |ChainTo(t, h)| == |PathTo(t.meta, h)|
    ensures forall i :: 0 <= i < |PathTo(t.meta, h)| ==>
              PathTo(t.meta, h)[i] in t.all && ChainTo(t, h)[i] == t.all[PathTo(t.meta, h)[i]]
  {
    assert forall i :: 0 <= i < |PathTo(t.meta, h)| ==> PathTo(t.meta, h)[i] in PathTo(t.meta, h);
  }

  lemma PathStored(p: Params, t: BlockTree)
    requires p.Valid() && TreeInv(p, t)
    ensures |ActiveChain(p, t)| == |ActivePath(p, t)|
    ensures forall i :: 0 <= i < |ActivePath(p, t)| ==>
              ActivePath(p, t)[i] in t.all && ActiveChain(p, t)[i] == t.all[ActivePath(p, t)[i]]
  {
    hide NodeInv, ApplyChain, Rooted;
  }

  // A stored block hashes to its key and carries its own roots.
  lemma StoredRoots(p: Params, t: BlockTree, h: Hash)
    requires p.Valid() && TreeInv(p, t) && h in t.all
    ensures h == BlockHash(t.all[h].header) && CheckRoots(t.all[h]).Ok?
  {
    hide ApplyChain, Rooted, BlockWork, CheckHeader, CheckGenesis, CheckRoots, BlockSize, Compact.BitsToTarget;
    assert NodeInv(p, t, h);
    if h == t.genesis {
      GenesisRoots(p, t.all[h]);
    } else {
      HeaderRoots(p, t, t.all[h]);
    }
  }

  lemma GenesisRoots(p: Params, b: Blk)
    requires p.Valid() && CheckGenesis(p, b).Ok?
    ensures CheckRoots(b).Ok?
  {
    hide CheckRoots, CheckPow, BlockSize;
  }

  lemma {:induction false} SharedPath(p: Params, peer: BlockTree, us: BlockTree, k: nat, i: nat)
    requires p.Valid() && TreeInv(p, peer) && TreeInv(p, us)
    requires i <= k < |ActivePath(p, peer)| && Knows(p, peer, us, k)
    ensures ActivePath(p, peer)[i] in us.meta && Rooted(us.meta)
    ensures PathTo(us.meta, ActivePath(p, peer)[i]) == ActivePath(p, peer)[..i + 1]
  {
    hide TreeInv, ActivePath;
    var path := ActivePath(p, peer);
    TreeRooted(p, us);
    LinkBelow(p, peer, i);
    if i > 0 {
      SharedPath(p, peer, us, k, i - 1);
      LinkBelow(p, peer, i - 1);
      NotZero(p, us, path[i - 1]);
      OneLonger(path, i);
    } else {
      OneLonger(path, 0);
    }
  }

  lemma TreeRooted(p: Params, t: BlockTree)
    requires p.Valid() && TreeInv(p, t)
    ensures Rooted(t.meta) && t.all.Keys == t.meta.Keys
  {
    hide NodeInv;
  }

  lemma NotZero(p: Params, t: BlockTree, h: Hash)
    requires p.Valid() && TreeInv(p, t) && h in t.meta
    ensures h != Zero
  {
    hide TreeInv;
    PrevNotZero(p, t, h);
  }

  // ----- stages of the exchange -----

  // We know the peer's chain up to height k and store nothing of it above.
  ghost predicate KnowsExactly(p: Params, peer: BlockTree, us: BlockTree, k: nat)
    requires p.Valid() && TreeInv(p, peer) && TreeInv(p, us) && k < |ActivePath(p, peer)|
  {
    && us.genesis == peer.genesis && Knows(p, peer, us, k)
    && forall i :: k < i < |ActivePath(p, peer)| ==> ActivePath(p, peer)[i] !in us.all
  }

  // The peer's block at height i outweighs our tip.
  ghost predicate Outweighs(p: Params, peer: BlockTree, i: nat, us: BlockTree)
    requires p.Valid() && TreeInv(p, peer) && TreeInv(p, us) && i < |ActivePath(p, peer)|
  {
    var h := ActivePath(p, peer)[i];
    h in peer.meta && us.tip in us.meta && peer.meta[h].work > us.meta[us.tip].work
  }

  // The last height the peer offers in answer to a locator: a round past the entry
  // it recognises, or its tip.
  function LastOffered(theirs: seq<Hash>, locator: seq<Hash>): nat {
    var start := StartHeight(theirs, locator);
    if start + BLOCKS_PER_ROUND < |theirs| then start + BLOCKS_PER_ROUND
    else if theirs == [] then 0 else |theirs| - 1
  }

  // Our chain is a prefix of the peer's, or the last block the peer offers us
  // outweighs our tip.
  ghost predicate RoundAdvances(p: Params, peer: BlockTree, us: BlockTree)
    requires p.Valid() && TreeInv(p, peer) && TreeInv(p, us)
  {
    var ours, theirs := ActivePath(p, us), ActivePath(p, peer);
    ours <= theirs
    || (LastOffered(theirs, Entries(ours)) < |theirs| && Outweighs(p, peer, LastOffered(theirs, Entries(ours)), us))
  }

  // The four stages of a round and the end, with k the height we know.

  ghost predicate Common(p: Params, peer: BlockTree, s: Exchange, k: nat)
    requires p.Valid() && TreeInv(p, peer)
  {
    k < |ActivePath(p, peer)| && TreeInv(p, s.us) && KnowsExactly(p, peer, s.us, k) && s.verdict.Fine?
  }

  ghost predicate Asking(p: Params, peer: BlockTree, s: Exchange, k: nat)
    requires p.Valid() && TreeInv(p, peer)
  {
    && Common(p, peer, s, k)
    && s.toPeer == [GetBlocks(Entries(ActivePath(p, s.us)))] && s.toUs == [] && s.requested == {}
  }

  ghost predicate Offered(p: Params, peer: BlockTree, s: Exchange, k: nat, lo: nat, hi: nat)
    requires p.Valid() && TreeInv(p, peer)
  {
    && Common(p, peer, s, k) && lo <= k && lo < hi < |ActivePath(p, peer)| && hi <= lo + BLOCKS_PER_ROUND
    && s.toPeer == [] && s.toUs == [Inv(ActivePath(p, peer)[lo + 1..hi + 1], [])] && s.requested == {}
  }

  ghost predicate Fetching(p: Params, peer: BlockTree, s: Exchange, k: nat, hi: nat)
    requires p.Valid() && TreeInv(p, peer)
  {
    && Common(p, peer, s, k) && k < hi < |ActivePath(p, peer)| && hi <= k + BLOCKS_PER_ROUND
    && s.toPeer == [GetData(ActivePath(p, peer)[k + 1..hi + 1], [])] && s.toUs == []
    && s.requested == Elements(ActivePath(p, peer)[k + 1..hi + 1])
  }

  ghost predicate Delivering(p: Params, peer: BlockTree, s: Exchange, k: nat, hi: nat)
    requires p.Valid() && TreeInv(p, peer)
  {
    && Common(p, peer, s, k) && k < hi < |ActivePath(p, peer)|
    && s.toPeer == [] && s.toUs == Bodies(ActiveChain(p, peer)[k + 1..hi + 1])
    && s.requested == Elements(ActivePath(p, peer)[k + 1..hi + 1])
  }

  ghost predicate Quiet(p: Params, peer: BlockTree, s: Exchange, k: nat)
    requires p.Valid() && TreeInv(p, peer)
  {
    Common(p, peer, s, k) && s.toPeer == [] && s.toUs == [] && s.requested == {}
  }

  function Bodies(blocks: seq<Blk>): seq<Message> {
    seq(|blocks|, i requires 0 <= i < |blocks| => BlockMsg(blocks[i]))
  }

  // ----- facts about paths -----

  lemma {:induction false} WorkRises(p: Params, t: BlockTree, i: nat, j: nat)
    requires p.Valid() && TreeInv(p, t) && i < j < |ActivePath(p, t)|
    ensures ActivePath(p, t)[i] in t.meta && ActivePath(p, t)[j] in t.meta
    ensures t.meta[ActivePath(p, t)[i]].work < t.meta[ActivePath(p, t)[j]].work
    decreases j
  {
    hide TreeInv, ActivePath, ActiveChain, BlockWork, CheckHeader;
    NextBlock(p, t, j - 1, ActiveChain(p, t)[j]);
    if i < j - 1 {
      WorkRises(p, t, i, j - 1);
    }
  }

  lemma PathDistinct(p: Params, t: BlockTree)
    requires p.Valid() && TreeInv(p, t)
    ensures DistinctHashes(ActivePath(p, t))
  {
    hide NodeInv, ApplyChain, PathTo;
    var path := ActivePath(p, t);
    forall i, j | 0 <= i < j < |path|
      ensures path[i] != path[j]
    {
      PathHeights(t.meta, t.tip, i, j);
    }
  }

  lemma TipLast(p: Params, t: BlockTree)
    requires p.Valid() && TreeInv(p, t)
    ensures ActivePath(p, t) != [] && ActivePath(p, t)[|ActivePath(p, t)| - 1] == t.tip && t.tip in t.meta
    ensures |ActivePath(p, t)| == |ActiveChain(p, t)|
  {
    hide NodeInv, ApplyChain, Rooted;
  }

  // Nothing of the peer's chain beyond our own tip is stored when ours is its prefix.
  lemma PrefixKnown(p: Params, peer: BlockTree, us: BlockTree, i: nat)
    requires p.Valid() && TreeInv(p, peer) && TreeInv(p, us) && us.genesis == peer.genesis
    requires i < |ActivePath(p, peer)| && ActivePath(p, peer)[i] in us.meta
    requires ActivePath(p, us) <= ActivePath(p, peer)
    ensures i < |ActivePath(p, us)|
  {
    hide TreeInv, ActivePath;
    var m := |ActivePath(p, us)| - 1;
    TipLast(p, us);
    KnownBelow(p, peer, us, i);
    if i > m {
      WorkRises(p, peer, m, i);
      KnownBelow(p, peer, us, m);
      TipHeaviest(p, us, ActivePath(p, peer)[i]);
    }
  }

  lemma TipHeaviest(p: Params, t: BlockTree, h: Hash)
    requires p.Valid() && TreeInv(p, t) && h in t.meta
    ensures t.tip in t.meta && t.meta[h].work <= t.meta[t.tip].work
  {
    hide NodeInv, ApplyChain, Rooted;
  }

  lemma {:induction false} StartListed(active: seq<Hash>, locator: seq<Hash>)
    requires exists h :: h in locator && h in active
    ensures StartHeight(active, locator) < |active| && active[StartHeight(active, locator)] in locator
  {
    if locator[0] !in active {
      StartListed(active, locator[1..]);
    }
  }

  lemma EntriesFrom(active: seq<Hash>)
    requires active != []
    ensures forall h :: h in Entries(active) ==> h in active
    ensures active[0] in Entries(active)
  {
    HeightsBelow(|active| - 1, 1, 0);
    Descends(|active| - 1, 1, 0);
    var hs := LocatorHeights(|active| - 1);
    assert Entries(active)[|hs| - 1] == active[0];
  }

  // The peer's answer starts at a block we know.
  lemma StartKnown(p: Params, peer: BlockTree, us: BlockTree, k: nat)
    requires p.Valid() && TreeInv(p, peer) && TreeInv(p, us) && k < |ActivePath(p, peer)| && KnowsExactly(p, peer, us, k)
    ensures StartHeight(ActivePath(p, peer), Entries(ActivePath(p, us))) <= k
  {
    hide TreeInv, ActivePath, Entries, StartHeight;
    var ours, theirs := ActivePath(p, us), ActivePath(p, peer);
    TipLast(p, us);
    EntriesFrom(ours);
    PathStart(p, us);
    PathStart(p, peer);
    TreeRooted(p, us);
    StartListed(theirs, Entries(ours));
    assert theirs[StartHeight(theirs, Entries(ours))] in ours;
  }

  // ----- the steps -----

  lemma AskingStep(p: Params, peer: BlockTree, s: Exchange, s': Exchange, k: nat)
    requires p.Valid() && TreeInv(p, peer) && TreeInv(p, s.us) && Asking(p, peer, s, k)
    requires s.toPeer != [] && s' == PeerStep(p, peer, s)
    ensures s'.us == s.us && ActivePath(p, s.us) != []
    ensures var path, locator := ActivePath(p, peer), Entries(ActivePath(p, s.us));
            var start, hi := StartHeight(path, locator), LastOffered(path, locator);
            start <= k && hi < |path| && if start == hi then k == hi && Quiet(p, peer, s', k) else Offered(p, peer, s', k, start, hi)
  {
    hide TreeInv, ActivePath, Entries, StartHeight, KnowsExactly;
    TipLast(p, s.us);
    TipLast(p, peer);
    StartKnown(p, peer, s.us, k);
    AnswerIs(ActivePath(p, peer), Entries(ActivePath(p, s.us)));
  }

  lemma AnswerIs(active: seq<Hash>, locator: seq<Hash>)
    requires StartHeight(active, locator) < |active|
    ensures var start, hi := StartHeight(active, locator), LastOffered(active, locator);
            OnGetBlocks(active, locator) == if start == hi then [] else [Inv(active[start + 1..hi + 1], [])]
  {
    assert active[..|active|] == active;
  }

  // When our chain is a prefix of the peer's we know exactly our own chain.
  lemma PrefixExact(p: Params, peer: BlockTree, us: BlockTree, k: nat)
    requires p.Valid() && TreeInv(p, peer) && TreeInv(p, us) && k < |ActivePath(p, peer)| && KnowsExactly(p, peer, us, k)
    requires ActivePath(p, us) <= ActivePath(p, peer)
    ensures k == |ActivePath(p, us)| - 1
  {
    hide TreeInv, ActivePath;
    TipLast(p, us);
    TreeRooted(p, us);
    PrefixKnown(p, peer, us, k);
    assert ActivePath(p, peer)[|ActivePath(p, us)| - 1] == us.tip;
  }

  lemma TipWork(p: Params, peer: BlockTree, us: BlockTree, k: nat)
    requires p.Valid() && TreeInv(p, peer) && TreeInv(p, us) && k < |ActivePath(p, peer)| && KnowsExactly(p, peer, us, k)
    requires ActivePath(p, us) <= ActivePath(p, peer) && k == |ActivePath(p, us)| - 1
    ensures us.tip in us.meta && ActivePath(p, peer)[k] == us.tip && us.tip in peer.meta
    ensures us.meta[us.tip].work == peer.meta[us.tip].work
  {
    hide TreeInv, ActivePath;
    TipLast(p, us);
    assert ActivePath(p, peer)[k] in ActivePath(p, peer);
  }

  lemma {:induction false} MissingIs(all: BlockMap, hs: seq<Hash>, k: nat)
    requires k <= |hs|
    requires forall i :: 0 <= i < |hs| ==> (hs[i] in all <==> i < k)
    ensures Missing(all, hs) == hs[k..]
  {
    if hs != [] {
      MissingIs(all, hs[1..], if k > 0 then k - 1 else 0);
    }
  }

  lemma {:induction false} NothingRequested(hs: seq<Hash>)
    ensures Unrequested(hs, {}) == hs
  {
    if hs != [] {
      NothingRequested(hs[1..]);
    }
  }

  // Everything offered and unknown is requested.
  lemma OfferedStep(p: Params, peer: BlockTree, s: Exchange, s': Exchange, k: nat, lo: nat, hi: nat)
    requires p.Valid() && TreeInv(p, peer) && TreeInv(p, s.us) && Offered(p, peer, s, k, lo, hi)
    requires s.toUs != [] && s' == OurStep(p, s)
    ensures s'.us == s.us
    ensures if k < hi then Fetching(p, peer, s', k, hi) else Quiet(p, peer, s', k)
  {
    hide TreeInv, ActivePath, ActiveChain, AddBlock, OnInv, KnowsExactly;
    OfferAnswered(p, peer, s.us, k, lo, hi);
  }

  lemma OfferAnswered(p: Params, peer: BlockTree, us: BlockTree, k: nat, lo: nat, hi: nat)
    requires p.Valid() && TreeInv(p, peer) && TreeInv(p, us) && lo <= k < |ActivePath(p, peer)| && lo < hi < |ActivePath(p, peer)|
    requires KnowsExactly(p, peer, us, k)
    ensures var path := ActivePath(p, peer);
            OnInv(us.all, {}, {}, path[lo + 1..hi + 1], [])
            == if k < hi then (Elements(path[k + 1..hi + 1]), [GetData(path[k + 1..hi + 1], [])]) else ({}, [])
  {
    hide TreeInv, ActivePath, Agree;
    var path := ActivePath(p, peer);
    var offered := path[lo + 1..hi + 1];
    var known := if k < hi then k - lo else hi - lo;
    TreeRooted(p, us);
    assert forall i :: 0 <= i < |offered| ==> (offered[i] in us.all <==> i < known);
    MissingIs(us.all, offered, known);
    NothingRequested(offered[known..]);
    WantedOnly(offered[known..]);
    if k < hi {
      assert offered[known..] == path[k + 1..hi + 1];
    } else {
      assert offered[known..] == [];
    }
  }

  lemma WantedOnly(want: seq<Hash>)
    ensures {} + Elements(want) == Elements(want)
    ensures want == [] ==> Elements(want) == {}
  {
  }

  lemma {:induction false} StoredAll(all: BlockMap, hs: seq<Hash>, blocks: seq<Blk>)
    requires |hs| == |blocks| && forall i :: 0 <= i < |hs| ==> hs[i] in all && all[hs[i]] == blocks[i]
    ensures Stored(all, hs) == Bodies(blocks)
  {
    if hs != [] {
      StoredAll(all, hs[1..], blocks[1..]);
      assert Bodies(blocks) == [BlockMsg(blocks[0])] + Bodies(blocks[1..]);
    }
  }

  lemma FetchingStep(p: Params, peer: BlockTree, s: Exchange, s': Exchange, k: nat, hi: nat)
    requires p.Valid() && TreeInv(p, peer) && Fetching(p, peer, s, k, hi)
    requires s.toPeer != [] && s' == PeerStep(p, peer, s)
    ensures s'.us == s.us && Delivering(p, peer, s', k, hi)
  {
    hide TreeInv, ActivePath, ActiveChain, OnGetData, KnowsExactly, PeerStep, Elements, Bodies;
    RequestServed(p, peer, k, hi);
    PeerServes(p, peer, s, ActivePath(p, peer)[k + 1..hi + 1], Bodies(ActiveChain(p, peer)[k + 1..hi + 1]));
  }

  lemma PeerServes(p: Params, peer: BlockTree, s: Exchange, blocks: seq<Hash>, reply: seq<Message>)
    requires p.Valid() && TreeInv(p, peer)
    requires s.toPeer == [GetData(blocks, [])] && OnGetData(peer.all, map[], blocks, []) == Some(reply)
    ensures PeerStep(p, peer, s) == s.(toPeer := [], toUs := s.toUs + reply)
  {
    hide TreeInv, OnGetData;
  }

  lemma RequestServed(p: Params, peer: BlockTree, k: nat, hi: nat)
    requires p.Valid() && TreeInv(p, peer) && k < hi < |ActivePath(p, peer)| && hi <= k + BLOCKS_PER_ROUND
    ensures OnGetData(peer.all, map[], ActivePath(p, peer)[k + 1..hi + 1], [])
            == Some(Bodies(ActiveChain(p, peer)[k + 1..hi + 1]))
  {
    hide TreeInv, ActivePath, ActiveChain;
    TreeRooted(p, peer);
    StoredAll(peer.all, ActivePath(p, peer)[k + 1..hi + 1], ActiveChain(p, peer)[k + 1..hi + 1]);
    assert Bodies(ActiveChain(p, peer)[k + 1..hi + 1]) + [] == Bodies(ActiveChain(p, peer)[k + 1..hi + 1]);
  }

  // One block of the batch.
  lemma Delivered(p: Params, peer: BlockTree, us: BlockTree, k: nat)
    requires p.Valid() && TreeInv(p, peer) && TreeInv(p, us) && k + 1 < |ActivePath(p, peer)| && KnowsExactly(p, peer, us, k)
    ensures var (us', r) := AddBlock(p, us, ActiveChain(p, peer)[k + 1]);
            && TreeInv(p, us') && us.tip in us.meta
            && r == (if !Outweighs(p, peer, k + 1, us) then Ok(false)
                     else if Agree(p, peer, us) then Ok(true) else Err(DuplicateTx))
            && (r.Err? ==> us' == us)
            && (r.Ok? ==>
                  && KnowsExactly(p, peer, us', k + 1) && (Agree(p, peer, us') <==> Agree(p, peer, us))
                  && us.tip in us'.meta && us'.meta[us.tip] == us.meta[us.tip]
                  && us'.tip == if r.value then ActivePath(p, peer)[k + 1] else us.tip)
  {
    hide TreeInv, ActivePath, ActiveChain, AddBlock, CheckHeader;
    var b, path := ActiveChain(p, peer)[k + 1], ActivePath(p, peer);
    DeliverNext(p, peer, us, k);
    var (us', r) := AddBlock(p, us, b);
    PathStored(p, peer);
    PathDistinct(p, peer);
    if r.Ok? {
      TreeRooted(p, us');
      KnownBelow(p, peer, us', k + 1);
      OneMoreCopy(p, peer, us, us', k + 1);
    }
  }

  // Storing one of the peer's own blocks changes nothing about the other copies.
  lemma OneMoreCopy(p: Params, peer: BlockTree, us: BlockTree, us': BlockTree, k: nat)
    requires p.Valid() && TreeInv(p, peer) && us'.genesis == us.genesis && k < |ActivePath(p, peer)|
    requires var h := ActivePath(p, peer)[k]; h !in us.all && h in peer.all && us'.all == us.all[h := peer.all[h]]
    ensures Agree(p, peer, us') <==> Agree(p, peer, us)
  {
    hide TreeInv, ActivePath;
    var h := ActivePath(p, peer)[k];
    assert forall x :: x in us.all ==> x != h && x in us'.all && us'.all[x] == us.all[x];
  }

  lemma DeliveringStep(p: Params, peer: BlockTree, s: Exchange, s': Exchange, k: nat, hi: nat)
    requires p.Valid() && TreeInv(p, peer) && TreeInv(p, s.us) && Delivering(p, peer, s, k, hi)
    requires s.toUs != [] && s' == OurStep(p, s)
    ensures s'.us == AddBlock(p, s.us, ActiveChain(p, peer)[k + 1]).0
    ensures if Outweighs(p, peer, k + 1, s.us) && !Agree(p, peer, s.us)
            then s'.us == s.us && s'.verdict == Punish(DuplicateTx)
            else if k + 1 < hi then Delivering(p, peer, s', k + 1, hi)
            else Asking(p, peer, s', k + 1)
  {
    hide TreeInv, ActivePath, ActiveChain, AddBlock, KnowsExactly, Entries, PeerStep, OurStep, AfterBlock, Elements, Bodies, Outweighs, Agree;
    HeadOfBatch(p, peer, s, k, hi);
    Delivered(p, peer, s.us, k);
    if AddBlock(p, s.us, ActiveChain(p, peer)[k + 1]).1.Ok? {
      WeAccept(p, s, ActiveChain(p, peer)[k + 1]);
    } else {
      WeRefuse(p, s, ActiveChain(p, peer)[k + 1]);
    }
  }

  // The oldest message carries the next block, and the rest is the rest.
  lemma HeadOfBatch(p: Params, peer: BlockTree, s: Exchange, k: nat, hi: nat)
    requires p.Valid() && TreeInv(p, peer) && Delivering(p, peer, s, k, hi)
    ensures var path, chain := ActivePath(p, peer), ActiveChain(p, peer);
            && s.toUs != [] && s.toUs[0] == BlockMsg(chain[k + 1])
            && s.toUs[1..] == Bodies(chain[k + 2..hi + 1])
            && s.requested - {BlockHash(chain[k + 1].header)} == Elements(path[k + 2..hi + 1])
            && (k + 1 < hi <==> Elements(path[k + 2..hi + 1]) != {})
            && (k + 1 == hi ==> s.toUs[1..] == [])
  {
    hide TreeInv, ActivePath, ActiveChain, KnowsExactly, Elements, Bodies, CheckHeader, BlockWork;
    NextBlock(p, peer, k, ActiveChain(p, peer)[k + 1]);
    PathDistinct(p, peer);
    BodiesSplit(ActiveChain(p, peer), k + 1, hi + 1);
    RequestedLess(ActivePath(p, peer), k, hi);
  }

  // An accepted block, handled with the outcome of adding it.
  lemma WeAccept(p: Params, s: Exchange, b: Blk)
    requires p.Valid() && TreeInv(p, s.us) && s.toUs != [] && s.toUs[0] == BlockMsg(b)
    requires AddBlock(p, s.us, b).1.Ok? && s.verdict.Fine?
    ensures var us, requested := AddBlock(p, s.us, b).0, s.requested - {BlockHash(b.header)};
            && TreeInv(p, us) && ActivePath(p, us) != []
            && OurStep(p, s) == Exchange(us, requested,
                                         s.toPeer + (if requested == {} then [GetBlocks(Entries(ActivePath(p, us)))] else []),
                                         s.toUs[1..], Fine)
  {
    hide TreeInv, ActivePath, AddBlock, Entries;
    AddBlockKeeps(p, s.us, b);
    TipLast(p, AddBlock(p, s.us, b).0);
  }

  // A block that breaks a rule, handled with the outcome of adding it.
  lemma WeRefuse(p: Params, s: Exchange, b: Blk)
    requires p.Valid() && TreeInv(p, s.us) && s.toUs != [] && s.toUs[0] == BlockMsg(b) && s.verdict.Fine?
    requires AddBlock(p, s.us, b).1 == Err(DuplicateTx) && AddBlock(p, s.us, b).0 == s.us
    ensures OurStep(p, s).us == s.us && OurStep(p, s).verdict == Punish(DuplicateTx)
  {
    hide TreeInv, ActivePath, AddBlock, Entries;
    TipLast(p, s.us);
  }

  lemma BodiesSplit(blocks: seq<Blk>, i: nat, j: nat)
    requires i < j <= |blocks|
    ensures Bodies(blocks[i..j]) == [BlockMsg(blocks[i])] + Bodies(blocks[i + 1..j])
    ensures Bodies(blocks[j..j]) == []
  {
  }

  lemma RequestedLess(path: seq<Hash>, k: nat, hi: nat)
    requires DistinctHashes(path) && k < hi < |path|
    ensures Elements(path[k + 1..hi + 1]) - {path[k + 1]} == Elements(path[k + 2..hi + 1])
    ensures k + 1 < hi <==> Elements(path[k + 2..hi + 1]) != {}
  {
    assert path[k + 1..hi + 1] == [path[k + 1]] + path[k + 2..hi + 1];
    if k + 1 < hi {
      assert path[k + 2..hi + 1][0] in Elements(path[k + 2..hi + 1]);
    }
  }
}
