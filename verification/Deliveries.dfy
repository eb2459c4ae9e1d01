// A block of an honest peer's chain may come at any time: what becomes of it, whether
// it is stored already, has no stored parent, or is the next one.
module Deliveries {
  import opened Prelude
  import opened Tx
  import opened Ledger
  import opened Tree
  import opened TreeProofs
  import opened Reload
  import opened Locator
  import opened Chain
  import opened Sync

  // The one thing we ask for: what follows the chain we are on.
  ghost function Ask(p: Params, us: BlockTree): Message
    requires p.Valid() && TreeInv(p, us)
  {
    TipLast(p, us);
    GetBlocks(Entries(ActivePath(p, us)))
  }

  // What is stored of the peer's chain is a prefix of it.
  lemma StoredPrefix(p: Params, peer: BlockTree, us: BlockTree, i: nat)
    requires p.Valid() && TreeInv(p, peer) && TreeInv(p, us) && us.genesis == peer.genesis
    requires i < |ActivePath(p, peer)| && ActivePath(p, peer)[i] !in us.all
    ensures forall j :: i <= j < |ActivePath(p, peer)| ==> ActivePath(p, peer)[j] !in us.all
    ensures i > 0
    ensures ActivePath(p, peer)[i - 1] in us.all ==> KnowsExactly(p, peer, us, i - 1)
  {
    hide TreeInv, ActivePath;
    TreeRooted(p, us);
    PathStart(p, peer);
    SameMetaAtGenesis(p, peer, us);
    forall j | i <= j < |ActivePath(p, peer)|
      ensures ActivePath(p, peer)[j] !in us.all
    {
      if ActivePath(p, peer)[j] in us.all {
        KnownBelow(p, peer, us, j);
      }
    }
    if ActivePath(p, peer)[i - 1] in us.all {
      KnownBelow(p, peer, us, i - 1);
    }
  }

  // A block of the peer's chain, at any height: stored, orphaned, or next in line.
  lemma AnyBlock(p: Params, peer: BlockTree, us: BlockTree, i: nat)
    requires p.Valid() && TreeInv(p, peer) && TreeInv(p, us) && us.genesis == peer.genesis && i < |ActivePath(p, peer)|
    ensures var b, h := ActiveChain(p, peer)[i], ActivePath(p, peer)[i];
            var (us', r) := AddBlock(p, us, b);
            && h == BlockHash(b.header) && TreeInv(p, us')
            && (r.Err? ==> us' == us)
            && (h in us.all ==> r == Err(Duplicate))
            && (h !in us.all ==> i > 0)
            && (h !in us.all && ActivePath(p, peer)[i - 1] !in us.all ==> r == Err(UnknownParent))
            && (h !in us.all && ActivePath(p, peer)[i - 1] in us.all ==>
                  && r == (if !Outweighs(p, peer, i, us) then Ok(false)
                           else if Agree(p, peer, us) then Ok(true) else Err(DuplicateTx))
                  && (r.Ok? ==> KnowsExactly(p, peer, us', i) && us'.all == us.all[h := b]
                                && us'.tip == if r.value then h else us.tip))
  {
    hide TreeInv, ActivePath, ActiveChain, KnowsExactly, Outweighs, Agree, CheckHeader, ApplyChain;
    var b, h := ActiveChain(p, peer)[i], ActivePath(p, peer)[i];
    TreeRooted(p, us);
    PathStored(p, peer);
    TreeRooted(p, peer);
    StoredRoots(p, peer, h);
    AddBlockKeeps(p, us, b);
    TipHeld(p, us);
    if h !in us.all {
      StoredPrefix(p, peer, us, i);
      NextBlock(p, peer, i - 1, b);
      if ActivePath(p, peer)[i - 1] in us.all {
        Known(p, peer, us, i - 1);
        Delivered(p, peer, us, i - 1);
        DeliverNext(p, peer, us, i - 1);
      }
    }
  }

  lemma TipHeld(p: Params, t: BlockTree)
    requires p.Valid() && TreeInv(p, t)
    ensures t.tip in t.meta && t.genesis in t.meta && Rooted(t.meta) && t.all.Keys == t.meta.Keys
  {
    hide NodeInv, ApplyChain, Rooted;
  }

  lemma Known(p: Params, peer: BlockTree, us: BlockTree, k: nat)
    requires p.Valid() && TreeInv(p, peer) && TreeInv(p, us) && k < |ActivePath(p, peer)| && KnowsExactly(p, peer, us, k)
    ensures us.genesis == peer.genesis && Knows(p, peer, us, k)
    ensures forall i :: k < i < |ActivePath(p, peer)| ==> ActivePath(p, peer)[i] !in us.all
  {
    hide TreeInv, ActivePath, Knows;
  }

  // Handling a block of the peer's chain, whatever else is under way: one we hold is
  // passed over, an orphan draws a request that carries our locator, the next one is
  // stored and, once nothing more is awaited, draws that request too.  The peer is
  // punished exactly when the block outweighs our tip on top of a copy of its chain
  // that repeats a transaction, and never for a block sent twice.
  lemma HonestDelivery(p: Params, peer: BlockTree, s: Exchange, i: nat)
    requires p.Valid() && TreeInv(p, peer) && TreeInv(p, s.us) && s.us.genesis == peer.genesis
    requires i < |ActivePath(p, peer)| && s.verdict.Fine?
    requires s.toUs != [] && s.toUs[0] == BlockMsg(ActiveChain(p, peer)[i])
    ensures var b, h, s' := ActiveChain(p, peer)[i], ActivePath(p, peer)[i], OurStep(p, s);
            var left, rest := s.requested - {h}, s.toUs[1..];
            && TreeInv(p, s'.us)
            && s'.verdict != Punish(Duplicate)
            && if h in s.us.all then s' == Exchange(s.us, left, s.toPeer, rest, Fine)
               else
                 && i > 0
                 && if ActivePath(p, peer)[i - 1] !in s.us.all
                    then s' == Exchange(s.us, {}, s.toPeer + [Ask(p, s.us)], rest, Orphan)
                    else if Outweighs(p, peer, i, s.us) && !Agree(p, peer, s.us)
                    then s' == Exchange(s.us, left, s.toPeer, rest, Punish(DuplicateTx))
                    else
                      && s' == Exchange(s'.us, left, s.toPeer + (if left == {} then [Ask(p, s'.us)] else []), rest, Fine)
                      && s'.us.all == s.us.all[h := b]
                      && s'.us.tip == (if Outweighs(p, peer, i, s.us) then h else s.us.tip)
  {
    hide TreeInv, ActivePath, ActiveChain, AddBlock, Outweighs, Agree, KnowsExactly, Entries;
    var b := ActiveChain(p, peer)[i];
    AnyBlock(p, peer, s.us, i);
    TipLast(p, s.us);
    TipLast(p, AddBlock(p, s.us, b).0);
  }

  // ----- announced transactions -----

  // What is asked for is what was announced and is not there, as often and in that order.
  lemma {:induction false} UnrequestedMeaning(hs: seq<Hash>, held: set<Hash>, h: Hash)
    ensures multiset(Unrequested(hs, held))[h] == if h in held then 0 else multiset(hs)[h]
  {
    if hs != [] {
      UnrequestedMeaning(hs[1..], held, h);
      assert hs == [hs[0]] + hs[1..];
    }
  }

  lemma {:induction false} MissingMeaning(all: BlockMap, hs: seq<Hash>, h: Hash)
    ensures multiset(Missing(all, hs))[h] == if h in all then 0 else multiset(hs)[h]
  {
    if hs != [] {
      MissingMeaning(all, hs[1..], h);
      assert hs == [hs[0]] + hs[1..];
    }
  }

  // An announcement draws one request, for exactly the blocks that are neither stored
  // nor requested and the transactions that are not pooled, or none at all; the blocks
  // asked for are what is requested from then on.
  lemma AnnouncementAnswered(all: BlockMap, pooled: set<Hash>, requested: set<Hash>, blocks: seq<Hash>, txs: seq<Hash>)
    returns (wantBlocks: seq<Hash>, wantTxs: seq<Hash>)
    ensures OnInv(all, pooled, requested, blocks, txs).1
            == if wantBlocks == [] && wantTxs == [] then [] else [GetData(wantBlocks, wantTxs)]
    ensures forall h :: multiset(wantBlocks)[h] == if h in all || h in requested then 0 else multiset(blocks)[h]
    ensures forall h :: multiset(wantTxs)[h] == if h in pooled then 0 else multiset(txs)[h]
    ensures forall h :: h in OnInv(all, pooled, requested, blocks, txs).0 <==> h in requested || h in wantBlocks
  {
    wantBlocks, wantTxs := Unrequested(Missing(all, blocks), requested), Unrequested(txs, pooled);
    forall h
      ensures multiset(wantBlocks)[h] == if h in all || h in requested then 0 else multiset(blocks)[h]
      ensures multiset(wantTxs)[h] == if h in pooled then 0 else multiset(txs)[h]
    {
      UnrequestedMeaning(Missing(all, blocks), requested, h);
      MissingMeaning(all, blocks, h);
      UnrequestedMeaning(txs, pooled, h);
    }
  }

  lemma {:induction false} PooledAll(pool: map<Hash, Txn>, hs: seq<Hash>)
    requires forall h :: h in hs ==> h in pool
    ensures |Pooled(pool, hs)| == |hs|
    ensures forall i :: 0 <= i < |hs| ==> Pooled(pool, hs)[i] == TxMsg(pool[hs[i]])
  {
    if hs != [] {
      PooledAll(pool, hs[1..]);
    }
  }

  // Transactions relayed end to end: what a node announces out of its pool, another
  // asks for as far as it lacks it, and is sent exactly that, in order.
  lemma RelayDelivers(ours: map<Hash, Txn>, all: BlockMap, theirs: set<Hash>, requested: set<Hash>, stored: BlockMap, ids: seq<Hash>)
    requires |ids| <= 2000 && forall id :: id in ids ==> id in ours
    requires exists id :: id in ids && id !in theirs
    ensures var (requested', out) := OnInv(all, theirs, requested, [], ids);
            && requested' == requested
            && |out| == 1 && out[0].GetData? && out[0].blocks == []
            && (forall id :: id in out[0].txs <==> id in ids && id !in theirs)
            && var reply := OnGetData(stored, ours, [], out[0].txs);
               && reply.Some? && |reply.value| == |out[0].txs|
               && forall i :: 0 <= i < |out[0].txs| ==>
                    out[0].txs[i] in ours && reply.value[i] == TxMsg(ours[out[0].txs[i]])
  {
    hide Pooled;
    var want := Unrequested(ids, theirs);
    forall id
      ensures id in want <==> id in ids && id !in theirs
    {
      UnrequestedMeaning(ids, theirs, id);
    }
    UnrequestedFewer(ids, theirs);
    PooledAll(ours, want);
    assert [] + Pooled(ours, want) == Pooled(ours, want);
    assert Elements([]) == {};
  }

  lemma {:induction false} UnrequestedFewer(hs: seq<Hash>, held: set<Hash>)
    ensures |Unrequested(hs, held)| <= |hs|
  {
    if hs != [] {
      UnrequestedFewer(hs[1..], held);
    }
  }
}
