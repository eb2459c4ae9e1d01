// Whole runs of the exchange: when block sync ends with equal tips, and when it
// stalls.
module SyncRuns {
  import opened Prelude
  import opened Tx
  import opened Ledger
  import opened Conservation
  import opened Tree
  import opened TreeProofs
  import opened Reload
  import opened Repeats
  import opened Locator
  import opened Chain
  import opened Sync

  // ----- what a delivered block does to our tip -----

  lemma StillOutweighed(p: Params, peer: BlockTree, us: BlockTree, k: nat, hi: nat)
    requires p.Valid() && TreeInv(p, peer) && TreeInv(p, us) && k + 1 < hi < |ActivePath(p, peer)| && KnowsExactly(p, peer, us, k)
    requires Outweighs(p, peer, hi, us) && Agree(p, peer, us)
    ensures var us' := AddBlock(p, us, ActiveChain(p, peer)[k + 1]).0;
            TreeInv(p, us') && Agree(p, peer, us') && Outweighs(p, peer, hi, us')
  {
    hide TreeInv, ActivePath, ActiveChain, AddBlock, Agree;
    Delivered(p, peer, us, k);
    WorkRises(p, peer, k + 1, hi);
    TreeRooted(p, AddBlock(p, us, ActiveChain(p, peer)[k + 1]).0);
  }

  // The last block of a round that outweighs our tip becomes the tip, and then our
  // chain is the peer's up to there.
  lemma LastOfRound(p: Params, peer: BlockTree, us: BlockTree, k: nat)
    requires p.Valid() && TreeInv(p, peer) && TreeInv(p, us) && k + 1 < |ActivePath(p, peer)| && KnowsExactly(p, peer, us, k)
    requires Outweighs(p, peer, k + 1, us) && Agree(p, peer, us)
    ensures var us' := AddBlock(p, us, ActiveChain(p, peer)[k + 1]).0;
            TreeInv(p, us') && Agree(p, peer, us') && RoundAdvances(p, peer, us')
  {
    hide TreeInv, ActivePath, ActiveChain, AddBlock, KnowsExactly, RoundAdvances, Agree;
    Delivered(p, peer, us, k);
    TipOnPath(p, peer, AddBlock(p, us, ActiveChain(p, peer)[k + 1]).0, k + 1);
  }

  lemma TipOnPath(p: Params, peer: BlockTree, us: BlockTree, k: nat)
    requires p.Valid() && TreeInv(p, peer) && TreeInv(p, us) && k < |ActivePath(p, peer)| && KnowsExactly(p, peer, us, k)
    requires us.tip == ActivePath(p, peer)[k]
    ensures RoundAdvances(p, peer, us)
  {
    hide TreeInv, Agree, Outweighs, LastOffered;
    SharedPath(p, peer, us, k, k);
  }

  // A block no heavier than our tip leaves our active path alone.
  lemma StillHeavier(p: Params, peer: BlockTree, us: BlockTree, k: nat, hi: nat)
    requires p.Valid() && TreeInv(p, peer) && TreeInv(p, us) && k + 1 <= hi < |ActivePath(p, peer)| && KnowsExactly(p, peer, us, k)
    requires !Outweighs(p, peer, hi, us)
    ensures var us' := AddBlock(p, us, ActiveChain(p, peer)[k + 1]).0;
            TreeInv(p, us') && us'.tip == us.tip && ActivePath(p, us') == ActivePath(p, us) && !Outweighs(p, peer, hi, us')
    ensures !Outweighs(p, peer, k + 1, us)
  {
    hide TreeInv, ActivePath, ActiveChain, AddBlock, KnowsExactly, PathTo, ChainTo;
    var b := ActiveChain(p, peer)[k + 1];
    Delivered(p, peer, us, k);
    TreeRooted(p, peer);
    TipLast(p, us);
    if k + 1 < hi {
      WorkRises(p, peer, k + 1, hi);
    }
    OnPath(p, peer, hi);
    OnPath(p, peer, k + 1);
    HeaviestTip(p, us, b);
    ActiveAfter(p, us, b);
  }

  lemma OnPath(p: Params, t: BlockTree, i: nat)
    requires p.Valid() && TreeInv(p, t) && i < |ActivePath(p, t)|
    ensures ActivePath(p, t)[i] in t.meta
  {
    hide TreeInv, ActivePath;
    LinkBelow(p, t, i);
  }

  // What outweighs our tip is not stored.
  lemma HeavierUnknown(p: Params, peer: BlockTree, us: BlockTree, k: nat, hi: nat)
    requires p.Valid() && TreeInv(p, peer) && TreeInv(p, us) && k < |ActivePath(p, peer)| && hi < |ActivePath(p, peer)|
    requires KnowsExactly(p, peer, us, k) && Outweighs(p, peer, hi, us)
    ensures k < hi
  {
    hide TreeInv, ActivePath;
    if hi <= k {
      TipHeaviest(p, us, ActivePath(p, peer)[hi]);
    }
  }

  // An advancing round has something to offer, or nothing is missing.
  lemma RoundEnd(p: Params, peer: BlockTree, us: BlockTree, k: nat)
    requires p.Valid() && TreeInv(p, peer) && TreeInv(p, us) && k < |ActivePath(p, peer)|
    requires KnowsExactly(p, peer, us, k) && RoundAdvances(p, peer, us)
    ensures ActivePath(p, us) != []
    ensures var path, locator := ActivePath(p, peer), Entries(ActivePath(p, us));
            var start, hi := StartHeight(path, locator), LastOffered(path, locator);
            hi < |path| && if start == hi then k == hi && us.tip == peer.tip else k < hi && Outweighs(p, peer, hi, us)
  {
    hide TreeInv, ActivePath, Entries, StartHeight, KnowsExactly, Outweighs;
    var ours, theirs := ActivePath(p, us), ActivePath(p, peer);
    TipLast(p, us);
    TipLast(p, peer);
    StartKnown(p, peer, us, k);
    var start, hi := StartHeight(theirs, Entries(ours)), LastOffered(theirs, Entries(ours));
    if ours <= theirs {
      PathDistinct(p, peer);
      StartAtOurTip(ours, theirs);
      PrefixExact(p, peer, us, k);
      if start < hi {
        PrefixOutweighed(p, peer, us, k, hi);
      }
    } else {
      HeavierUnknown(p, peer, us, k, hi);
    }
  }

  lemma PrefixOutweighed(p: Params, peer: BlockTree, us: BlockTree, k: nat, hi: nat)
    requires p.Valid() && TreeInv(p, peer) && TreeInv(p, us) && k < hi < |ActivePath(p, peer)| && KnowsExactly(p, peer, us, k)
    requires ActivePath(p, us) <= ActivePath(p, peer) && k == |ActivePath(p, us)| - 1
    ensures Outweighs(p, peer, hi, us)
  {
    hide TreeInv, ActivePath, KnowsExactly;
    TipWork(p, peer, us, k);
    WorkRises(p, peer, k, hi);
  }

  // ----- an exchange that advances -----

  ghost predicate SyncingAt(p: Params, peer: BlockTree, s: Exchange, k: nat, n: int)
    requires p.Valid() && TreeInv(p, peer)
  {
    var missing := |ActivePath(p, peer)| - 1 - k;
    && TreeInv(p, s.us) && Agree(p, peer, s.us)
    && (|| (Asking(p, peer, s, k) && RoundAdvances(p, peer, s.us) && n == 4 * missing + 1)
        || (n == 4 * missing && exists lo: nat, hi: nat :: k < hi && Offered(p, peer, s, k, lo, hi) && Outweighs(p, peer, hi, s.us))
        || (n == 4 * missing - 1 && exists hi: nat :: Fetching(p, peer, s, k, hi) && Outweighs(p, peer, hi, s.us))
        || (n == 4 * missing - 2 && exists hi: nat :: Delivering(p, peer, s, k, hi) && Outweighs(p, peer, hi, s.us))
        || (Quiet(p, peer, s, k) && s.us.tip == peer.tip && n == 0))
  }

  // At most n messages are still to be handled.
  ghost predicate Syncing(p: Params, peer: BlockTree, s: Exchange, n: int)
    requires p.Valid() && TreeInv(p, peer)
  {
    exists k: nat :: SyncingAt(p, peer, s, k, n)
  }

  lemma Waiting(p: Params, peer: BlockTree, s: Exchange, k: nat, n: int)
    requires p.Valid() && TreeInv(p, peer) && SyncingAt(p, peer, s, k, n)
    ensures TreeInv(p, s.us) && s.verdict.Fine? && n >= 0 && (s.toPeer == [] || s.toUs == [])
    ensures s.toPeer == [] && s.toUs == [] ==> s.us.tip == peer.tip
  {
    hide TreeInv, ActivePath, ActiveChain, KnowsExactly, Outweighs, RoundAdvances, Elements, Entries, Agree;
  }

  lemma PeerMoves(p: Params, peer: BlockTree, s: Exchange, k: nat, n: int) returns (n': int)
    requires p.Valid() && TreeInv(p, peer) && SyncingAt(p, peer, s, k, n) && s.toPeer != []
    ensures n' < n && SyncingAt(p, peer, PeerStep(p, peer, s), k, n')
  {
    hide TreeInv, ActivePath, ActiveChain, KnowsExactly, Outweighs, RoundAdvances, PeerStep, Elements, Bodies, Entries, LastOffered, StartHeight, Agree;
    var s' := PeerStep(p, peer, s);
    if Asking(p, peer, s, k) {
      RoundEnd(p, peer, s.us, k);
      AskingStep(p, peer, s, s', k);
      return if Quiet(p, peer, s', k) then 0 else n - 1;
    }
    var hi: nat :| Fetching(p, peer, s, k, hi) && Outweighs(p, peer, hi, s.us);
    FetchingStep(p, peer, s, s', k, hi);
    return n - 1;
  }

  lemma WeMove(p: Params, peer: BlockTree, s: Exchange, k: nat, n: int) returns (k': nat, n': int)
    requires p.Valid() && TreeInv(p, peer) && SyncingAt(p, peer, s, k, n) && s.toUs != [] && TreeInv(p, s.us)
    ensures n' < n && SyncingAt(p, peer, OurStep(p, s), k', n')
  {
    hide TreeInv, ActivePath, ActiveChain, AddBlock, KnowsExactly, Outweighs, RoundAdvances, OurStep, Elements, Bodies, Entries, Agree;
    var s' := OurStep(p, s);
    if n == 4 * (|ActivePath(p, peer)| - 1 - k) {
      var lo: nat, hi: nat :| k < hi && Offered(p, peer, s, k, lo, hi) && Outweighs(p, peer, hi, s.us);
      OfferedStep(p, peer, s, s', k, lo, hi);
      return k, n - 1;
    }
    var hi: nat :| Delivering(p, peer, s, k, hi) && Outweighs(p, peer, hi, s.us);
    DeliveringStep(p, peer, s, s', k, hi);
    if k + 1 < hi {
      StillOutweighed(p, peer, s.us, k, hi);
      return k + 1, n - 4;
    }
    LastOfRound(p, peer, s.us, k);
    return k + 1, n - 1;
  }

  // While such an exchange is under way some message waits, whichever node handles
  // its own moves it on, no block is an orphan or invalid, and the messages still
  // to be handled grow fewer; when none waits the tips are equal.
  lemma StepAdvances(p: Params, peer: BlockTree, s: Exchange, n: int)
    requires p.Valid() && TreeInv(p, peer) && Syncing(p, peer, s, n)
    ensures TreeInv(p, s.us) && s.verdict.Fine? && n >= 0
    ensures s.toPeer == [] && s.toUs == [] ==> s.us.tip == peer.tip
    ensures s.toPeer != [] ==> exists n' :: n' < n && Syncing(p, peer, PeerStep(p, peer, s), n')
    ensures s.toUs != [] ==> exists n' :: n' < n && Syncing(p, peer, OurStep(p, s), n')
  {
    hide TreeInv, ActivePath, SyncingAt, PeerStep, OurStep;
    var k: nat :| SyncingAt(p, peer, s, k, n);
    Waiting(p, peer, s, k, n);
    if s.toPeer != [] {
      var n' := PeerMoves(p, peer, s, k, n);
      assert Syncing(p, peer, PeerStep(p, peer, s), n');
    } else if s.toUs != [] {
      var k', n' := WeMove(p, peer, s, k, n);
      assert Syncing(p, peer, OurStep(p, s), n');
    }
  }

  // Either node handles its oldest message; a punished peer is dropped.
  ghost predicate Step(p: Params, peer: BlockTree, s: Exchange, s': Exchange)
    requires p.Valid() && TreeInv(p, peer)
  {
    && TreeInv(p, s.us) && !s.verdict.Punish?
    && ((s.toPeer != [] && s' == PeerStep(p, peer, s)) || (s.toUs != [] && s' == OurStep(p, s)))
  }

  // No step is left.
  predicate Over(s: Exchange) {
    s.verdict.Punish? || (s.toPeer == [] && s.toUs == [])
  }

  // A run of the exchange, handled in any order.
  ghost predicate Trace(p: Params, peer: BlockTree, ss: seq<Exchange>)
    requires p.Valid() && TreeInv(p, peer)
  {
    ss != [] && forall i :: 0 <= i < |ss| - 1 ==> Step(p, peer, ss[i], ss[i + 1])
  }

  // Every run is short, never meets an orphan or an invalid block, and once no
  // message waits both nodes have the same active chain and so the same state.
  lemma {:induction false} Converges(p: Params, peer: BlockTree, ss: seq<Exchange>, n: int)
    requires p.Valid() && TreeInv(p, peer) && Trace(p, peer, ss) && Syncing(p, peer, ss[0], n)
    ensures |ss| <= n + 1
    ensures forall s :: s in ss ==> s.verdict.Fine?
    ensures var last := ss[|ss| - 1];
            && TreeInv(p, last.us)
            && (Over(last) ==>
                  && ActivePath(p, last.us) == ActivePath(p, peer)
                  && ActiveChain(p, last.us) == ActiveChain(p, peer)
                  && TipTotals(p, last.us) == TipTotals(p, peer))
    decreases |ss|
  {
    hide TreeInv, ActivePath, ActiveChain, Syncing, PeerStep, OurStep, ApplyChain;
    var s := ss[0];
    StepAdvances(p, peer, s, n);
    if |ss| > 1 {
      assert Step(p, peer, s, ss[1]);
      var n' :| n' < n && Syncing(p, peer, ss[1], n');
      RestTrace(p, peer, ss);
      Converges(p, peer, ss[1..], n');
      assert ss == [s] + ss[1..];
    } else if s.toPeer == [] && s.toUs == [] {
      SameState(p, peer, s, n);
    }
  }

  lemma RestTrace(p: Params, peer: BlockTree, ss: seq<Exchange>)
    requires p.Valid() && TreeInv(p, peer) && Trace(p, peer, ss) && |ss| > 1
    ensures Trace(p, peer, ss[1..])
  {
    hide TreeInv, Step;
    forall i | 0 <= i < |ss| - 2
      ensures Step(p, peer, ss[1..][i], ss[1..][i + 1])
    {
      assert Step(p, peer, ss[i + 1], ss[i + 2]);
    }
  }

  lemma SameState(p: Params, peer: BlockTree, s: Exchange, n: int)
    requires p.Valid() && TreeInv(p, peer) && Syncing(p, peer, s, n) && TreeInv(p, s.us) && s.us.tip == peer.tip
    ensures ActivePath(p, s.us) == ActivePath(p, peer) && ActiveChain(p, s.us) == ActiveChain(p, peer)
  {
    hide TreeInv, ActivePath, ActiveChain, Knows, Outweighs, RoundAdvances, Agree;
    var k: nat :| SyncingAt(p, peer, s, k, n);
    var last := |ActivePath(p, peer)| - 1;
    TipLast(p, peer);
    TipLast(p, s.us);
    KnownBelow(p, peer, s.us, last);
    WholeChain(p, peer, s.us, last);
  }

  lemma WholeChain(p: Params, peer: BlockTree, us: BlockTree, last: nat)
    requires p.Valid() && TreeInv(p, peer) && TreeInv(p, us) && Agree(p, peer, us)
    requires last + 1 == |ActivePath(p, peer)| && Knows(p, peer, us, last) && ActivePath(p, peer)[last] == us.tip
    ensures ActivePath(p, us) == ActivePath(p, peer) && ActiveChain(p, us) == ActiveChain(p, peer)
  {
    hide TreeInv, Knows, ChainTo, CheckRoots;
    SharedPath(p, peer, us, last, last);
    CopiedChain(p, peer, us, last);
    assert ActivePath(p, peer)[..last + 1] == ActivePath(p, peer);
    assert ActiveChain(p, peer)[..last + 1] == ActiveChain(p, peer);
  }

  // ----- where it starts -----

  // No block of the peer's chain that we hold repeats a transaction.
  ghost predicate Intact(p: Params, peer: BlockTree, us: BlockTree)
    requires p.Valid() && TreeInv(p, peer)
  {
    forall h :: h in us.all && h in ActivePath(p, peer) ==> DistinctTxids(us.all[h].transactions)
  }

  // Our copies of the peer's blocks are the peer's exactly when none repeats one.
  lemma IntactCopies(p: Params, peer: BlockTree, us: BlockTree)
    requires p.Valid() && TreeInv(p, peer) && TreeInv(p, us) && us.genesis == peer.genesis
    ensures Intact(p, peer, us) <==> Agree(p, peer, us)
  {
    hide TreeInv, ActivePath, ActiveChain, DistinctTxids, ApplyChain, CheckRoots;
    var path, chain := ActivePath(p, peer), ActiveChain(p, peer);
    PathStored(p, peer);
    ActiveNumbered(p, peer);
    forall h | h in us.all && h in path
      ensures h in peer.all && (DistinctTxids(us.all[h].transactions) <==> us.all[h] == peer.all[h])
    {
      var i :| 0 <= i < |path| && path[i] == h;
      ChainDistinct(p, chain, i);
      StoredRoots(p, peer, h);
      StoredRoots(p, us, h);
      if DistinctTxids(us.all[h].transactions) {
        HeaderCommits(us.all[h], peer.all[h]);
      }
    }
  }

  lemma {:induction false} HighestKnown(p: Params, peer: BlockTree, us: BlockTree, i: nat) returns (k: nat)
    requires p.Valid() && TreeInv(p, peer) && TreeInv(p, us) && us.genesis == peer.genesis
    requires i < |ActivePath(p, peer)| && forall j :: i < j < |ActivePath(p, peer)| ==> ActivePath(p, peer)[j] !in us.all
    ensures k < |ActivePath(p, peer)| && KnowsExactly(p, peer, us, k)
    decreases i
  {
    hide TreeInv, ActivePath, Knows;
    TreeRooted(p, us);
    PathStart(p, peer);
    PathStart(p, us);
    if ActivePath(p, peer)[i] in us.all {
      KnownBelow(p, peer, us, i);
      return i;
    }
    k := HighestKnown(p, peer, us, i - 1);
  }

  // The exchange right after the peer's greeting.
  ghost function Greeted(p: Params, peer: BlockTree, us: BlockTree): Exchange
    requires p.Valid() && TreeInv(p, peer) && TreeInv(p, us)
    requires ActivePath(p, us) != []
  {
    Exchange(us, {}, OnHello(us.all, ActivePath(p, us), |ActivePath(p, peer)| - 1, peer.tip), [], Fine)
  }

  // A node whose chain is a prefix of the peer's syncs after the greeting.
  lemma PrefixStarts(p: Params, peer: BlockTree, us: BlockTree) returns (n: int)
    requires p.Valid() && TreeInv(p, peer) && TreeInv(p, us) && us.genesis == peer.genesis
    requires ActivePath(p, us) <= ActivePath(p, peer)
    ensures ActivePath(p, us) != []
    ensures Syncing(p, peer, Greeted(p, peer, us), n)
    ensures n <= 4 * (|ActivePath(p, peer)| - |ActivePath(p, us)|) + 1
  {
    hide TreeInv, ActivePath, Entries, KnowsExactly, Agree, ActiveChain, ApplyChain, DistinctTxids;
    OwnCopies(p, peer, us);
    IntactCopies(p, peer, us);
    TipLast(p, us);
    TipLast(p, peer);
    var last := |ActivePath(p, peer)| - 1;
    var k := HighestKnown(p, peer, us, last);
    PrefixExact(p, peer, us, k);
    if k == last {
      assert Quiet(p, peer, Greeted(p, peer, us), k);
      n := 0;
    } else {
      TipUnknown(p, peer, us, k);
      n := 4 * (last - k) + 1;
      assert Asking(p, peer, Greeted(p, peer, us), k);
    }
    assert SyncingAt(p, peer, Greeted(p, peer, us), k, n);
  }

  lemma TipUnknown(p: Params, peer: BlockTree, us: BlockTree, k: nat)
    requires p.Valid() && TreeInv(p, peer) && TreeInv(p, us) && k < |ActivePath(p, peer)| - 1
    requires KnowsExactly(p, peer, us, k)
    ensures peer.tip !in us.all
  {
    hide TreeInv, ActivePath;
    TipLast(p, peer);
  }

  // The blocks of the peer's chain that such a node stores are its own active ones.
  lemma OwnCopies(p: Params, peer: BlockTree, us: BlockTree)
    requires p.Valid() && TreeInv(p, peer) && TreeInv(p, us) && us.genesis == peer.genesis
    requires ActivePath(p, us) <= ActivePath(p, peer)
    ensures Intact(p, peer, us)
  {
    hide TreeInv, ActivePath, ActiveChain, ApplyChain, DistinctTxids;
    var ours, theirs := ActivePath(p, us), ActivePath(p, peer);
    TreeRooted(p, us);
    TipLast(p, us);
    ActiveNumbered(p, us);
    forall h | h in us.all && h in theirs
      ensures DistinctTxids(us.all[h].transactions)
    {
      var i :| 0 <= i < |theirs| && theirs[i] == h;
      PrefixKnown(p, peer, us, i);
      assert ours[i] == theirs[i];
      NeverCreatedTwice(p, ActiveChain(p, us), i);
    }
  }

  // ----- an exchange that stalls -----

  // The last block offered does not outweigh our tip: our active path, and with it
  // our locator and the peer's answer, will stay what they are.
  ghost predicate StuckAt(p: Params, peer: BlockTree, s: Exchange, ours: seq<Hash>, k: nat, n: int)
    requires p.Valid() && TreeInv(p, peer) && ours != []
  {
    var theirs, locator := ActivePath(p, peer), Entries(ours);
    var start, hi := StartHeight(theirs, locator), LastOffered(theirs, locator);
    && TreeInv(p, s.us) && ActivePath(p, s.us) == ours && hi < |theirs| && !Outweighs(p, peer, hi, s.us)
    && (|| (Asking(p, peer, s, k) && n == if k < hi then hi - k + 5 else 2)
        || (Offered(p, peer, s, k, start, hi) && n == if k < hi then hi - k + 4 else 1)
        || (Fetching(p, peer, s, k, hi) && n == hi - k + 3)
        || (Delivering(p, peer, s, k, hi) && n == hi - k + 2)
        || (Quiet(p, peer, s, k) && n == 0))
  }

  lemma StuckWaits(p: Params, peer: BlockTree, s: Exchange, ours: seq<Hash>, k: nat, n: int)
    requires p.Valid() && TreeInv(p, peer) && ours != [] && StuckAt(p, peer, s, ours, k, n)
    ensures TreeInv(p, s.us) && ActivePath(p, s.us) == ours && s.verdict.Fine? && n >= 0 && (s.toPeer == [] || s.toUs == [])
  {
    hide TreeInv, ActivePath, ActiveChain, KnowsExactly, Outweighs, Elements, Entries, StartHeight, LastOffered;
  }

  lemma StuckPeerMoves(p: Params, peer: BlockTree, s: Exchange, ours: seq<Hash>, k: nat, n: int) returns (n': int)
    requires p.Valid() && TreeInv(p, peer) && ours != [] && StuckAt(p, peer, s, ours, k, n) && s.toPeer != []
    ensures n' < n && StuckAt(p, peer, PeerStep(p, peer, s), ours, k, n')
  {
    hide TreeInv, ActivePath, ActiveChain, KnowsExactly, Outweighs, PeerStep, Elements, Bodies, Entries, LastOffered, StartHeight;
    var s' := PeerStep(p, peer, s);
    if Asking(p, peer, s, k) {
      AskingStep(p, peer, s, s', k);
      return if Quiet(p, peer, s', k) then 0 else n - 1;
    }
    FetchingStep(p, peer, s, s', k, LastOffered(ActivePath(p, peer), Entries(ours)));
    return n - 1;
  }

  lemma StuckWeMove(p: Params, peer: BlockTree, s: Exchange, ours: seq<Hash>, k: nat, n: int) returns (k': nat, n': int)
    requires p.Valid() && TreeInv(p, peer) && ours != [] && StuckAt(p, peer, s, ours, k, n) && s.toUs != [] && TreeInv(p, s.us)
    ensures n' < n && StuckAt(p, peer, OurStep(p, s), ours, k', n')
  {
    hide TreeInv, ActivePath, ActiveChain, AddBlock, KnowsExactly, Outweighs, OurStep, Elements, Bodies, Entries, LastOffered, StartHeight;
    var s' := OurStep(p, s);
    var theirs, locator := ActivePath(p, peer), Entries(ours);
    var start, hi := StartHeight(theirs, locator), LastOffered(theirs, locator);
    if n == if k < hi then hi - k + 4 else 1 {
      OfferedStep(p, peer, s, s', k, start, hi);
      return k, if k < hi then hi - k + 3 else 0;
    }
    DeliveringStep(p, peer, s, s', k, hi);
    StillHeavier(p, peer, s.us, k, hi);
    return k + 1, if k + 1 < hi then n - 1 else 2;
  }

  lemma StuckStep(p: Params, peer: BlockTree, s: Exchange, s': Exchange, ours: seq<Hash>, k: nat, n: int) returns (k': nat, n': int)
    requires p.Valid() && TreeInv(p, peer) && ours != [] && StuckAt(p, peer, s, ours, k, n) && Step(p, peer, s, s')
    ensures n' < n && StuckAt(p, peer, s', ours, k', n')
  {
    hide TreeInv, ActivePath, StuckAt, PeerStep, OurStep;
    StuckWaits(p, peer, s, ours, k, n);
    if s.toPeer != [] {
      k' := k;
      n' := StuckPeerMoves(p, peer, s, ours, k, n);
    } else {
      k', n' := StuckWeMove(p, peer, s, ours, k, n);
    }
  }

  // Every run of such an exchange is short, and our active path never moves.
  lemma {:induction false} Stalls(p: Params, peer: BlockTree, ss: seq<Exchange>, ours: seq<Hash>, k: nat, n: int)
    requires p.Valid() && TreeInv(p, peer) && Trace(p, peer, ss) && ours != [] && StuckAt(p, peer, ss[0], ours, k, n)
    ensures |ss| <= n + 1
    ensures forall s :: s in ss ==> s.verdict.Fine? && TreeInv(p, s.us) && ActivePath(p, s.us) == ours
    decreases |ss|
  {
    hide TreeInv, ActivePath, StuckAt, Step, PeerStep, OurStep;
    StuckWaits(p, peer, ss[0], ours, k, n);
    if |ss| > 1 {
      assert Step(p, peer, ss[0], ss[1]);
      var k', n' := StuckStep(p, peer, ss[0], ss[1], ours, k, n);
      RestTrace(p, peer, ss);
      Stalls(p, peer, ss[1..], ours, k', n');
      assert ss == [ss[0]] + ss[1..];
    }
  }

  // ----- an exchange that breaks off -----

  // The last block offered outweighs our tip, but one of our copies imitates a block
  // below it: whatever is delivered, our active path stays what it is.
  ghost predicate BlockedAt(p: Params, peer: BlockTree, s: Exchange, ours: seq<Hash>, k: nat, n: int)
    requires p.Valid() && TreeInv(p, peer) && ours != []
  {
    var theirs, locator := ActivePath(p, peer), Entries(ours);
    var start, hi := StartHeight(theirs, locator), LastOffered(theirs, locator);
    && TreeInv(p, s.us) && ActivePath(p, s.us) == ours && k < hi < |theirs| && Outweighs(p, peer, hi, s.us)
    && (|| (s.verdict == Punish(DuplicateTx) && n == 0)
        || (!Agree(p, peer, s.us)
            && (|| (Asking(p, peer, s, k) && n == hi - k + 4)
                || (Offered(p, peer, s, k, start, hi) && n == hi - k + 3)
                || (Fetching(p, peer, s, k, hi) && n == hi - k + 2)
                || (Delivering(p, peer, s, k, hi) && n == hi - k + 1))))
  }

  lemma BlockedWaits(p: Params, peer: BlockTree, s: Exchange, ours: seq<Hash>, k: nat, n: int)
    requires p.Valid() && TreeInv(p, peer) && ours != [] && BlockedAt(p, peer, s, ours, k, n)
    ensures TreeInv(p, s.us) && ActivePath(p, s.us) == ours && n >= 0
    ensures s.verdict == Punish(DuplicateTx) || (s.verdict.Fine? && (s.toPeer == [] <==> s.toUs != []))
  {
    hide TreeInv, ActivePath, ActiveChain, KnowsExactly, Outweighs, Elements, Entries, StartHeight, LastOffered, Agree;
  }

  lemma BlockedPeerMoves(p: Params, peer: BlockTree, s: Exchange, ours: seq<Hash>, k: nat, n: int) returns (n': int)
    requires p.Valid() && TreeInv(p, peer) && ours != [] && BlockedAt(p, peer, s, ours, k, n)
    requires s.toPeer != [] && s.verdict.Fine?
    ensures n' < n && BlockedAt(p, peer, PeerStep(p, peer, s), ours, k, n')
  {
    hide TreeInv, ActivePath, ActiveChain, KnowsExactly, Outweighs, PeerStep, Elements, Bodies, Entries, LastOffered, StartHeight, Agree;
    var s' := PeerStep(p, peer, s);
    if Asking(p, peer, s, k) {
      AskingStep(p, peer, s, s', k);
    } else {
      FetchingStep(p, peer, s, s', k, LastOffered(ActivePath(p, peer), Entries(ours)));
    }
    return n - 1;
  }

  lemma BlockedWeMove(p: Params, peer: BlockTree, s: Exchange, ours: seq<Hash>, k: nat, n: int) returns (k': nat, n': int)
    requires p.Valid() && TreeInv(p, peer) && ours != [] && BlockedAt(p, peer, s, ours, k, n)
    requires s.toUs != [] && s.verdict.Fine? && TreeInv(p, s.us)
    ensures n' < n && BlockedAt(p, peer, OurStep(p, s), ours, k', n')
  {
    hide TreeInv, ActivePath, ActiveChain, AddBlock, KnowsExactly, Outweighs, OurStep, Elements, Bodies, Entries, LastOffered, StartHeight, Agree;
    var s' := OurStep(p, s);
    var theirs, locator := ActivePath(p, peer), Entries(ours);
    var start, hi := StartHeight(theirs, locator), LastOffered(theirs, locator);
    if n == hi - k + 3 {
      OfferedStep(p, peer, s, s', k, start, hi);
      return k, n - 1;
    }
    DeliveringStep(p, peer, s, s', k, hi);
    if Outweighs(p, peer, k + 1, s.us) {
      return k, 0;
    }
    StillBlocked(p, peer, s.us, k, hi);
    return k + 1, n - 1;
  }

  // A side block below the outweighing one changes nothing that matters.
  lemma StillBlocked(p: Params, peer: BlockTree, us: BlockTree, k: nat, hi: nat)
    requires p.Valid() && TreeInv(p, peer) && TreeInv(p, us) && k < hi < |ActivePath(p, peer)| && KnowsExactly(p, peer, us, k)
    requires Outweighs(p, peer, hi, us) && !Outweighs(p, peer, k + 1, us) && !Agree(p, peer, us)
    ensures var us' := AddBlock(p, us, ActiveChain(p, peer)[k + 1]).0;
            && TreeInv(p, us') && ActivePath(p, us') == ActivePath(p, us)
            && k + 1 < hi && Outweighs(p, peer, hi, us') && !Agree(p, peer, us')
  {
    hide TreeInv, ActivePath, ActiveChain, AddBlock, KnowsExactly, Agree;
    Delivered(p, peer, us, k);
    StillHeavier(p, peer, us, k, k + 1);
  }

  lemma BlockedStep(p: Params, peer: BlockTree, s: Exchange, s': Exchange, ours: seq<Hash>, k: nat, n: int) returns (k': nat, n': int)
    requires p.Valid() && TreeInv(p, peer) && ours != [] && BlockedAt(p, peer, s, ours, k, n) && Step(p, peer, s, s')
    ensures n' < n && BlockedAt(p, peer, s', ours, k', n')
  {
    hide TreeInv, ActivePath, BlockedAt, PeerStep, OurStep;
    BlockedWaits(p, peer, s, ours, k, n);
    if s.toPeer != [] {
      k' := k;
      n' := BlockedPeerMoves(p, peer, s, ours, k, n);
    } else {
      k', n' := BlockedWeMove(p, peer, s, ours, k, n);
    }
  }

  // Every run of such an exchange ends by punishing the peer for a repeated
  // transaction, and our active path never moves.
  lemma {:induction false} BreaksOff(p: Params, peer: BlockTree, ss: seq<Exchange>, ours: seq<Hash>, k: nat, n: int)
    requires p.Valid() && TreeInv(p, peer) && Trace(p, peer, ss) && ours != [] && BlockedAt(p, peer, ss[0], ours, k, n)
    ensures |ss| <= n + 1
    ensures forall s :: s in ss ==> !s.verdict.Orphan? && TreeInv(p, s.us) && ActivePath(p, s.us) == ours
    ensures Over(ss[|ss| - 1]) ==> ss[|ss| - 1].verdict == Punish(DuplicateTx)
    decreases |ss|
  {
    hide TreeInv, ActivePath, BlockedAt, Step, PeerStep, OurStep;
    BlockedWaits(p, peer, ss[0], ours, k, n);
    if |ss| > 1 {
      assert Step(p, peer, ss[0], ss[1]);
      var k', n' := BlockedStep(p, peer, ss[0], ss[1], ours, k, n);
      RestTrace(p, peer, ss);
      BreaksOff(p, peer, ss[1..], ours, k', n');
      assert ss == [ss[0]] + ss[1..];
    }
  }

  // ----- how it ends -----

  // After the greeting of a higher peer whose first round outweighs our tip, the
  // exchange advances when our copies are intact and is blocked when they are not.
  lemma ForkStarts(p: Params, peer: BlockTree, us: BlockTree, k: nat) returns (n: int)
    requires p.Valid() && TreeInv(p, peer) && TreeInv(p, us) && k < |ActivePath(p, peer)| && KnowsExactly(p, peer, us, k)
    requires us.genesis == peer.genesis && |ActivePath(p, us)| < |ActivePath(p, peer)| && ActivePath(p, us) != []
    requires RoundAdvances(p, peer, us) && peer.tip !in us.all
    ensures if Intact(p, peer, us) then Syncing(p, peer, Greeted(p, peer, us), n)
            else BlockedAt(p, peer, Greeted(p, peer, us), ActivePath(p, us), k, n)
    ensures n <= 4 * |ActivePath(p, peer)|
  {
    hide TreeInv, ActivePath, Entries, KnowsExactly, Agree, Intact, LastOffered, Outweighs;
    IntactCopies(p, peer, us);
    var last := |ActivePath(p, peer)| - 1;
    assert Asking(p, peer, Greeted(p, peer, us), k);
    if Intact(p, peer, us) {
      n := 4 * (last - k) + 1;
      assert SyncingAt(p, peer, Greeted(p, peer, us), k, n);
    } else {
      var hi := LastOffered(ActivePath(p, peer), Entries(ActivePath(p, us)));
      ImitatedFork(p, peer, us);
      HeavierUnknown(p, peer, us, k, hi);
      n := hi - k + 4;
    }
  }

  // Only a fork can hold an imitation.
  lemma ImitatedFork(p: Params, peer: BlockTree, us: BlockTree)
    requires p.Valid() && TreeInv(p, peer) && TreeInv(p, us) && us.genesis == peer.genesis
    ensures !Intact(p, peer, us) ==> !(ActivePath(p, us) <= ActivePath(p, peer))
  {
    hide TreeInv, ActivePath, Intact;
    if ActivePath(p, us) <= ActivePath(p, peer) {
      OwnCopies(p, peer, us);
    }
  }

  // Greeted by a strictly heavier and higher peer, we end on its chain if and only
  // if the first round advances (our chain is a prefix of the peer's, or the round's
  // last block outweighs our tip) and no block of the peer's chain that we hold
  // repeats a transaction.  A round that does not advance ends in silence, and one
  // that meets a repeated transaction ends with the honest peer punished for it;
  // either way our chain stays as it was.
  lemma SyncOutcome(p: Params, peer: BlockTree, us: BlockTree, ss: seq<Exchange>)
    requires p.Valid() && TreeInv(p, peer) && TreeInv(p, us) && us.genesis == peer.genesis
    requires ActivePath(p, us) != [] && |ActivePath(p, us)| < |ActivePath(p, peer)|
    requires Outweighs(p, peer, |ActivePath(p, peer)| - 1, us)
    requires Trace(p, peer, ss) && ss[0] == Greeted(p, peer, us)
    ensures |ss| <= 4 * |ActivePath(p, peer)| + 6
    ensures forall s :: s in ss ==> !s.verdict.Orphan?
    ensures var last := ss[|ss| - 1];
            Over(last) ==>
              && TreeInv(p, last.us)
              && (last.us.tip == peer.tip <==> RoundAdvances(p, peer, us) && Intact(p, peer, us))
              && last.verdict == (if RoundAdvances(p, peer, us) && !Intact(p, peer, us) then Punish(DuplicateTx) else Fine)
              && if RoundAdvances(p, peer, us) && Intact(p, peer, us)
                 then ActiveChain(p, last.us) == ActiveChain(p, peer)
                 else ActivePath(p, last.us) == ActivePath(p, us)
  {
    hide TreeInv, ActivePath, ActiveChain, Entries, RoundAdvances, KnowsExactly, Agree, Intact, Outweighs, PeerStep, OurStep, ApplyChain, Syncing, Step, StuckAt, BlockedAt;
    TipLast(p, us);
    TipLast(p, peer);
    var theirs, last := ActivePath(p, peer), ss[|ss| - 1];
    var k := HighestKnown(p, peer, us, |theirs| - 1);
    HeavierUnknown(p, peer, us, k, |theirs| - 1);
    TipUnknown(p, peer, us, k);
    TreeRooted(p, us);
    assert last in ss;
    if !RoundAdvances(p, peer, us) {
      var n := StuckStarts(p, peer, us, k);
      Stalls(p, peer, ss, ActivePath(p, us), k, n);
    } else {
      var n := ForkStarts(p, peer, us, k);
      if Intact(p, peer, us) {
        Converges(p, peer, ss, n);
      } else {
        BreaksOff(p, peer, ss, ActivePath(p, us), k, n);
      }
    }
    TipLast(p, last.us);
  }

  lemma StuckStarts(p: Params, peer: BlockTree, us: BlockTree, k: nat) returns (n: int)
    requires p.Valid() && TreeInv(p, peer) && TreeInv(p, us) && k < |ActivePath(p, peer)| && KnowsExactly(p, peer, us, k)
    requires ActivePath(p, us) != [] && |ActivePath(p, us)| < |ActivePath(p, peer)| && peer.tip !in us.all
    requires !RoundAdvances(p, peer, us)
    ensures StuckAt(p, peer, Greeted(p, peer, us), ActivePath(p, us), k, n) && n <= |ActivePath(p, peer)| + 5
  {
    hide TreeInv, ActivePath, Entries, StartHeight, KnowsExactly, Outweighs;
    StartKnown(p, peer, us, k);
    var hi := LastOffered(ActivePath(p, peer), Entries(ActivePath(p, us)));
    assert hi < |ActivePath(p, peer)|;
    assert Asking(p, peer, Greeted(p, peer, us), k);
    n := if k < hi then hi - k + 5 else 2;
  }
}
