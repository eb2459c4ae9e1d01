// What a target is worth, and what that makes of two branches.
module Work {
  import opened Prelude
  import opened Arith
  import opened Tx
  import opened Ledger
  import opened Conservation
  import opened Tree
  import opened TreeProofs
  import opened Reload
  import opened Orders
  import Compact

  // ----- targets -----

  lemma QuotientBrackets(m: nat, d: nat)
    requires d > 0
    ensures (m / d) * d <= m < (m / d + 1) * d
  {
    var q := m / d;
    assert m == q * d + m % d;
    assert (q + 1) * d == q * d + d;
  }

  // The work of a target is 2^256 - 1 over the number of hashes that meet it, floored.
  lemma TargetWorth(t: nat)
    requires t < TWO_256
    ensures WorkFromTarget(t) * (t + 1) <= TWO_256 - 1 < (WorkFromTarget(t) + 1) * (t + 1)
  {
    QuotientBrackets(TWO_256 - 1, t + 1);
  }

  // A quotient is at least q when q divisors fit.
  lemma QuotientAtLeast(m: nat, d: nat, q: nat)
    requires d > 0 && q * d <= m
    ensures m / d >= q
  {
    QuotientBrackets(m, d);
    if m / d < q {
      MulLe(m / d + 1, q, d, d);
    }
  }

  // A harder target is worth no less.
  lemma WorkAntitone(hard: nat, easy: nat)
    requires hard <= easy < TWO_256
    ensures WorkFromTarget(easy) <= WorkFromTarget(hard)
  {
    TargetWorth(easy);
    MulLe(WorkFromTarget(easy), WorkFromTarget(easy), hard + 1, easy + 1);
    QuotientAtLeast(TWO_256 - 1, hard + 1, WorkFromTarget(easy));
  }

  // A target at most half as large is worth strictly more.
  lemma HalfTargetWorth(hard: nat, easy: nat)
    requires 1 <= hard && 2 * hard <= easy < TWO_256 / 2
    ensures WorkFromTarget(easy) < WorkFromTarget(hard)
  {
    hide WorkFromTarget;
    TargetWorth(easy);
    HalfFits(WorkFromTarget(easy), hard, easy);
    WorkAtLeast(hard, WorkFromTarget(easy) + 1);
  }

  lemma WorkAtLeast(t: nat, q: nat)
    requires q * (t + 1) <= TWO_256 - 1
    ensures WorkFromTarget(t) >= q
  {
    QuotientAtLeast(TWO_256 - 1, t + 1, q);
  }

  lemma HalfFits(w: nat, hard: nat, easy: nat)
    requires 1 <= hard && 2 * hard <= easy < TWO_256 / 2 && w * (easy + 1) <= TWO_256 - 1
    ensures (w + 1) * (hard + 1) <= TWO_256 - 1
  {
    MulLe(w, w, 3, easy + 1);
    MulLe(w + 1, w + 1, 2 * (hard + 1), easy + 2);
    assert (w + 1) * (2 * (hard + 1)) == 2 * ((w + 1) * (hard + 1)) by { Twice(w + 1, hard + 1); }
    Spread(w, easy);
  }

  lemma Spread(w: nat, e: nat)
    ensures (w + 1) * (e + 2) == w * (e + 1) + w + e + 2
  {
  }

  // ----- blocks -----

  // The target a stored block was mined for.
  function TargetOf(b: Blk): nat {
    var target := Compact.BitsToTarget(b.header.bits);
    if target.Some? then target.value else 0
  }

  lemma StoredTarget(p: Params, t: BlockTree, h: Hash)
    requires p.Valid() && TreeInv(p, t) && h in t.all
    ensures 1 <= TargetOf(t.all[h]) <= p.powLimit < TWO_256 / 2
    ensures BlockWork(t.all[h]) == WorkFromTarget(TargetOf(t.all[h]))
  {
    hide CheckHeader, CheckGenesis, ApplyChain, Rooted, BlockSize, WorkFromTarget;
    assert NodeInv(p, t, h);
    Positive(t.all[h].header.bits);
  }

  lemma Positive(bits: U32)
    requires Compact.BitsToTarget(bits).Some?
    ensures Compact.BitsToTarget(bits).value >= 1
  {
    var exp, mant := bits / Compact.EXP, bits % Compact.SIGN;
    if exp > 3 {
      ShlGrows(mant, 0, 8 * (exp - 3));
    }
  }

  // Work of a block is antitone in its target, and a target at most half as large
  // makes it strictly greater.
  lemma BlockWorkAntitone(p: Params, t: BlockTree, hard: Hash, easy: Hash)
    requires p.Valid() && TreeInv(p, t) && hard in t.all && easy in t.all
    ensures TargetOf(t.all[hard]) <= TargetOf(t.all[easy]) ==> BlockWork(t.all[easy]) <= BlockWork(t.all[hard])
    ensures 2 * TargetOf(t.all[hard]) <= TargetOf(t.all[easy]) ==> BlockWork(t.all[easy]) < BlockWork(t.all[hard])
  {
    hide TreeInv, BlockWork, WorkFromTarget, TargetOf;
    StoredTarget(p, t, hard);
    StoredTarget(p, t, easy);
    if TargetOf(t.all[hard]) <= TargetOf(t.all[easy]) {
      WorkAntitone(TargetOf(t.all[hard]), TargetOf(t.all[easy]));
    }
    if 2 * TargetOf(t.all[hard]) <= TargetOf(t.all[easy]) {
      HalfTargetWorth(TargetOf(t.all[hard]), TargetOf(t.all[easy]));
    }
  }

  // ----- branches -----

  // The work recorded for a block is the sum over its chain.
  ghost function WorkSum(blocks: seq<Blk>): nat {
    if blocks == [] then 0 else WorkSum(blocks[..|blocks| - 1]) + BlockWork(blocks[|blocks| - 1])
  }

  lemma {:induction false} CumulativeWork(p: Params, t: BlockTree, h: Hash)
    requires p.Valid() && TreeInv(p, t) && h in t.meta
    ensures Rooted(t.meta) && t.all.Keys == t.meta.Keys && t.meta[h].work == WorkSum(ChainTo(t, h))
    decreases t.meta[h].height
  {
    hide TreeInv, BlockWork, CheckHeader, PathTo, ChainTo;
    TreeKeys(p, t);
    if h == t.genesis {
      FirstWork(p, t);
    } else {
      Recorded(p, t, h);
      ChainGrows(t, h);
      CumulativeWork(p, t, t.meta[h].parent);
      assert ChainTo(t, h)[..|ChainTo(t, h)| - 1] == ChainTo(t, t.meta[h].parent);
    }
  }

  lemma FirstWork(p: Params, t: BlockTree)
    requires p.Valid() && TreeInv(p, t)
    ensures Rooted(t.meta) && t.all.Keys == t.meta.Keys && t.genesis in t.meta
    ensures t.meta[t.genesis].work == WorkSum(ChainTo(t, t.genesis))
  {
    hide CheckHeader, ApplyChain, BlockWork, CheckPow, CheckRoots, BlockSize, WorkFromTarget;
    assert NodeInv(p, t, t.genesis);
    var g := t.all[t.genesis];
    assert ChainTo(t, t.genesis) == [g];
    assert WorkSum([g][..0]) == 0;
  }

  // Two stored blocks at one height whose paths share the first f blocks, each later
  // block on the hard path having at most the target of its counterpart.
  ghost predicate HarderBranch(t: BlockTree, hard: Hash, easy: Hash, f: nat)
    requires Rooted(t.meta) && t.all.Keys == t.meta.Keys && hard in t.meta && easy in t.meta
  {
    && 0 < f && t.meta[hard].height == t.meta[easy].height >= f - 1
    && PathTo(t.meta, hard)[..f] == PathTo(t.meta, easy)[..f]
    && forall i :: f <= i <= t.meta[hard].height ==>
         NoEasier(t, PathTo(t.meta, hard)[i], PathTo(t.meta, easy)[i])
  }

  // One of the later blocks has at most half the target of its counterpart.
  ghost predicate SomeHalf(t: BlockTree, hard: Hash, easy: Hash, f: nat)
    requires Rooted(t.meta) && hard in t.meta && easy in t.meta && t.meta[hard].height == t.meta[easy].height
  {
    exists i :: f <= i <= t.meta[hard].height && HalfTarget(t, PathTo(t.meta, hard)[i], PathTo(t.meta, easy)[i])
  }

  ghost predicate NoEasier(t: BlockTree, hard: Hash, easy: Hash) {
    hard in t.all && easy in t.all && TargetOf(t.all[hard]) <= TargetOf(t.all[easy])
  }

  ghost predicate HalfTarget(t: BlockTree, hard: Hash, easy: Hash) {
    hard in t.all && easy in t.all && 2 * TargetOf(t.all[hard]) <= TargetOf(t.all[easy])
  }

  lemma {:induction false} BranchWork(p: Params, t: BlockTree, hard: Hash, easy: Hash, f: nat)
    requires p.Valid() && TreeInv(p, t) && hard in t.meta && easy in t.meta && Rooted(t.meta) && t.all.Keys == t.meta.Keys
    requires HarderBranch(t, hard, easy, f)
    ensures t.meta[hard].work >= t.meta[easy].work
    ensures SomeHalf(t, hard, easy, f) ==> t.meta[hard].work > t.meta[easy].work
    decreases t.meta[hard].height
  {
    hide TreeInv, BlockWork, CheckHeader, TargetOf, PathTo;
    var n := t.meta[hard].height;
    PathEnds(t.meta, hard);
    PathEnds(t.meta, easy);
    if n == f - 1 {
      assert PathTo(t.meta, hard)[..f][n] == PathTo(t.meta, easy)[..f][n];
    } else {
      GenesisFirst(p, t, hard);
      GenesisFirst(p, t, easy);
      Recorded(p, t, hard);
      Recorded(p, t, easy);
      assert NoEasier(t, PathTo(t.meta, hard)[n], PathTo(t.meta, easy)[n]);
      BlockWorkAntitone(p, t, hard, easy);
      ShorterBranch(t, hard, easy, f);
      BranchWork(p, t, t.meta[hard].parent, t.meta[easy].parent, f);
    }
  }

  lemma PathEnds(meta: MetaMap, h: Hash)
    requires Rooted(meta) && h in meta
    ensures |PathTo(meta, h)| == meta[h].height + 1 && PathTo(meta, h)[meta[h].height] == h
  {
  }

  lemma PathInit(meta: MetaMap, h: Hash)
    requires Rooted(meta) && h in meta && meta[h].parent != Zero
    ensures meta[h].parent in meta && meta[h].height == meta[meta[h].parent].height + 1
    ensures PathTo(meta, h) == PathTo(meta, meta[h].parent) + [h]
  {
  }

  lemma GenesisFirst(p: Params, t: BlockTree, h: Hash)
    requires p.Valid() && TreeInv(p, t) && h in t.meta && t.meta[h].height > 0
    ensures h != t.genesis
  {
    hide CheckHeader, CheckGenesis, ApplyChain, Rooted, BlockWork, BlockSize;
    assert NodeInv(p, t, h);
  }

  lemma ShorterBranch(t: BlockTree, hard: Hash, easy: Hash, f: nat)
    requires Rooted(t.meta) && t.all.Keys == t.meta.Keys && hard in t.meta && easy in t.meta
    requires HarderBranch(t, hard, easy, f) && t.meta[hard].height >= f
    requires t.meta[hard].parent != Zero && t.meta[easy].parent != Zero
    ensures t.meta[hard].parent in t.meta && t.meta[easy].parent in t.meta
    ensures HarderBranch(t, t.meta[hard].parent, t.meta[easy].parent, f)
    ensures SomeHalf(t, hard, easy, f) ==>
              HalfTarget(t, hard, easy) || SomeHalf(t, t.meta[hard].parent, t.meta[easy].parent, f)
  {
    hide PathTo, HalfTarget, NoEasier;
    var a, b := t.meta[hard].parent, t.meta[easy].parent;
    PathInit(t.meta, hard);
    PathInit(t.meta, easy);
    PathEnds(t.meta, a);
    PathEnds(t.meta, b);
    PathEnds(t.meta, hard);
    PathEnds(t.meta, easy);
    var n := t.meta[hard].height;
    assert PathTo(t.meta, hard)[..f] == PathTo(t.meta, a)[..f];
    assert PathTo(t.meta, easy)[..f] == PathTo(t.meta, b)[..f];
    forall i | f <= i <= n - 1
      ensures PathTo(t.meta, hard)[i] == PathTo(t.meta, a)[i] && PathTo(t.meta, easy)[i] == PathTo(t.meta, b)[i]
      ensures NoEasier(t, PathTo(t.meta, a)[i], PathTo(t.meta, b)[i])
    {
      assert NoEasier(t, PathTo(t.meta, hard)[i], PathTo(t.meta, easy)[i]);
    }
    if SomeHalf(t, hard, easy, f) {
      var i :| f <= i <= n && HalfTarget(t, PathTo(t.meta, hard)[i], PathTo(t.meta, easy)[i]);
      if i < n {
        assert HalfTarget(t, PathTo(t.meta, a)[i], PathTo(t.meta, b)[i]);
      }
    }
  }

  // Fork choice goes by difficulty, not by length or arrival: when the last block of
  // a branch arrives, as long as the active one, nowhere easier since the fork and at
  // some height at most half the target of its counterpart, it becomes the tip if
  // its chain is valid.
  lemma HarderBranchWins(p: Params, t: BlockTree, b: Blk, f: nat)
    requires p.Valid() && TreeInv(p, t) && BlockHash(b.header) !in t.all
    requires b.header.prev in t.meta && t.genesis in t.meta && t.tip in t.meta && Rooted(t.meta) && t.all.Keys == t.meta.Keys
    requires CheckHeader(p, t.meta, t.genesis, b).Ok? && ApplyChain(p, ChainTo(t, b.header.prev) + [b]).Ok?
    requires Grown(t, b).all.Keys == Grown(t, b).meta.Keys && Rooted(Grown(t, b).meta)
    requires HarderBranch(Grown(t, b), BlockHash(b.header), t.tip, f) && SomeHalf(Grown(t, b), BlockHash(b.header), t.tip, f)
    ensures AddBlock(p, t, b) == (Grown(t, b).(tip := BlockHash(b.header)), Ok(true))
  {
    hide NodeInv, CheckHeader, ApplyChain, Rooted, BlockWork, ChainTo, HarderBranch, SomeHalf, BlockSize;
    var h, t' := BlockHash(b.header), AddBlock(p, t, b).0;
    AddBlockKeeps(p, t, b);
    SameBranches(Grown(t, b), t', h, t.tip, f);
    BranchWork(p, t', h, t.tip, f);
  }

  // Branches do not depend on where the tip is.
  lemma SameBranches(g: BlockTree, t: BlockTree, hard: Hash, easy: Hash, f: nat)
    requires t.all == g.all && t.meta == g.meta
    requires Rooted(g.meta) && g.all.Keys == g.meta.Keys && hard in g.meta && easy in g.meta
    ensures HarderBranch(g, hard, easy, f) <==> HarderBranch(t, hard, easy, f)
    ensures t.meta[hard].height == t.meta[easy].height ==> (SomeHalf(g, hard, easy, f) <==> SomeHalf(t, hard, easy, f))
  {
    hide PathTo, TargetOf, Rooted;
    if t.meta[hard].height == t.meta[easy].height {
      forall i | f <= i <= t.meta[hard].height
        ensures HalfTarget(g, PathTo(t.meta, hard)[i], PathTo(t.meta, easy)[i])
                <==> HalfTarget(t, PathTo(t.meta, hard)[i], PathTo(t.meta, easy)[i])
        ensures NoEasier(g, PathTo(t.meta, hard)[i], PathTo(t.meta, easy)[i])
                <==> NoEasier(t, PathTo(t.meta, hard)[i], PathTo(t.meta, easy)[i])
      {
        PathEnds(t.meta, hard);
        PathEnds(t.meta, easy);
      }
    }
  }
}
