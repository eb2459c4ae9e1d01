// Block locators: which heights a node lists for its peer, and where the peer
// starts answering.
module Locator {
  import opened Prelude
  import opened Protocol
  import opened Arith
  import opened Tx

  // The heights listed from h down, after count entries with the given stride.
  function HeightsFrom(h: int, step: nat, count: nat): seq<nat>
    requires step > 0
    decreases h
  {
    if h <= 0 then [0]
    else
      var step' := if count + 1 >= 10 then 2 * step else step;
      [h] + HeightsFrom(h - step', step', count + 1)
  }

  function LocatorHeights(tip: nat): seq<nat> {
    HeightsFrom(tip, 1, 0)
  }

  lemma {:induction false} HeightsBelow(h: int, step: nat, count: nat)
    requires step > 0
    ensures forall x :: x in HeightsFrom(h, step, count) ==> x <= (if h > 0 then h else 0)
    ensures HeightsFrom(h, step, count) != []
    decreases h
  {
    if h > 0 {
      var step' := if count + 1 >= 10 then 2 * step else step;
      HeightsBelow(h - step', step', count + 1);
    }
  }

  // The blocks of a chain at the given heights.
  function Pick(active: seq<Hash>, hs: seq<nat>): seq<Hash>
    requires forall i :: 0 <= i < |hs| ==> hs[i] < |active|
  {
    seq(|hs|, i requires 0 <= i < |hs| => active[hs[i]])
  }

  function Entries(active: seq<Hash>): seq<Hash>
    requires active != []
  {
    HeightsBelow(|active| - 1, 1, 0);
    var hs := LocatorHeights(|active| - 1);
    assert forall i :: 0 <= i < |hs| ==> hs[i] in hs;
    Pick(active, hs)
  }

  // The height at which a chain answers a locator: its first entry on the chain.
  function StartHeight(active: seq<Hash>, locator: seq<Hash>): nat {
    if locator == [] then 0
    else if locator[0] in active then IndexOf(active, locator[0])
    else StartHeight(active, locator[1..])
  }

  function IndexOf(s: seq<Hash>, h: Hash): (i: nat)
    requires h in s
    ensures i < |s| && s[i] == h
  {
    if s[0] == h then 0 else 1 + IndexOf(s[1..], h)
  }

  function HashesAfter(active: seq<Hash>, locator: seq<Hash>, max: nat): seq<Hash> {
    After(active, StartHeight(active, locator) + 1, max)
  }

  // At most max entries from position `from` on.
  function After(active: seq<Hash>, from: nat, max: nat): seq<Hash> {
    if from >= |active| then []
    else if from + max <= |active| then active[from..from + max]
    else active[from..]
  }

  // ----- shape -----

  // The walk so far: nine unit steps, then doubling ones.
  ghost predicate OnWalk(tip: nat, h: int, step: nat, count: nat) {
    if count < 10 then step == 1 && h == tip - count
    else step == Shl(1, count - 9) && h == tip - 7 - 2 * step
  }

  lemma NextOnWalk(tip: nat, h: int, step: nat, count: nat)
    requires OnWalk(tip, h, step, count)
    ensures step > 0
    ensures var step' := if count + 1 >= 10 then 2 * step else step;
            OnWalk(tip, h - step', step', count + 1) && step' - 1 <= tip - h
  {
    assert Shl(1, 1) == 2 * Shl(1, 0);
    if count >= 10 {
      ShlGrows(1, 0, count - 9);
    }
  }

  ghost predicate Descending(hs: seq<nat>) {
    forall i, j :: 0 <= i < j < |hs| ==> hs[i] > hs[j]
  }

  // Strictly down from the tip to genesis.
  lemma {:induction false} Descends(h: int, step: nat, count: nat)
    requires step > 0
    ensures var hs := HeightsFrom(h, step, count);
            && hs[0] == (if h > 0 then h else 0) && hs[|hs| - 1] == 0
            && Descending(hs)
    decreases h
  {
    hide Descending;
    Singleton(0);
    if h > 0 {
      var step' := if count + 1 >= 10 then 2 * step else step;
      var rest := HeightsFrom(h - step', step', count + 1);
      Descends(h - step', step', count + 1);
      HeightsBelow(h - step', step', count + 1);
      DescendingCons(h, rest);
    }
  }

  lemma Singleton(h: nat)
    ensures Descending([h])
  {
  }

  lemma DescendingCons(h: nat, rest: seq<nat>)
    requires Descending(rest) && forall x :: x in rest ==> x < h
    ensures Descending([h] + rest)
  {
    assert forall i :: 0 <= i < |rest| ==> rest[i] in rest;
  }

  lemma {:induction false} LengthFrom(tip: nat, h: int, step: nat, count: nat)
    requires OnWalk(tip, h, step, count) && step > 0 && count < MAX_LOCATOR
    ensures count + |HeightsFrom(h, step, count)| <= MAX_LOCATOR <==> tip <= Shl(1, 55) + 7
    decreases MAX_LOCATOR - count
  {
    hide Shl;
    if h <= 0 {
      WalkEnds(tip, h, step, count);
    } else {
      var step' := if count + 1 >= 10 then 2 * step else step;
      NextOnWalk(tip, h, step, count);
      HeightsBelow(h - step', step', count + 1);
      if count + 1 < MAX_LOCATOR {
        LengthFrom(tip, h - step', step', count + 1);
      } else {
        WalkFull(tip, h, step);
      }
    }
  }

  lemma WalkEnds(tip: nat, h: int, step: nat, count: nat)
    requires OnWalk(tip, h, step, count) && h <= 0 && count < MAX_LOCATOR
    ensures tip <= Shl(1, 55) + 7
  {
    assert Shl(1, 55) == 2 * Shl(1, 54);
    if count >= 10 {
      ShlGrows(1, count - 9, 54);
    } else {
      ShlGrows(1, 4, 55);
      assert Shl(1, 4) == 2 * Shl(1, 3) && Shl(1, 3) == 2 * Shl(1, 2);
    }
  }

  lemma WalkFull(tip: nat, h: int, step: nat)
    requires OnWalk(tip, h, step, MAX_LOCATOR - 1) && h > 0
    ensures tip > Shl(1, 55) + 7
  {
    assert Shl(1, 55) == 2 * Shl(1, 54);
  }

  // A locator lists heights strictly descending from the tip to genesis, and
  // fits the protocol limit exactly for chains up to height 2^55 + 7.
  lemma LocatorShape(tip: nat)
    ensures var hs := LocatorHeights(tip);
            && hs[0] == tip && hs[|hs| - 1] == 0
            && Descending(hs)
            && (|hs| <= MAX_LOCATOR <==> tip <= 0x80_0000_0000_0000 + 7)
  {
    Descends(tip, 1, 0);
    LengthFrom(tip, tip, 1, 0);
    TopStride();
  }

  lemma TopStride()
    ensures Shl(1, 55) == 0x80_0000_0000_0000
  {
    WordShifts(1);
    WordShifts(0x1_0000_0000);
    ShlAdd(1, 32, 24);
    assert Shl(1, 56) == 2 * Shl(1, 55);
  }

  // Entry i, until the walk reaches genesis: the ten newest heights, then distances
  // from the tip that double.
  function EntryAt(tip: nat, i: nat): int {
    if i < 10 then tip - i else tip - 7 - Shl(1, i - 8)
  }

  lemma {:induction false} WalkEntries(tip: nat, h: int, step: nat, count: nat, i: nat)
    requires OnWalk(tip, h, step, count) && step > 0 && i < |HeightsFrom(h, step, count)|
    ensures var hs := HeightsFrom(h, step, count);
            if i < |hs| - 1 then 0 < hs[i] == EntryAt(tip, count + i) else hs[i] == 0 && EntryAt(tip, count + i) <= 0
    decreases h
  {
    WalkEntry(tip, h, step, count);
    if h > 0 {
      var step' := if count + 1 >= 10 then 2 * step else step;
      NextOnWalk(tip, h, step, count);
      HeightsBelow(h - step', step', count + 1);
      if i > 0 {
        WalkEntries(tip, h - step', step', count + 1, i - 1);
      }
    }
  }

  lemma WalkEntry(tip: nat, h: int, step: nat, count: nat)
    requires OnWalk(tip, h, step, count)
    ensures h == EntryAt(tip, count)
  {
  }

  // Every entry in closed form: positive ones by their distance from the tip, and
  // genesis in place of the first that is not.
  lemma LocatorEntries(tip: nat, i: nat)
    requires i < |LocatorHeights(tip)|
    ensures var hs := LocatorHeights(tip);
            if i < |hs| - 1 then 0 < hs[i] == EntryAt(tip, i) else hs[i] == 0 && EntryAt(tip, i) <= 0
  {
    WalkEntries(tip, tip, 1, 0, i);
  }

  // ----- where the peer starts -----

  // Two chains that agree up to height f and share nothing above it.
  ghost predicate AgreeUpTo(ours: seq<Hash>, theirs: seq<Hash>, f: nat) {
    && f < |ours| && f < |theirs|
    && ours[..f + 1] == theirs[..f + 1]
    && forall h :: f < h < |ours| ==> ours[h] !in theirs
  }

  predicate DistinctHashes(s: seq<Hash>) {
    forall i, j :: 0 <= i < j < |s| ==> s[i] != s[j]
  }

  // The first listed height at or below f.
  function FirstAtMost(hs: seq<nat>, f: nat): nat {
    if hs == [] then 0 else if hs[0] <= f then hs[0] else FirstAtMost(hs[1..], f)
  }

  lemma {:induction false} StartIsFirst(ours: seq<Hash>, theirs: seq<Hash>, f: nat, hs: seq<nat>)
    requires AgreeUpTo(ours, theirs, f) && DistinctHashes(theirs)
    requires forall i :: 0 <= i < |hs| ==> hs[i] < |ours|
    ensures StartHeight(theirs, Pick(ours, hs)) == FirstAtMost(hs, f)
  {
    if hs != [] {
      StartIsFirst(ours, theirs, f, hs[1..]);
      assert Pick(ours, hs)[1..] == Pick(ours, hs[1..]);
      if hs[0] <= f {
        assert theirs[hs[0]] == theirs[..f + 1][hs[0]] == ours[..f + 1][hs[0]] == ours[hs[0]];
        assert Pick(ours, hs)[0] in theirs;
      }
    }
  }

  lemma {:induction false} FirstIsClose(tip: nat, h: int, step: nat, count: nat, f: nat)
    requires OnWalk(tip, h, step, count) && step > 0 && f <= tip
    requires h <= f ==> f - (if h > 0 then h else 0) <= tip - f
    ensures var s := FirstAtMost(HeightsFrom(h, step, count), f);
            s <= f && f - s <= tip - f
    decreases h
  {
    if h > 0 && h > f {
      var step' := if count + 1 >= 10 then 2 * step else step;
      NextOnWalk(tip, h, step, count);
      FirstIsClose(tip, h - step', step', count + 1, f);
    }
  }

  // If the chains agree up to height f, the peer starts at a shared height s no
  // further below f than f is below our tip.
  lemma StartIsClose(ours: seq<Hash>, theirs: seq<Hash>, f: nat)
    requires AgreeUpTo(ours, theirs, f) && DistinctHashes(theirs)
    ensures var s := StartHeight(theirs, Entries(ours));
            s <= f && f - s <= |ours| - 1 - f && ours[s] == theirs[s]
  {
    var tip := |ours| - 1;
    var hs := LocatorHeights(tip);
    HeightsBelow(tip, 1, 0);
    assert forall i :: 0 <= i < |hs| ==> hs[i] in hs;
    StartIsFirst(ours, theirs, f, hs);
    FirstIsClose(tip, tip, 1, 0, f);
    var s := FirstAtMost(hs, f);
    assert ours[s] == ours[..f + 1][s];
  }

  // When our chain is a prefix of the peer's, the peer starts right after our tip.
  lemma StartAtOurTip(ours: seq<Hash>, theirs: seq<Hash>)
    requires ours != [] && ours <= theirs && DistinctHashes(theirs)
    ensures StartHeight(theirs, Entries(ours)) == |ours| - 1
  {
    var tip := |ours| - 1;
    Descends(tip, 1, 0);
    assert Entries(ours)[0] == ours[tip] == theirs[tip];
  }
}
