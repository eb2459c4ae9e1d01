// The median of a window of block times.
module Median {
  import opened Prelude

  function Insert(x: nat, s: seq<nat>): seq<nat> {
    if s == [] then [x]
    else if x <= s[0] then [x] + s
    else [s[0]] + Insert(x, s[1..])
  }

  function Sort(s: seq<nat>): (r: seq<nat>)
    ensures |r| == |s|
  {
    if s == [] then [] else
      InsertLength(s[0], Sort(s[1..]));
      Insert(s[0], Sort(s[1..]))
  }

  lemma {:induction false} InsertLength(x: nat, s: seq<nat>)
    ensures |Insert(x, s)| == |s| + 1
  {
    if s != [] {
      InsertLength(x, s[1..]);
    }
  }

  function MedianOf(times: seq<nat>): nat
    requires times != []
  {
    Sort(times)[|times| / 2]
  }

  // How many elements lie strictly below v.
  function CountBelow(s: seq<nat>, v: nat): nat {
    if s == [] then 0 else (if s[0] < v then 1 else 0) + CountBelow(s[1..], v)
  }

  predicate Ascending(s: seq<nat>) {
    forall i, j :: 0 <= i < j < |s| ==> s[i] <= s[j]
  }

  lemma {:induction false} InsertSorted(x: nat, s: seq<nat>, v: nat)
    requires Ascending(s)
    ensures Ascending(Insert(x, s))
    ensures CountBelow(Insert(x, s), v) == CountBelow(s, v) + if x < v then 1 else 0
    ensures forall y :: y in Insert(x, s) <==> y == x || y in s
  {
    if s == [] {
    } else if x <= s[0] {
      assert ([x] + s)[1..] == s;
    } else {
      InsertSorted(x, s[1..], v);
      assert Insert(x, s)[1..] == Insert(x, s[1..]);
      forall y | y in Insert(x, s[1..])
        ensures s[0] <= y
      {
        if y != x {
          assert y in s[1..];
        }
      }
    }
  }

  lemma {:induction false} SortCorrect(s: seq<nat>, v: nat)
    ensures Ascending(Sort(s)) && CountBelow(Sort(s), v) == CountBelow(s, v)
    ensures multiset(Sort(s)) == multiset(s)
  {
    if s != [] {
      SortCorrect(s[1..], v);
      InsertSorted(s[0], Sort(s[1..]), v);
      InsertPermutes(s[0], Sort(s[1..]));
      assert s == [s[0]] + s[1..];
    }
  }

  lemma {:induction false} InsertPermutes(x: nat, s: seq<nat>)
    ensures multiset(Insert(x, s)) == multiset(s) + multiset{x}
  {
    if s != [] && x > s[0] {
      InsertPermutes(x, s[1..]);
      assert s == [s[0]] + s[1..];
    }
  }

  // Element k of an ascending list reaches v exactly when at most k elements do not.
  lemma {:induction false} RankOf(s: seq<nat>, k: nat, v: nat)
    requires Ascending(s) && k < |s|
    ensures s[k] >= v <==> CountBelow(s, v) <= k
  {
    if s[0] >= v {
      NoneBelow(s, v);
    } else if k > 0 {
      RankOf(s[1..], k - 1, v);
    }
  }

  lemma {:induction false} NoneBelow(s: seq<nat>, v: nat)
    requires forall i :: 0 <= i < |s| ==> s[i] >= v
    ensures CountBelow(s, v) == 0
  {
    if s != [] {
      NoneBelow(s[1..], v);
    }
  }

  lemma MedianRank(s: seq<nat>, v: nat)
    requires s != []
    ensures MedianOf(s) >= v <==> CountBelow(s, v) <= |s| / 2
  {
    SortCorrect(s, v);
    RankOf(Sort(s), |s| / 2, v);
  }

  lemma {:induction false} CountPrefix(s: seq<nat>, n: nat, v: nat)
    requires n <= |s|
    ensures CountBelow(s[..n], v) <= CountBelow(s, v)
  {
    if n > 0 {
      CountPrefix(s[1..], n - 1, v);
      assert s[..n][1..] == s[1..][..n - 1];
    }
  }

  // Adding a newer time above the median, and dropping at most the oldest one
  // to make room, never lowers the median.
  lemma MedianAdvances(window: seq<nat>, time: nat, keep: nat)
    requires window != [] && time > MedianOf(window)
    requires keep == |window| || keep == |window| - 1
    ensures MedianOf([time] + window[..keep]) >= MedianOf(window)
  {
    var m := MedianOf(window);
    MedianRank(window, m);
    CountPrefix(window, keep, m);
    var next := [time] + window[..keep];
    assert next[1..] == window[..keep];
    MedianRank(next, m);
  }
}
