// The Merkle tree: leaves are hashed, then each layer is paired up, an odd last
// node being paired with itself.
module Merkle {
  import opened Prelude
  import opened Tx

  function Leaf(h: Hash): Hash {
    Sha3(LeafPre(h))
  }

  function Node(l: Hash, r: Hash): Hash {
    Sha3(NodePre(l, r))
  }

  function LeafLayer(leaves: seq<Hash>): seq<Hash> {
    seq(|leaves|, i requires 0 <= i < |leaves| => Leaf(leaves[i]))
  }

  // Parent k of a layer, with the odd last node standing in for its missing sibling.
  function Parent(layer: seq<Hash>, k: nat): Hash
    requires 2 * k < |layer|
  {
    Node(layer[2 * k], if 2 * k + 1 < |layer| then layer[2 * k + 1] else layer[2 * k])
  }

  function Up(layer: seq<Hash>): seq<Hash> {
    seq((|layer| + 1) / 2, k requires 0 <= k < (|layer| + 1) / 2 => Parent(layer, k))
  }

  function RootOf(layer: seq<Hash>): Hash
    requires layer != []
    decreases |layer|
  {
    if |layer| == 1 then layer[0] else RootOf(Up(layer))
  }

  function Root(leaves: seq<Hash>): Hash {
    if leaves == [] then Sha3(EmptyTreePre) else RootOf(LeafLayer(leaves))
  }

  // merkle_root as the program runs it: duplicate the odd last node in place,
  // then replace the layer by its pairs.
  method MerkleRoot(leaves: seq<Hash>) returns (root: Hash)
    ensures root == Root(leaves)
  {
    if |leaves| == 0 {
      return Sha3(EmptyTreePre);
    }
    var layer: seq<Hash> := [];
    for i := 0 to |leaves|
      invariant layer == LeafLayer(leaves)[..i]
    {
      layer := layer + [Leaf(leaves[i])];
    }
    assert layer == LeafLayer(leaves);
    while |layer| > 1
      invariant layer != []
      invariant RootOf(layer) == Root(leaves)
      decreases |layer|
    {
      ghost var before := layer;
      if |layer| % 2 == 1 {
        layer := layer + [layer[|layer| - 1]];
      }
      var next: seq<Hash> := [];
      for k := 0 to |layer| / 2
        invariant next == Up(before)[..k]
      {
        next := next + [Node(layer[2 * k], layer[2 * k + 1])];
      }
      layer := next;
      assert layer == Up(before);
    }
    root := layer[0];
  }

  // ----- the tree, from the top -----

  // 2 to the d.
  function Power(d: nat): (n: nat)
    ensures n > 0
  {
    if d == 0 then 1 else 2 * Power(d - 1)
  }

  // The root of the tree of the given depth over up to 2^depth nodes: the first half
  // is full, and a tree with no second half is paired with itself.
  function TopDown(nodes: seq<Hash>, depth: nat): Hash
    requires 0 < |nodes| <= Power(depth)
    decreases depth
  {
    if depth == 0 then nodes[0]
    else
      var half := Power(depth - 1);
      if |nodes| <= half then
        var side := TopDown(nodes, depth - 1);
        Sha3(NodePre(side, side))
      else Sha3(NodePre(TopDown(nodes[..half], depth - 1), TopDown(nodes[half..], depth - 1)))
  }

  lemma UpSize(layer: seq<Hash>)
    ensures |Up(layer)| == (|layer| + 1) / 2
  {
  }

  lemma UpPair(layer: seq<Hash>)
    requires 1 <= |layer| <= 2
    ensures Up(layer) == [Sha3(NodePre(layer[0], layer[|layer| - 1]))]
  {
  }

  lemma UpHalves(layer: seq<Hash>, n: nat)
    requires 2 * n < |layer|
    ensures n < |Up(layer)| && Up(layer[..2 * n]) == Up(layer)[..n] && Up(layer[2 * n..]) == Up(layer)[n..]
  {
    hide Node;
  }

  // Pairing up a layer takes one level off the tree.
  lemma {:induction false} OneLevelUp(layer: seq<Hash>, d: nat)
    requires 0 < |layer| <= Power(d + 1)
    ensures 0 < |Up(layer)| <= Power(d)
    ensures TopDown(layer, d + 1) == TopDown(Up(layer), d)
  {
    hide Up;
    UpSize(layer);
    if d > 0 {
      var half := Power(d);
      if |layer| <= half {
        OneLevelUp(layer, d - 1);
      } else {
        OneLevelUp(layer[..half], d - 1);
        OneLevelUp(layer[half..], d - 1);
        UpHalves(layer, Power(d - 1));
      }
    } else {
      UpPair(layer);
    }
  }

  lemma {:induction false} RootOfTopDown(layer: seq<Hash>, d: nat)
    requires 0 < |layer| <= Power(d) && (d > 0 ==> |layer| > Power(d - 1))
    ensures RootOf(layer) == TopDown(layer, d)
    decreases d
  {
    if d > 0 {
      OneLevelUp(layer, d - 1);
      RootOfTopDown(Up(layer), d - 1);
    }
  }

  // The layers, built from the leaves up, come to the tree as read from its root down,
  // of the least depth that holds the leaves.
  lemma RootTopDown(leaves: seq<Hash>, d: nat)
    requires 0 < |leaves| <= Power(d) && (d > 0 ==> |leaves| > Power(d - 1))
    ensures Root(leaves) == TopDown(seq(|leaves|, i requires 0 <= i < |leaves| => Sha3(LeafPre(leaves[i]))), d)
  {
    hide TopDown, RootOf;
    RootOfTopDown(LeafLayer(leaves), d);
    assert LeafLayer(leaves) == seq(|leaves|, i requires 0 <= i < |leaves| => Sha3(LeafPre(leaves[i])));
  }

  // ----- injectivity -----

  predicate Distinct(s: seq<Hash>) {
    forall i, j :: 0 <= i < j < |s| ==> s[i] != s[j]
  }

  ghost predicate AtDepth(layer: seq<Hash>, d: nat) {
    forall h :: h in layer ==> Depth(h) == d
  }

  lemma UpDepth(layer: seq<Hash>, d: nat)
    requires AtDepth(layer, d)
    ensures AtDepth(Up(layer), d + 1)
  {
    forall k | 0 <= k < |Up(layer)|
      ensures Depth(Up(layer)[k]) == d + 1
    {
      assert layer[2 * k] in layer;
    }
  }

  lemma {:induction false} RootDepth(layer: seq<Hash>, d: nat)
    requires layer != [] && AtDepth(layer, d)
    ensures Depth(RootOf(layer)) >= d
    ensures Depth(RootOf(layer)) == d <==> |layer| == 1
    decreases |layer|
  {
    if |layer| > 1 {
      UpDepth(layer, d);
      RootDepth(Up(layer), d + 1);
    }
  }

  lemma UpDistinct(layer: seq<Hash>)
    requires Distinct(layer)
    ensures Distinct(Up(layer))
  {
  }

  // A longer layer with the same parents repeats its last node.
  lemma UpLonger(a: seq<Hash>, b: seq<Hash>)
    requires Up(a) == Up(b) && |a| < |b|
    ensures |b| == |a| + 1 && |a| >= 1 && b[|a|] == b[|a| - 1]
  {
    var k := |Up(a)| - 1;
    assert Parent(a, k) == Up(a)[k] == Up(b)[k] == Parent(b, k);
  }

  lemma UpInjective(a: seq<Hash>, b: seq<Hash>)
    requires Up(a) == Up(b)
    requires |a| == |b| || (Distinct(a) && Distinct(b))
    ensures a == b
  {
    if |a| < |b| {
      UpLonger(a, b);
    } else if |b| < |a| {
      UpLonger(b, a);
    } else {
      forall i | 0 <= i < |a|
        ensures a[i] == b[i]
      {
        assert Parent(a, i / 2) == Up(a)[i / 2] == Up(b)[i / 2] == Parent(b, i / 2);
      }
    }
  }

  lemma {:induction false} RootOfInjective(a: seq<Hash>, b: seq<Hash>, d: nat)
    requires a != [] && b != [] && AtDepth(a, d) && AtDepth(b, d)
    requires |a| == |b| || (Distinct(a) && Distinct(b))
    requires RootOf(a) == RootOf(b)
    ensures a == b
    decreases |a|
  {
    RootDepth(a, d);
    RootDepth(b, d);
    if |a| > 1 {
      UpDepth(a, d);
      UpDepth(b, d);
      if |a| != |b| {
        UpDistinct(a);
        UpDistinct(b);
      }
      RootOfInjective(Up(a), Up(b), d + 1);
      UpInjective(a, b);
    }
  }

  // A root determines its leaves, among duplicate-free lists of any lengths and
  // among lists of one length.
  lemma RootInjective(a: seq<Hash>, b: seq<Hash>)
    requires |a| == |b| || (Distinct(a) && Distinct(b))
    requires Root(a) == Root(b)
    ensures a == b
  {
    if a != [] {
      RootNotEmptyTree(a);
    }
    if b != [] {
      RootNotEmptyTree(b);
    }
    if a != [] && b != [] {
      RootOfInjective(LeafLayer(a), LeafLayer(b), 0);
      assert forall i :: 0 <= i < |a| ==> LeafLayer(a)[i] == Leaf(a[i]);
      assert forall i :: 0 <= i < |b| ==> LeafLayer(b)[i] == Leaf(b[i]);
    }
  }

  lemma {:induction false} RootOfShape(layer: seq<Hash>)
    requires layer != []
    ensures RootOf(layer) == layer[0] || (RootOf(layer).Sha3? && RootOf(layer).message.NodePre?)
    decreases |layer|
  {
    if |layer| > 1 {
      RootOfShape(Up(layer));
    }
  }

  lemma RootNotEmptyTree(a: seq<Hash>)
    requires a != []
    ensures Root(a) != Sha3(EmptyTreePre)
  {
    RootOfShape(LeafLayer(a));
  }

  // Without the duplicate guard roots do collide: an odd list and the same list
  // with its last leaf repeated.
  lemma OddListCollides(a: seq<Hash>)
    requires |a| % 2 == 1 && |a| > 1
    ensures Root(a) == Root(a + [a[|a| - 1]])
  {
    var b := a + [a[|a| - 1]];
    assert Up(LeafLayer(a)) == Up(LeafLayer(b));
  }

  lemma {:induction false} RootOfFirst(a: seq<Hash>, b: seq<Hash>, d: nat)
    requires a != [] && b != [] && AtDepth(a, d) && AtDepth(b, d) && RootOf(a) == RootOf(b)
    ensures a[0] == b[0]
    decreases |a|
  {
    RootDepth(a, d);
    RootDepth(b, d);
    if |a| > 1 {
      UpDepth(a, d);
      UpDepth(b, d);
      RootOfFirst(Up(a), Up(b), d + 1);
      assert Up(a)[0] == Parent(a, 0) && Up(b)[0] == Parent(b, 0);
    }
  }

  // Whatever else collides, a root determines whether there are leaves and the first one.
  lemma RootFirst(a: seq<Hash>, b: seq<Hash>)
    requires Root(a) == Root(b)
    ensures a == [] <==> b == []
    ensures a != [] && b != [] ==> a[0] == b[0]
  {
    if a != [] {
      RootNotEmptyTree(a);
    }
    if b != [] {
      RootNotEmptyTree(b);
    }
    if a != [] && b != [] {
      RootOfFirst(LeafLayer(a), LeafLayer(b), 0);
      assert LeafLayer(a)[0] == Leaf(a[0]) && LeafLayer(b)[0] == Leaf(b[0]);
    }
  }
}
