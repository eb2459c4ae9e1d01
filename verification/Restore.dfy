// Starting from the saved blocks of an active chain.
module Restore {
  import opened Prelude
  import opened Tx
  import opened Ledger
  import opened Tree
  import opened TreeProofs
  import opened Reload
  import opened Chain
  import opened Sync

  datatype StartError = EmptyFile | InvalidGenesis(reason: Error) | InvalidBlock(reason: Error)

  // A fresh state from the first block, then every other block in turn; the first
  // refusal refuses the file.
  method Start(p: Params, blocks: seq<Blk>) returns (r: Result<ChainState, StartError>)
    requires p.Valid()
    ensures r.Ok? ==>
              && fresh(r.value) && r.value.Valid() && r.value.params == p
              && blocks != [] && NewTree(p, blocks[0]).Ok? && r.value.View() == Run(p, blocks[0], blocks[1..])
              && forall i :: !RefusedAt(p, blocks, i)
    ensures r.Err? ==>
              match r.error
              case EmptyFile => blocks == []
              case InvalidGenesis(e) => blocks != [] && NewTree(p, blocks[0]) == Err(e)
              case InvalidBlock(e) => exists i :: FirstRefused(p, blocks, i, e)
  {
    hide TreeInv, ApplyChain, ActiveChain, ActivePath, NewTree, AddBlock;
    if blocks == [] {
      return Err(EmptyFile);
    }
    var made := ChainState.New(p, blocks[0]);
    if made.Err? {
      return Err(InvalidGenesis(made.error));
    }
    var state := made.value;
    assert blocks[1..1] == [];
    for i := 1 to |blocks|
      invariant fresh(state) && state.Valid() && state.params == p && NewTree(p, blocks[0]).Ok?
      invariant state.View() == Run(p, blocks[0], blocks[1..i])
      invariant forall j :: j < i ==> !RefusedAt(p, blocks, j)
    {
      assert blocks[1..i + 1][..i - 1] == blocks[1..i];
      var added := state.AddBlock(blocks[i]);
      if added.Err? {
        assert FirstRefused(p, blocks, i, added.error);
        return Err(InvalidBlock(added.error));
      }
    }
    assert blocks[1..|blocks|] == blocks[1..];
    return Ok(state);
  }

  ghost predicate RefusedAt(p: Params, blocks: seq<Blk>, i: int)
    requires p.Valid()
  {
    && 1 <= i < |blocks| && NewTree(p, blocks[0]).Ok?
    && AddBlock(p, Run(p, blocks[0], blocks[1..i]), blocks[i]).1.Err?
  }

  // Block i is the first one refused, for this reason.
  ghost predicate FirstRefused(p: Params, blocks: seq<Blk>, i: int, e: Error)
    requires p.Valid()
  {
    && RefusedAt(p, blocks, i) && AddBlock(p, Run(p, blocks[0], blocks[1..i]), blocks[i]).1 == Err(e)
    && forall j :: j < i ==> !RefusedAt(p, blocks, j)
  }

  // The blocks of the active path.
  method ActiveBlocks(state: ChainState) returns (blocks: seq<Blk>)
    requires state.Valid()
    ensures blocks == ActiveChain(state.params, state.View())
  {
    hide TreeInv, ApplyChain, ActiveChain, ActivePath;
    PathStored(state.params, state.View());
    blocks := [];
    for i := 0 to |state.active|
      invariant |blocks| == i
      invariant forall j :: 0 <= j < i ==> blocks[j] == ActiveChain(state.params, state.View())[j]
    {
      blocks := blocks + [state.all[state.active[i]]];
    }
  }

  // Saving and starting again always works, and gives back the active path, the
  // unspent outputs and the supply.
  method Restart(state: ChainState) returns (r: Result<ChainState, StartError>)
    requires state.Valid()
    ensures r.Ok? && fresh(r.value) && r.value.Valid()
    ensures r.value.active == state.active && r.value.utxos == state.utxos && r.value.supply == state.supply
  {
    hide TreeInv, ApplyChain, ActiveChain, ActivePath, NewTree, AddBlock;
    var blocks := ActiveBlocks(state);
    r := Start(state.params, blocks);
    OwnBlocksStart(state.params, state.View(), blocks);
  }

  lemma OwnBlocksStart(p: Params, t: BlockTree, blocks: seq<Blk>)
    requires p.Valid() && TreeInv(p, t) && blocks == ActiveChain(p, t)
    ensures blocks != [] && NewTree(p, blocks[0]).Ok?
    ensures forall i :: !RefusedAt(p, blocks, i)
    ensures ActivePath(p, Run(p, blocks[0], blocks[1..])) == ActivePath(p, t)
    ensures ActiveChain(p, Run(p, blocks[0], blocks[1..])) == ActiveChain(p, t)
  {
    hide TreeInv, ApplyChain, ActiveChain, ActivePath, NewTree, AddBlock, HoldsPrefix;
    PathStart(p, t);
    PathStored(p, t);
    TipAtEnd(p, t);
    var n := |blocks| - 1;
    ReloadRebuilds(p, t, n);
    assert blocks[1..n + 1] == blocks[1..];
    PrefixActive(p, t, Run(p, blocks[0], blocks[1..]), n);
    assert ActivePath(p, t)[..n + 1] == ActivePath(p, t);
    forall i | 1 <= i < |blocks|
      ensures !RefusedAt(p, blocks, i)
    {
      ReloadRebuilds(p, t, i - 1);
    }
  }

  lemma TipAtEnd(p: Params, t: BlockTree)
    requires p.Valid() && TreeInv(p, t)
    ensures ActivePath(p, t) != []
  {
    hide NodeInv, ApplyChain, Rooted;
  }
}
