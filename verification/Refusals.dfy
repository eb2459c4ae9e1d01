// What a refusal says: the error a transaction or a block is refused with names a
// rule it breaks, and everything checked before that rule holds.
module Refusals {
  import opened Prelude
  import opened Tx
  import opened Emission
  import opened LittleEndian
  import opened Ledger
  import opened Conservation
  import opened BlockRules

  // ----- one transaction -----

  // Input i spends an output it may spend, and the inputs so far fit 64 bits.
  ghost predicate InputHolds(p: Params, tx: Txn, height: nat, u: UtxoMap, i: nat)
    requires i < |tx.body.inputs| == |tx.witnesses|
  {
    && tx.body.inputs[i] in u
    && MaySpend(p, tx, height, i, u[tx.body.inputs[i]])
    && (forall op :: op in tx.body.inputs[..i + 1] ==> op in u)
    && InputSum(u, tx.body.inputs[..i + 1]) < TWO_64
  }

  // The rule that input i breaks: no such output, one that is too young, locked for
  // now, locked to another key or not signed for, or a sum beyond 64 bits.
  ghost predicate InputFault(p: Params, tx: Txn, height: nat, u: UtxoMap, i: nat, e: Error)
    requires i < |tx.body.inputs| == |tx.witnesses|
  {
    var op, w := tx.body.inputs[i], tx.witnesses[i];
    if op !in u then e == UnknownInput(op)
    else
      var lock := u[op].output.lock;
      var mature := u[op].coinbase ==> u[op].height + p.coinbaseMaturity <= height;
      var unlocked := lock.Timelock? ==> lock.height <= height;
      var keyed := lock.pkh == p.pubkeyHash(w.pubkey);
      if !mature then e == ImmatureCoinbase
      else if !unlocked then e == Timelocked(lock.height)
      else if !keyed then e == WrongPubkey
      else if !p.verify(lock.scheme, w.pubkey, Sighash(tx.body, i % TWO_32, u[op].output), w.signature) then e == BadSignature
      else
        && e == Overflow && (forall o :: o in tx.body.inputs[..i + 1] ==> o in u)
        && InputSum(u, tx.body.inputs[..i + 1]) >= TWO_64
  }

  // The first input that breaks a rule decides the error.
  lemma {:induction false} FirstFault(p: Params, tx: Txn, height: nat, u: UtxoMap, n: nat) returns (i: nat)
    requires n <= |tx.body.inputs| == |tx.witnesses|
    requires CheckInputs(p, tx, height, u, n).Err?
    ensures i < n && InputFault(p, tx, height, u, i, CheckInputs(p, tx, height, u, n).error)
    ensures forall j :: 0 <= j < i ==> InputHolds(p, tx, height, u, j)
  {
    hide InputHolds, InputSum;
    if CheckInputs(p, tx, height, u, n - 1).Err? {
      i := FirstFault(p, tx, height, u, n - 1);
    } else {
      i := n - 1;
      InputsHold(p, tx, height, u, n - 1);
      InputsFound(p, tx, height, u, n - 1);
      SumSnoc(u, tx.body.inputs, n - 1);
    }
  }

  lemma SumSnoc(u: UtxoMap, inputs: seq<Op>, n: nat)
    requires n < |inputs| && forall op :: op in inputs[..n] ==> op in u
    ensures inputs[n] in u ==>
              && (forall op :: op in inputs[..n + 1] ==> op in u)
              && InputSum(u, inputs[..n + 1]) == InputSum(u, inputs[..n]) + u[inputs[n]].output.amount
  {
    assert inputs[..n + 1] == inputs[..n] + [inputs[n]];
  }

  lemma {:induction false} InputsHold(p: Params, tx: Txn, height: nat, u: UtxoMap, n: nat)
    requires n <= |tx.body.inputs| == |tx.witnesses| && CheckInputs(p, tx, height, u, n).Ok?
    ensures forall j :: 0 <= j < n ==> InputHolds(p, tx, height, u, j)
  {
    hide InputSum;
    if n > 0 {
      InputsHold(p, tx, height, u, n - 1);
      InputsFound(p, tx, height, u, n);
      InputsBounded(p, tx, height, u, n);
      assert tx.body.inputs[..n][n - 1] == tx.body.inputs[n - 1];
    }
  }

  lemma FaultBreaks(p: Params, tx: Txn, height: nat, u: UtxoMap, i: nat, e: Error)
    requires i < |tx.body.inputs| == |tx.witnesses| && InputFault(p, tx, height, u, i, e)
    ensures !InputHolds(p, tx, height, u, i)
  {
    hide InputSum;
  }

  // The rule that output i breaks: an amount of zero, or a sum beyond 64 bits.
  ghost predicate OutputFault(outs: seq<TxOutput>, i: nat, e: Error)
    requires i < |outs|
  {
    && (forall j :: 0 <= j < i ==> outs[j].amount > 0) && OutputSum(outs[..i]) < TWO_64
    && if outs[i].amount == 0 then e == ZeroOutput else e == Overflow && OutputSum(outs[..i + 1]) >= TWO_64
  }

  lemma {:induction false} FirstBadOutput(outs: seq<TxOutput>, n: nat) returns (i: nat)
    requires n <= |outs| && CheckOutputs(outs, n).Err?
    ensures i < n && OutputFault(outs, i, CheckOutputs(outs, n).error)
  {
    if CheckOutputs(outs, n - 1).Err? {
      i := FirstBadOutput(outs, n - 1);
    } else {
      i := n - 1;
      OutputsChecked(outs, n - 1);
      assert outs[..n][..n - 1] == outs[..n - 1];
    }
  }

  // An input that some later input repeats.
  ghost predicate Repeated(inputs: seq<Op>, op: Op) {
    exists i, j :: 0 <= i < j < |inputs| && inputs[i] == op && inputs[j] == op
  }

  lemma {:induction false} RepeatFound(inputs: seq<Op>, n: nat)
    requires n <= |inputs| && FirstRepeat(inputs, n).Some?
    ensures Repeated(inputs, FirstRepeat(inputs, n).value)
  {
    if FirstRepeat(inputs, n - 1).Some? {
      RepeatFound(inputs, n - 1);
    } else {
      var i :| 0 <= i < n - 1 && inputs[..n - 1][i] == inputs[n - 1];
      assert inputs[i] == inputs[n - 1];
    }
  }

  // The first rule of its shape a transaction breaks.
  ghost predicate ShapeFault(tx: Txn, e: Error) {
    if tx.body.inputs == [] then e == NoInputs
    else if tx.body.outputs == [] then e == NoOutputs
    else if tx.body.coinbaseData != [] then e == BadCoinbaseData
    else if |tx.witnesses| != |tx.body.inputs| then e == WitnessMismatch
    else !AllDistinct(tx.body.inputs) && e.UnknownInput? && Repeated(tx.body.inputs, e.outpoint)
  }

  lemma ShapeRefused(tx: Txn)
    requires CheckShape(tx).Err?
    ensures ShapeFault(tx, CheckShape(tx).error)
  {
    hide FirstRepeat;
    var ins := tx.body.inputs;
    if FirstRepeat(ins, |ins|).Some? {
      RepeatFound(ins, |ins|);
    }
  }

  lemma ShapePassed(tx: Txn)
    requires CheckShape(tx).Ok?
    ensures tx.body.inputs != [] && tx.body.outputs != [] && tx.body.coinbaseData == []
    ensures |tx.witnesses| == |tx.body.inputs| && AllDistinct(tx.body.inputs)
  {
    hide FirstRepeat;
    var ins := tx.body.inputs;
    NoRepeat(ins, |ins|);
    assert ins[..|ins|] == ins;
  }

  ghost predicate BadInput(p: Params, tx: Txn, height: nat, u: UtxoMap, e: Error)
    requires |tx.witnesses| == |tx.body.inputs|
  {
    exists i :: 0 <= i < |tx.body.inputs| && InputFault(p, tx, height, u, i, e)
                && forall j :: 0 <= j < i ==> InputHolds(p, tx, height, u, j)
  }

  ghost predicate BadOutput(outs: seq<TxOutput>, e: Error) {
    exists i :: 0 <= i < |outs| && OutputFault(outs, i, e)
  }

  // Why a transaction is refused: its shape, or else its first bad input, or else its
  // first bad output, or else outputs beyond its inputs.
  ghost predicate TxFault(p: Params, tx: Txn, height: nat, u: UtxoMap, e: Error) {
    var ins, outs := tx.body.inputs, tx.body.outputs;
    if |tx.witnesses| != |ins| || ShapeFault(tx, e) then ShapeFault(tx, e)
    else if forall i :: 0 <= i < |ins| ==> InputHolds(p, tx, height, u, i) then
      BadOutput(outs, e)
      || (e == InsufficientInputs && (forall op :: op in ins ==> op in u) && InputSum(u, ins) < OutputSum(outs))
    else BadInput(p, tx, height, u, e)
  }

  lemma TxRefused(p: Params, tx: Txn, height: nat, u: UtxoMap)
    requires CheckTx(p, tx, height, u).Err?
    ensures TxFault(p, tx, height, u, CheckTx(p, tx, height, u).error)
  {
    hide InputFault, InputHolds, OutputFault, ShapeFault, CheckShape, CheckInputs, CheckOutputs, InputSum, OutputSum;
    var ins, outs := tx.body.inputs, tx.body.outputs;
    if CheckShape(tx).Err? {
      ShapeRefused(tx);
    } else {
      ShapePassed(tx);
      assert ins[..|ins|] == ins && outs[..|outs|] == outs;
      if CheckInputs(p, tx, height, u, |ins|).Err? {
        var i := FirstFault(p, tx, height, u, |ins|);
        FaultBreaks(p, tx, height, u, i, CheckInputs(p, tx, height, u, |ins|).error);
      } else {
        InputsHold(p, tx, height, u, |ins|);
        InputsFound(p, tx, height, u, |ins|);
        if CheckOutputs(outs, |outs|).Err? {
          var i := FirstBadOutput(outs, |outs|);
        } else {
          OutputsChecked(outs, |outs|);
        }
      }
    }
  }

  // ----- one block -----

  // The first spend that breaks a rule decides the error, or the fees leave 64 bits.
  ghost predicate SpendFault(p: Params, u: UtxoMap, txs: seq<Txn>, height: nat, k: nat, e: Error)
    requires k < |txs|
  {
    && (forall j :: 0 <= j < k ==> SpendHolds(p, u, txs, height, j))
    && if txs[k].body.inputs == [] then e == ExtraCoinbase
       else if SpendHolds(p, u, txs, height, k) then e == Overflow && Fees(p, u, txs, height, k + 1) >= TWO_64
       else TxFault(p, txs[k], height, After(u, txs, height, k), e)
  }

  lemma {:induction false} FirstBadSpend(p: Params, u: UtxoMap, txs: seq<Txn>, height: nat, n: nat) returns (k: nat)
    requires n <= |txs| && ApplyTxs(p, u, txs, height, n).Err?
    ensures k < n && SpendFault(p, u, txs, height, k, ApplyTxs(p, u, txs, height, n).error)
  {
    hide CheckTx, ApplyTx, InputSum, OutputSum, SpendRules, TxFault;
    if ApplyTxs(p, u, txs, height, n - 1).Err? {
      k := FirstBadSpend(p, u, txs, height, n - 1);
    } else {
      k := n - 1;
      SpendsMeaning(p, u, txs, height, n - 1);
      var tx, before := txs[k], After(u, txs, height, k);
      CheckTxMeaning(p, tx, height, before);
      if CheckTx(p, tx, height, before).Err? {
        TxRefused(p, tx, height, before);
      }
    }
  }

  ghost predicate BadSpend(p: Params, u: UtxoMap, txs: seq<Txn>, height: nat, e: Error) {
    exists k :: 0 <= k < |txs| && SpendFault(p, u, txs, height, k, e)
  }

  // Why a block is refused, in the order of the checks.
  ghost predicate BlockFault(p: Params, u: UtxoMap, b: Blk, height: nat, e: Error) {
    if b.transactions == [] || b.transactions[0].body.inputs != [] then e == MissingCoinbase
    else
      var cb, spends := b.transactions[0], b.transactions[1..];
      var outs, data := cb.body.outputs, cb.body.coinbaseData;
      if cb.witnesses != [] then e == WitnessMismatch
      else if outs == [] then e == NoOutputs
      else if !(8 <= |data| <= 108) || LeValue(data[..8]) != height then e == BadCoinbaseData
      else if !DistinctTxids(b.transactions) then e == DuplicateTx
      else
        if forall k :: 0 <= k < |spends| ==> SpendHolds(p, u, spends, height, k) then
          var allowed := BlockReward(height) + Fees(p, u, spends, height, |spends|);
          || (e == Overflow && allowed >= TWO_64)
          || BadOutput(outs, e)
          || (e == CoinbaseOverpay && allowed < OutputSum(outs))
        else BadSpend(p, u, spends, height, e)
  }

  lemma {:induction false} FeesGrow(p: Params, u: UtxoMap, txs: seq<Txn>, height: nat, m: nat, n: nat)
    requires m <= n <= |txs| && forall k :: 0 <= k < n ==> SpendHolds(p, u, txs, height, k)
    ensures Fees(p, u, txs, height, m) <= Fees(p, u, txs, height, n)
  {
    hide SpendHolds, InputSum, OutputSum, ApplyTx;
    if m < n {
      FeesGrow(p, u, txs, height, m, n - 1);
      SpendCovers(p, u, txs, height, n - 1);
    }
  }

  lemma SpendCovers(p: Params, u: UtxoMap, txs: seq<Txn>, height: nat, k: nat)
    requires k < |txs| && SpendHolds(p, u, txs, height, k)
    ensures txs[k].body.inputs != []
    ensures forall op :: op in txs[k].body.inputs ==> op in After(u, txs, height, k)
    ensures OutputSum(txs[k].body.outputs) <= InputSum(After(u, txs, height, k), txs[k].body.inputs)
  {
    hide MaySpend, OutputSum, InputSum, After;
  }

  // A spend that is refused though it obeys its rules is the one whose fee overflows.
  lemma SpendBreaks(p: Params, u: UtxoMap, txs: seq<Txn>, height: nat, k: nat, e: Error)
    requires k < |txs| && SpendFault(p, u, txs, height, k, e)
    requires forall j :: 0 <= j < |txs| ==> SpendHolds(p, u, txs, height, j)
    ensures e == Overflow && Fees(p, u, txs, height, |txs|) >= TWO_64
  {
    hide SpendHolds, TxFault, Fees;
    SpendCovers(p, u, txs, height, k);
    FeesGrow(p, u, txs, height, k + 1, |txs|);
  }

  lemma BlockRefused(p: Params, u: UtxoMap, b: Blk, height: nat)
    requires ValidateBlock(p, u, b, height).Err?
    ensures BlockFault(p, u, b, height, ValidateBlock(p, u, b, height).error)
  {
    hide ApplyTxs, Create, OutputSum, SpendHolds, Fees, After, BlockReward, DistinctTxids, CheckOutputs, SpendFault, OutputFault, LeValue;
    if CheckCoinbase(b.transactions, height).Ok? && DistinctTxids(b.transactions) {
      var spends, outs := b.transactions[1..], b.transactions[0].body.outputs;
      if ApplyTxs(p, u, spends, height, |spends|).Err? {
        var k := FirstBadSpend(p, u, spends, height, |spends|);
        if forall j :: 0 <= j < |spends| ==> SpendHolds(p, u, spends, height, j) {
          SpendBreaks(p, u, spends, height, k, ApplyTxs(p, u, spends, height, |spends|).error);
        }
      } else {
        SpendsMeaning(p, u, spends, height, |spends|);
        assert outs[..|outs|] == outs;
        if CheckOutputs(outs, |outs|).Err? {
          var i := FirstBadOutput(outs, |outs|);
        } else {
          OutputsChecked(outs, |outs|);
        }
      }
    }
  }
}
