// Transaction-level validation: what one block does to the set of unspent
// outputs, and what a whole chain does from nothing.
module Ledger {
  import opened Prelude
  import opened Tx
  import opened Emission
  import opened LittleEndian

  datatype Error =
    | UnknownParent
    | Duplicate
    | WrongBits(expected: U32, got: U32)
    | BadBits
    | BadPow
    | TimeTooOld
    | TooLarge
    | BadMerkleRoot
    | BadWitnessRoot
    | MissingCoinbase
    | ExtraCoinbase
    | BadCoinbaseData
    | CoinbaseOverpay
    | NoInputs
    | NoOutputs
    | DuplicateTx
    | UnknownInput(outpoint: Op)
    | ImmatureCoinbase
    | Timelocked(until: U64)
    | WitnessMismatch
    | WrongPubkey
    | BadSignature
    | InsufficientInputs
    | Overflow
    | ZeroOutput
    | BadGenesis

  // Consensus parameters.  The cryptographic primitives are arbitrary functions:
  // nothing below depends on how signatures or the proof-of-work hash behave.
  datatype Params = Params(
    blockInterval: U64,
    asertTau: U64,
    powLimit: nat,
    coinbaseMaturity: U64,
    maxBlockSize: nat,
    epochLength: U64,
    pubkeyHash: Bytes -> Pkh,
    verify: (SigScheme, Bytes, Hash, Bytes) -> bool,
    powHash: (nat, Hash, U64) -> nat)
  {
    ghost predicate Valid() {
      && 1 <= powLimit < TWO_256 / 2
      && asertTau > 0
      && blockInterval < 0x4000_0000_0000
      && epochLength > 0
      && maxBlockSize < TWO_32
    }
  }

  datatype Utxo = Utxo(output: TxOutput, height: nat, coinbase: bool)

  type UtxoMap = map<Op, Utxo>

  const MAX_COINBASE_EXTRA: int := 100

  // ----- one transaction -----

  function CheckedAdd(a: nat, b: nat): Result<nat, Error> {
    if a + b < TWO_64 then Ok(a + b) else Err(Overflow)
  }

  // The first input among the first n that repeats an earlier one.
  function FirstRepeat(inputs: seq<Op>, n: nat): Option<Op>
    requires n <= |inputs|
  {
    if n == 0 then None
    else
      var earlier := FirstRepeat(inputs, n - 1);
      if earlier.Some? then earlier
      else if inputs[n - 1] in inputs[..n - 1] then Some(inputs[n - 1])
      else None
  }

  // The checks on input i against the output it spends.
  function CheckInput(p: Params, tx: Txn, height: nat, i: nat, found: Option<Utxo>): Result<U64, Error>
    requires i < |tx.body.inputs| == |tx.witnesses|
  {
    if found.None? then Err(UnknownInput(tx.body.inputs[i]))
    else
      var utxo := found.value;
      if utxo.coinbase && height < utxo.height + p.coinbaseMaturity then Err(ImmatureCoinbase)
      else if utxo.output.lock.Timelock? && height < utxo.output.lock.height then Err(Timelocked(utxo.output.lock.height))
      else
        var w := tx.witnesses[i];
        if p.pubkeyHash(w.pubkey) != utxo.output.lock.pkh then Err(WrongPubkey)
        else if !p.verify(utxo.output.lock.scheme, w.pubkey, Sighash(tx.body, i % TWO_32, utxo.output), w.signature)
        then Err(BadSignature)
        else Ok(utxo.output.amount)
  }

  function Lookup(u: UtxoMap, op: Op): Option<Utxo> {
    if op in u then Some(u[op]) else None
  }

  function CheckInputs(p: Params, tx: Txn, height: nat, u: UtxoMap, n: nat): Result<nat, Error>
    requires n <= |tx.body.inputs| == |tx.witnesses|
  {
    if n == 0 then Ok(0)
    else
      var total :- CheckInputs(p, tx, height, u, n - 1);
      var amount :- CheckInput(p, tx, height, n - 1, Lookup(u, tx.body.inputs[n - 1]));
      CheckedAdd(total, amount)
  }

  function CheckOutputs(outs: seq<TxOutput>, n: nat): Result<nat, Error>
    requires n <= |outs|
  {
    if n == 0 then Ok(0)
    else
      var total :- CheckOutputs(outs, n - 1);
      if outs[n - 1].amount == 0 then Err(ZeroOutput) else CheckedAdd(total, outs[n - 1].amount)
  }

  function CheckShape(tx: Txn): Result<(), Error> {
    if tx.body.inputs == [] then Err(NoInputs)
    else if tx.body.outputs == [] then Err(NoOutputs)
    else if tx.body.coinbaseData != [] then Err(BadCoinbaseData)
    else if |tx.witnesses| != |tx.body.inputs| then Err(WitnessMismatch)
    else
      var repeat := FirstRepeat(tx.body.inputs, |tx.body.inputs|);
      if repeat.Some? then Err(UnknownInput(repeat.value)) else Ok(())
  }

  // The fee of a valid transaction, or the first rule it breaks.
  function CheckTx(p: Params, tx: Txn, height: nat, u: UtxoMap): Result<nat, Error> {
    var _ :- CheckShape(tx);
    var inTotal :- CheckInputs(p, tx, height, u, |tx.body.inputs|);
    var outTotal :- CheckOutputs(tx.body.outputs, |tx.body.outputs|);
    if inTotal < outTotal then Err(InsufficientInputs) else Ok(inTotal - outTotal)
  }

  // ----- one block -----

  function Spend(u: UtxoMap, inputs: seq<Op>): UtxoMap {
    map op | op in u && op !in inputs :: u[op]
  }

  // Create the first n outputs of a transaction; output numbers are 32-bit.
  function Create(u: UtxoMap, txid: Hash, outs: seq<TxOutput>, height: nat, coinbase: bool, n: nat): UtxoMap
    requires n <= |outs|
  {
    if n == 0 then u
    else
      Create(u, txid, outs, height, coinbase, n - 1)
      [OutPoint(txid, (n - 1) % TWO_32) := Utxo(outs[n - 1], height, coinbase)]
  }

  function ApplyTx(u: UtxoMap, tx: Txn, height: nat, coinbase: bool): UtxoMap {
    Create(Spend(u, tx.body.inputs), Txid(tx), tx.body.outputs, height, coinbase, |tx.body.outputs|)
  }

  datatype Progress = Progress(utxos: UtxoMap, fees: nat)

  // Validate and apply the first n of the given (non-coinbase) transactions.
  function ApplyTxs(p: Params, u: UtxoMap, txs: seq<Txn>, height: nat, n: nat): Result<Progress, Error>
    requires n <= |txs|
  {
    if n == 0 then Ok(Progress(u, 0))
    else
      var before :- ApplyTxs(p, u, txs, height, n - 1);
      var tx := txs[n - 1];
      if tx.body.IsCoinbase() then Err(ExtraCoinbase)
      else
        var fee :- CheckTx(p, tx, height, before.utxos);
        var fees :- CheckedAdd(before.fees, fee);
        Ok(Progress(ApplyTx(before.utxos, tx, height, false), fees))
  }

  function CheckCoinbase(txs: seq<Txn>, height: nat): Result<(), Error> {
    if txs == [] || !txs[0].body.IsCoinbase() then Err(MissingCoinbase)
    else if txs[0].witnesses != [] then Err(WitnessMismatch)
    else if txs[0].body.outputs == [] then Err(NoOutputs)
    else
      var data := txs[0].body.coinbaseData;
      if |data| < 8 || |data| > 8 + MAX_COINBASE_EXTRA || LeValue(data[..8]) != height then Err(BadCoinbaseData)
      else Ok(())
  }

  predicate DistinctTxids(txs: seq<Txn>) {
    forall i, j :: 0 <= i < j < |txs| ==> Txid(txs[i]) != Txid(txs[j])
  }

  datatype Outcome = Outcome(utxos: UtxoMap, minted: nat)

  // The effect of a block on the unspent outputs and the amount it mints.
  function ValidateBlock(p: Params, u: UtxoMap, b: Blk, height: nat): Result<Outcome, Error> {
    var txs := b.transactions;
    var _ :- CheckCoinbase(txs, height);
    if !DistinctTxids(txs) then Err(DuplicateTx)
    else
      var spent :- ApplyTxs(p, u, txs[1..], height, |txs| - 1);
      var cb := txs[0];
      var cbTotal :- CheckOutputs(cb.body.outputs, |cb.body.outputs|);
      var allowed :- CheckedAdd(BlockReward(height), spent.fees);
      if cbTotal > allowed then Err(CoinbaseOverpay)
      else
        Ok(Outcome(Create(spent.utxos, Txid(cb), cb.body.outputs, height, true, |cb.body.outputs|),
                   if cbTotal > spent.fees then cbTotal - spent.fees else 0))
  }

  // ----- a whole chain, from genesis -----

  datatype Totals = Totals(utxos: UtxoMap, supply: nat)

  function ApplyChain(p: Params, blocks: seq<Blk>): Result<Totals, Error> {
    if blocks == [] then Ok(Totals(map[], 0))
    else
      var n := |blocks| - 1;
      var t :- ApplyChain(p, blocks[..n]);
      var o :- ValidateBlock(p, t.utxos, blocks[n], n);
      var supply :- CheckedAdd(t.supply, o.minted);
      Ok(Totals(o.utxos, supply))
  }
}
