// Transactions and blocks as bytes.  Hashes are 32-byte strings here.
module Codec {
  import opened Prelude
  import opened LittleEndian
  import opened Encode
  import opened Tx

  const MAX_TX_IO: int := 100_000
  const MAX_BLOCK_TXS: int := 1_000_000

  type Hash32 = s: Bytes | |s| == 32 witness seq(32, _ => 0)

  type RawInput = OutPoint<Hash32>
  type RawBody = TxBody<Hash32>
  type RawTx = Transaction<Hash32>
  type RawHeader = BlockHeader<Hash32>
  type RawBlock = Block<Hash32>

  // ----- printing -----

  function SchemeId(s: SigScheme): byte {
    match s
    case MlDsa => 0
    case SlhDsa => 1
  }

  function LockBytes(l: Lock): Bytes {
    match l
    case P2pkh(scheme, pkh) => [0, SchemeId(scheme)] + pkh
    case Timelock(scheme, pkh, height) => [1, SchemeId(scheme)] + pkh + U64Bytes(height)
  }

  function OutputBytes(o: TxOutput): Bytes {
    U64Bytes(o.amount) + LockBytes(o.lock)
  }

  function InputBytes(i: RawInput): Bytes {
    i.txid + U32Bytes(i.vout)
  }

  function BodyBytes(b: RawBody): Bytes {
    U32Bytes(b.version)
    + U32Bytes(|b.inputs| % TWO_32) + ListBytes(InputBytes, b.inputs)
    + U32Bytes(|b.outputs| % TWO_32) + ListBytes(OutputBytes, b.outputs)
    + U64Bytes(b.locktime) + VecBytes(b.coinbaseData)
  }

  function WitnessBytes(w: Witness): Bytes {
    VecBytes(w.pubkey) + VecBytes(w.signature)
  }

  function WitnessSection(ws: seq<Witness>): Bytes {
    U32Bytes(|ws| % TWO_32) + ListBytes(WitnessBytes, ws)
  }

  function TxBytes(tx: RawTx): Bytes {
    VecBytes(BodyBytes(tx.body)) + WitnessSection(tx.witnesses)
  }

  // The header without its nonce, which comes last.
  function PowBytes(h: RawHeader): Bytes {
    U32Bytes(h.version) + h.prev + h.txRoot + h.witnessRoot + U64Bytes(h.time) + U32Bytes(h.bits)
  }

  function HeaderBytes(h: RawHeader): Bytes {
    PowBytes(h) + U64Bytes(h.nonce)
  }

  function BlockBytes(b: RawBlock): Bytes {
    HeaderBytes(b.header) + U32Bytes(|b.transactions| % TWO_32) + ListBytes(TxBytes, b.transactions)
  }

  // ----- parsing -----

  function ParseHash(s: Bytes): Parsed<Hash32> {
    var raw :- ParseBytes(s, 32);
    Ok(Read(raw.value, raw.rest))
  }

  function ParseScheme(s: Bytes): Parsed<SigScheme> {
    var id :- ParseU8(s);
    if id.value == 0 then Ok(Read(MlDsa, id.rest))
    else if id.value == 1 then Ok(Read(SlhDsa, id.rest))
    else Err(Invalid(UnknownScheme))
  }

  function ParsePkh(s: Bytes): Parsed<Pkh> {
    var raw :- ParseBytes(s, 20);
    Ok(Read(raw.value, raw.rest))
  }

  function ParseLock(s: Bytes): Parsed<Lock> {
    var tag :- ParseU8(s);
    if tag.value > 1 then Err(Invalid(UnknownLock))
    else
      var scheme :- ParseScheme(tag.rest);
      var pkh :- ParsePkh(scheme.rest);
      if tag.value == 0 then Ok(Read(P2pkh(scheme.value, pkh.value), pkh.rest))
      else
        var height :- ParseU64(pkh.rest);
        Ok(Read(Timelock(scheme.value, pkh.value, height.value), height.rest))
  }

  function ParseOutput(s: Bytes): Parsed<TxOutput> {
    var amount :- ParseU64(s);
    var lock :- ParseLock(amount.rest);
    Ok(Read(TxOutput(amount.value, lock.value), lock.rest))
  }

  function ParseInput(s: Bytes): Parsed<RawInput> {
    var txid :- ParseHash(s);
    var vout :- ParseU32(txid.rest);
    Ok(Read(OutPoint(txid.value, vout.value), vout.rest))
  }

  function ParseBody(s: Bytes): Parsed<RawBody> {
    var version :- ParseU32(s);
    var nIn :- ParseCount(version.rest, MAX_TX_IO);
    var inputs :- ParseList(ParseInput, nIn.rest, nIn.value);
    var nOut :- ParseCount(inputs.rest, MAX_TX_IO);
    var outputs :- ParseList(ParseOutput, nOut.rest, nOut.value);
    var locktime :- ParseU64(outputs.rest);
    var data :- ParseVec(locktime.rest);
    Ok(Read(TxBody(version.value, inputs.value, outputs.value, locktime.value, data.value), data.rest))
  }

  function ParseWitness(s: Bytes): Parsed<Witness> {
    var pubkey :- ParseVec(s);
    var signature :- ParseVec(pubkey.rest);
    Ok(Read(Witness(pubkey.value, signature.value), signature.rest))
  }

  function ParseWitnesses(s: Bytes): Parsed<seq<Witness>> {
    var n :- ParseCount(s, MAX_TX_IO);
    ParseList(ParseWitness, n.rest, n.value)
  }

  function ParseTx(s: Bytes): Parsed<RawTx> {
    var raw :- ParseVec(s);
    var body :- ParseAll(ParseBody, raw.value);
    var witnesses :- ParseWitnesses(raw.rest);
    Ok(Read(Transaction(body, witnesses.value), witnesses.rest))
  }

  function ParseHeader(s: Bytes): Parsed<RawHeader> {
    var version :- ParseU32(s);
    var prev :- ParseHash(version.rest);
    var txRoot :- ParseHash(prev.rest);
    var witnessRoot :- ParseHash(txRoot.rest);
    var time :- ParseU64(witnessRoot.rest);
    var bits :- ParseU32(time.rest);
    var nonce :- ParseU64(bits.rest);
    Ok(Read(BlockHeader(version.value, prev.value, txRoot.value, witnessRoot.value, time.value, bits.value, nonce.value),
            nonce.rest))
  }

  function ParseBlock(s: Bytes): Parsed<RawBlock> {
    var header :- ParseHeader(s);
    var n :- ParseCount(header.rest, MAX_BLOCK_TXS);
    var txs :- ParseList(ParseTx, n.rest, n.value);
    Ok(Read(Block(header.value, txs.value), txs.rest))
  }

  // ----- the limits of the decoder -----

  predicate Any<T>(x: T) {
    true
  }

  predicate FitsBody(b: RawBody) {
    |b.inputs| <= MAX_TX_IO && |b.outputs| <= MAX_TX_IO && |b.coinbaseData| <= MAX_FIELD_LEN
  }

  predicate FitsWitness(w: Witness) {
    |w.pubkey| <= MAX_FIELD_LEN && |w.signature| <= MAX_FIELD_LEN
  }

  predicate FitsWitnesses(ws: seq<Witness>) {
    |ws| <= MAX_TX_IO && forall w :: w in ws ==> FitsWitness(w)
  }

  predicate FitsTx(tx: RawTx) {
    FitsBody(tx.body) && BodySize(tx.body) <= MAX_FIELD_LEN && FitsWitnesses(tx.witnesses)
  }

  predicate FitsBlock(b: RawBlock) {
    |b.transactions| <= MAX_BLOCK_TXS && forall tx :: tx in b.transactions ==> FitsTx(tx)
  }

  // ----- locks, outputs, inputs -----

  lemma HashRoundTrip(h: Hash32, suffix: Bytes)
    ensures ParseHash(h + suffix) == Ok(Read(h, suffix))
  {
  }

  lemma HashCanonical(s: Bytes)
    ensures ParseHash(s).Ok? ==> s == ParseHash(s).value.value + ParseHash(s).value.rest
  {
  }

  lemma LockRoundTrip(l: Lock, suffix: Bytes)
    ensures ParseLock(LockBytes(l) + suffix) == Ok(Read(l, suffix))
  {
    hide ParseU64, U64Bytes;
    var s := LockBytes(l) + suffix;
    if l.P2pkh? {
      assert s[2..] == l.pkh + suffix;
    } else {
      var rest := U64Bytes(l.height) + suffix;
      assert s[2..] == l.pkh + rest;
      U64RoundTrip(l.height, suffix);
      assert s[2..][20..] == rest;
    }
  }

  lemma LockCanonical(s: Bytes)
    ensures ParseLock(s).Ok? ==> s == LockBytes(ParseLock(s).value.value) + ParseLock(s).value.rest
  {
    hide ParseU64, U64Bytes;
    if ParseLock(s).Ok? {
      var rest := s[2..][20..];
      assert s == [s[0], s[1]] + s[2..][..20] + rest;
      if s[0] == 1 {
        U64Canonical(rest);
      }
    }
  }

  lemma OutputRoundTrip(o: TxOutput, suffix: Bytes)
    ensures ParseOutput(OutputBytes(o) + suffix) == Ok(Read(o, suffix))
  {
    hide ParseU64, U64Bytes, ParseLock, LockBytes;
    U64RoundTrip(o.amount, LockBytes(o.lock) + suffix);
    LockRoundTrip(o.lock, suffix);
    assert OutputBytes(o) + suffix == U64Bytes(o.amount) + (LockBytes(o.lock) + suffix);
  }

  lemma OutputCanonical(s: Bytes)
    ensures ParseOutput(s).Ok? ==> s == OutputBytes(ParseOutput(s).value.value) + ParseOutput(s).value.rest
  {
    hide ParseU64, U64Bytes, ParseLock, LockBytes;
    if ParseOutput(s).Ok? {
      U64Canonical(s);
      LockCanonical(ParseU64(s).value.rest);
    }
  }

  lemma OutputInverse()
    ensures Inverse(ParseOutput, OutputBytes, Any<TxOutput>)
  {
    hide ParseOutput, OutputBytes;
    forall o, suffix ensures ParseOutput(OutputBytes(o) + suffix) == Ok(Read(o, suffix)) {
      OutputRoundTrip(o, suffix);
    }
    forall s ensures ParseOutput(s).Ok? ==> s == OutputBytes(ParseOutput(s).value.value) + ParseOutput(s).value.rest {
      OutputCanonical(s);
    }
  }

  lemma InputRoundTrip(i: RawInput, suffix: Bytes)
    ensures ParseInput(InputBytes(i) + suffix) == Ok(Read(i, suffix))
  {
    hide ParseU32, U32Bytes;
    HashRoundTrip(i.txid, U32Bytes(i.vout) + suffix);
    U32RoundTrip(i.vout, suffix);
    assert InputBytes(i) + suffix == i.txid + (U32Bytes(i.vout) + suffix);
  }

  lemma InputCanonical(s: Bytes)
    ensures ParseInput(s).Ok? ==> s == InputBytes(ParseInput(s).value.value) + ParseInput(s).value.rest
  {
    hide ParseU32, U32Bytes;
    if ParseInput(s).Ok? {
      HashCanonical(s);
      U32Canonical(ParseHash(s).value.rest);
    }
  }

  lemma InputInverse()
    ensures Inverse(ParseInput, InputBytes, Any<RawInput>)
  {
    hide ParseInput, InputBytes;
    forall i, suffix ensures ParseInput(InputBytes(i) + suffix) == Ok(Read(i, suffix)) {
      InputRoundTrip(i, suffix);
    }
    forall s ensures ParseInput(s).Ok? ==> s == InputBytes(ParseInput(s).value.value) + ParseInput(s).value.rest {
      InputCanonical(s);
    }
  }

  // ----- bodies -----

  // The body from its outputs on, and from its inputs on.
  function OutputsOn(b: RawBody): Bytes {
    U32Bytes(|b.outputs| % TWO_32) + (ListBytes(OutputBytes, b.outputs) + (U64Bytes(b.locktime) + VecBytes(b.coinbaseData)))
  }

  lemma BodySplit(b: RawBody, suffix: Bytes)
    ensures BodyBytes(b) + suffix
            == U32Bytes(b.version) + (U32Bytes(|b.inputs| % TWO_32) + (ListBytes(InputBytes, b.inputs) + (OutputsOn(b) + suffix)))
    ensures OutputsOn(b) + suffix
            == U32Bytes(|b.outputs| % TWO_32)
               + (ListBytes(OutputBytes, b.outputs) + (U64Bytes(b.locktime) + (VecBytes(b.coinbaseData) + suffix)))
  {
    hide U32Bytes, U64Bytes, VecBytes, ListBytes;
  }

  lemma BodyRoundTrip(b: RawBody, suffix: Bytes)
    requires FitsBody(b)
    ensures ParseBody(BodyBytes(b) + suffix) == Ok(Read(b, suffix))
  {
    hide U32Bytes, U64Bytes, VecBytes, ListBytes, BodyBytes, OutputsOn, ParseU32, ParseU64, ParseVec, ParseCount, ParseList, Inverse;
    var afterTime := VecBytes(b.coinbaseData) + suffix;
    var afterOuts := U64Bytes(b.locktime) + afterTime;
    BodySplit(b, suffix);
    InputInverse();
    OutputInverse();
    U32RoundTrip(b.version, U32Bytes(|b.inputs|) + (ListBytes(InputBytes, b.inputs) + (OutputsOn(b) + suffix)));
    CountRoundTrip(|b.inputs|, MAX_TX_IO, ListBytes(InputBytes, b.inputs) + (OutputsOn(b) + suffix));
    ListRoundTrip(ParseInput, InputBytes, Any<RawInput>, b.inputs, OutputsOn(b) + suffix);
    CountRoundTrip(|b.outputs|, MAX_TX_IO, ListBytes(OutputBytes, b.outputs) + afterOuts);
    ListRoundTrip(ParseOutput, OutputBytes, Any<TxOutput>, b.outputs, afterOuts);
    U64RoundTrip(b.locktime, afterTime);
    VecRoundTrip(b.coinbaseData, suffix);
  }

  lemma BodyCanonical(s: Bytes)
    ensures ParseBody(s).Ok? ==>
              var r := ParseBody(s).value;
              FitsBody(r.value) && s == BodyBytes(r.value) + r.rest
  {
    hide U32Bytes, U64Bytes, VecBytes, ListBytes, BodyBytes, OutputsOn, ParseU32, ParseU64, ParseVec, ParseCount, ParseList, Inverse;
    if ParseBody(s).Ok? {
      var r := ParseBody(s).value;
      InputInverse();
      OutputInverse();
      var version := ParseU32(s).value;
      var nIn := ParseCount(version.rest, MAX_TX_IO).value;
      var inputs := ParseList(ParseInput, nIn.rest, nIn.value).value;
      var nOut := ParseCount(inputs.rest, MAX_TX_IO).value;
      var outputs := ParseList(ParseOutput, nOut.rest, nOut.value).value;
      var locktime := ParseU64(outputs.rest).value;
      U32Canonical(s);
      CountCanonical(version.rest, MAX_TX_IO);
      ListCanonical(ParseInput, InputBytes, Any<RawInput>, nIn.rest, nIn.value);
      CountCanonical(inputs.rest, MAX_TX_IO);
      ListCanonical(ParseOutput, OutputBytes, Any<TxOutput>, nOut.rest, nOut.value);
      U64Canonical(outputs.rest);
      VecCanonical(locktime.rest);
      BodySplit(r.value, r.rest);
    }
  }

  // ----- witnesses and transactions -----

  lemma WitnessRoundTrip(w: Witness, suffix: Bytes)
    requires FitsWitness(w)
    ensures ParseWitness(WitnessBytes(w) + suffix) == Ok(Read(w, suffix))
  {
    hide ParseVec, VecBytes;
    VecRoundTrip(w.pubkey, VecBytes(w.signature) + suffix);
    VecRoundTrip(w.signature, suffix);
    assert WitnessBytes(w) + suffix == VecBytes(w.pubkey) + (VecBytes(w.signature) + suffix);
  }

  lemma WitnessCanonical(s: Bytes)
    ensures ParseWitness(s).Ok? ==>
              var r := ParseWitness(s).value;
              FitsWitness(r.value) && s == WitnessBytes(r.value) + r.rest
  {
    hide ParseVec, VecBytes;
    if ParseWitness(s).Ok? {
      VecCanonical(s);
      VecCanonical(ParseVec(s).value.rest);
    }
  }

  lemma WitnessInverse()
    ensures Inverse(ParseWitness, WitnessBytes, FitsWitness)
  {
    hide ParseWitness, WitnessBytes, FitsWitness;
    forall w, suffix | FitsWitness(w) ensures ParseWitness(WitnessBytes(w) + suffix) == Ok(Read(w, suffix)) {
      WitnessRoundTrip(w, suffix);
    }
    forall s | ParseWitness(s).Ok?
      ensures FitsWitness(ParseWitness(s).value.value)
              && s == WitnessBytes(ParseWitness(s).value.value) + ParseWitness(s).value.rest {
      WitnessCanonical(s);
    }
  }

  lemma SectionRoundTrip(ws: seq<Witness>, suffix: Bytes)
    requires FitsWitnesses(ws)
    ensures ParseWitnesses(WitnessSection(ws) + suffix) == Ok(Read(ws, suffix))
  {
    hide U32Bytes, ListBytes, ParseCount, ParseList, Inverse;
    WitnessInverse();
    CountRoundTrip(|ws|, MAX_TX_IO, ListBytes(WitnessBytes, ws) + suffix);
    ListRoundTrip(ParseWitness, WitnessBytes, FitsWitness, ws, suffix);
    assert WitnessSection(ws) + suffix == U32Bytes(|ws|) + (ListBytes(WitnessBytes, ws) + suffix);
  }

  lemma SectionCanonical(s: Bytes)
    ensures ParseWitnesses(s).Ok? ==>
              var r := ParseWitnesses(s).value;
              FitsWitnesses(r.value) && s == WitnessSection(r.value) + r.rest
  {
    hide U32Bytes, ListBytes, ParseCount, ParseList, Inverse;
    if ParseWitnesses(s).Ok? {
      WitnessInverse();
      var n := ParseCount(s, MAX_TX_IO).value;
      CountCanonical(s, MAX_TX_IO);
      ListCanonical(ParseWitness, WitnessBytes, FitsWitness, n.rest, n.value);
    }
  }

  // A transaction within the limits decodes from its encoding, whatever follows.
  lemma TxRoundTrip(tx: RawTx, suffix: Bytes)
    requires FitsTx(tx)
    ensures ParseTx(TxBytes(tx) + suffix) == Ok(Read(tx, suffix))
  {
    hide ParseVec, VecBytes, BodyBytes, ParseBody, FitsBody, WitnessSection, ParseWitnesses, BodySize;
    BodyLength(tx.body);
    VecRoundTrip(BodyBytes(tx.body), WitnessSection(tx.witnesses) + suffix);
    BodyRoundTrip(tx.body, []);
    assert BodyBytes(tx.body) + [] == BodyBytes(tx.body);
    SectionRoundTrip(tx.witnesses, suffix);
    assert TxBytes(tx) + suffix == VecBytes(BodyBytes(tx.body)) + (WitnessSection(tx.witnesses) + suffix);
  }

  // Whatever decodes is within the limits and is the encoding of what it decodes to.
  lemma TxCanonical(s: Bytes)
    ensures ParseTx(s).Ok? ==>
              var r := ParseTx(s).value;
              FitsTx(r.value) && s == TxBytes(r.value) + r.rest
  {
    hide ParseVec, VecBytes, BodyBytes, ParseBody, FitsBody, WitnessSection, ParseWitnesses, BodySize;
    if ParseTx(s).Ok? {
      var raw := ParseVec(s).value;
      VecCanonical(s);
      BodyCanonical(raw.value);
      BodyLength(ParseBody(raw.value).value.value);
      assert BodyBytes(ParseBody(raw.value).value.value) + [] == BodyBytes(ParseBody(raw.value).value.value);
      SectionCanonical(raw.rest);
    }
  }

  lemma TxInverse()
    ensures Inverse(ParseTx, TxBytes, FitsTx)
  {
    hide ParseTx, TxBytes, FitsTx;
    forall tx, suffix | FitsTx(tx) ensures ParseTx(TxBytes(tx) + suffix) == Ok(Read(tx, suffix)) {
      TxRoundTrip(tx, suffix);
    }
    forall s | ParseTx(s).Ok?
      ensures FitsTx(ParseTx(s).value.value) && s == TxBytes(ParseTx(s).value.value) + ParseTx(s).value.rest {
      TxCanonical(s);
    }
  }

  // ----- headers and blocks -----

  lemma HeaderRoundTrip(h: RawHeader, suffix: Bytes)
    ensures ParseHeader(HeaderBytes(h) + suffix) == Ok(Read(h, suffix))
  {
    hide ParseU32, U32Bytes, ParseU64, U64Bytes, ParseHash;
    var s6 := U64Bytes(h.nonce) + suffix;
    var s5 := U32Bytes(h.bits) + s6;
    var s4 := U64Bytes(h.time) + s5;
    var s3 := h.witnessRoot + s4;
    var s2 := h.txRoot + s3;
    var s1 := h.prev + s2;
    U32RoundTrip(h.version, s1);
    HashRoundTrip(h.prev, s2);
    HashRoundTrip(h.txRoot, s3);
    HashRoundTrip(h.witnessRoot, s4);
    U64RoundTrip(h.time, s5);
    U32RoundTrip(h.bits, s6);
    U64RoundTrip(h.nonce, suffix);
    assert HeaderBytes(h) + suffix == U32Bytes(h.version) + s1;
  }

  lemma HeaderCanonical(s: Bytes)
    ensures ParseHeader(s).Ok? ==> s == HeaderBytes(ParseHeader(s).value.value) + ParseHeader(s).value.rest
  {
    hide ParseU32, U32Bytes, ParseU64, U64Bytes, ParseHash;
    if ParseHeader(s).Ok? {
      var s1 := ParseU32(s).value.rest;
      var s2 := ParseHash(s1).value.rest;
      var s3 := ParseHash(s2).value.rest;
      var s4 := ParseHash(s3).value.rest;
      var s5 := ParseU64(s4).value.rest;
      var s6 := ParseU32(s5).value.rest;
      U32Canonical(s);
      HashCanonical(s1);
      HashCanonical(s2);
      HashCanonical(s3);
      U64Canonical(s4);
      U32Canonical(s5);
      U64Canonical(s6);
      HeaderSplit(ParseHeader(s).value.value, ParseHeader(s).value.rest);
    }
  }

  lemma HeaderSplit(h: RawHeader, suffix: Bytes)
    ensures HeaderBytes(h) + suffix
            == U32Bytes(h.version) + (h.prev + (h.txRoot + (h.witnessRoot + (U64Bytes(h.time) + (U32Bytes(h.bits) + (U64Bytes(h.nonce) + suffix))))))
  {
    hide U32Bytes, U64Bytes;
  }

  lemma BlockRoundTrip(b: RawBlock, suffix: Bytes)
    requires FitsBlock(b)
    ensures ParseBlock(BlockBytes(b) + suffix) == Ok(Read(b, suffix))
  {
    hide HeaderBytes, ParseHeader, U32Bytes, ListBytes, ParseCount, ParseList, Inverse, FitsTx;
    var rest := ListBytes(TxBytes, b.transactions) + suffix;
    TxInverse();
    HeaderRoundTrip(b.header, U32Bytes(|b.transactions|) + rest);
    CountRoundTrip(|b.transactions|, MAX_BLOCK_TXS, rest);
    ListRoundTrip(ParseTx, TxBytes, FitsTx, b.transactions, suffix);
    assert BlockBytes(b) + suffix == HeaderBytes(b.header) + (U32Bytes(|b.transactions|) + rest);
  }

  lemma BlockCanonical(s: Bytes)
    ensures ParseBlock(s).Ok? ==>
              var r := ParseBlock(s).value;
              FitsBlock(r.value) && s == BlockBytes(r.value) + r.rest
  {
    hide HeaderBytes, ParseHeader, U32Bytes, ListBytes, ParseCount, ParseList, Inverse, FitsTx;
    if ParseBlock(s).Ok? {
      TxInverse();
      var header := ParseHeader(s).value;
      var n := ParseCount(header.rest, MAX_BLOCK_TXS).value;
      HeaderCanonical(s);
      CountCanonical(header.rest, MAX_BLOCK_TXS);
      ListCanonical(ParseTx, TxBytes, FitsTx, n.rest, n.value);
    }
  }

  // Decoding a whole byte string succeeds exactly on encodings within the limits.
  lemma DecodeAllTx(s: Bytes, tx: RawTx)
    ensures ParseAll(ParseTx, s) == Ok(tx) <==> FitsTx(tx) && s == TxBytes(tx)
  {
    hide ParseTx, TxBytes, FitsTx;
    TxCanonical(s);
    assert TxBytes(tx) + [] == TxBytes(tx);
    if FitsTx(tx) {
      TxRoundTrip(tx, []);
    }
    if ParseTx(s).Ok? {
      assert TxBytes(ParseTx(s).value.value) + [] == TxBytes(ParseTx(s).value.value);
    }
  }

  lemma DecodeAllBlock(s: Bytes, b: RawBlock)
    ensures ParseAll(ParseBlock, s) == Ok(b) <==> FitsBlock(b) && s == BlockBytes(b)
  {
    hide ParseBlock, BlockBytes, FitsBlock;
    BlockCanonical(s);
    assert BlockBytes(b) + [] == BlockBytes(b);
    if FitsBlock(b) {
      BlockRoundTrip(b, []);
    }
    if ParseBlock(s).Ok? {
      assert BlockBytes(ParseBlock(s).value.value) + [] == BlockBytes(ParseBlock(s).value.value);
    }
  }

  // ----- lengths: the sizes the ledger uses are those of the encodings -----

  lemma OutputLength(o: TxOutput)
    ensures |OutputBytes(o)| == 8 + LockSize(o.lock)
  {
  }

  lemma {:induction false} OutputsLength(outs: seq<TxOutput>)
    ensures |ListBytes(OutputBytes, outs)| == OutputsSize(outs)
  {
    hide OutputBytes, LockSize;
    if outs != [] {
      var n := |outs| - 1;
      OutputsLength(outs[..n]);
      ListBytesSnoc(OutputBytes, outs[..n], outs[n]);
      assert outs == outs[..n] + [outs[n]];
      OutputLength(outs[n]);
    }
  }

  lemma {:induction false} InputsLength(ins: seq<RawInput>)
    ensures |ListBytes(InputBytes, ins)| == 36 * |ins|
  {
    if ins != [] {
      InputsLength(ins[1..]);
    }
  }

  lemma BodyLength(b: RawBody)
    ensures |BodyBytes(b)| == BodySize(b)
  {
    hide ListBytes, OutputsSize;
    InputsLength(b.inputs);
    OutputsLength(b.outputs);
  }

  lemma {:induction false} WitnessesLength(ws: seq<Witness>)
    ensures |ListBytes(WitnessBytes, ws)| == WitnessesSize(ws)
  {
    if ws != [] {
      var n := |ws| - 1;
      WitnessesLength(ws[..n]);
      ListBytesSnoc(WitnessBytes, ws[..n], ws[n]);
      assert ws == ws[..n] + [ws[n]];
    }
  }

  lemma TxLength(tx: RawTx)
    ensures |TxBytes(tx)| == TxSize(tx)
  {
    hide ListBytes, WitnessesSize, BodySize, BodyBytes;
    BodyLength(tx.body);
    WitnessesLength(tx.witnesses);
  }

  lemma {:induction false} TxsLength(txs: seq<RawTx>)
    ensures |ListBytes(TxBytes, txs)| == TxsSize(txs)
  {
    hide TxBytes, TxSize;
    if txs != [] {
      var n := |txs| - 1;
      TxsLength(txs[..n]);
      ListBytesSnoc(TxBytes, txs[..n], txs[n]);
      assert txs == txs[..n] + [txs[n]];
      TxLength(txs[n]);
    }
  }

  lemma BlockLength(b: RawBlock)
    ensures |BlockBytes(b)| == BlockSize(b)
  {
    hide ListBytes, TxsSize;
    TxsLength(b.transactions);
  }
}
