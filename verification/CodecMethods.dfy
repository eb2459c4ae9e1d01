// The encoders and decoders as the program runs them: appending to a buffer, and
// advancing a reader.
module CodecMethods {
  import opened Prelude
  import opened Encode
  import opened Tx
  import opened Codec

  // ----- encoders -----

  method EncodeLock(l: Lock, w: Writer)
    modifies w
    ensures w.out == old(w.out) + LockBytes(l)
  {
    match l
    case P2pkh(scheme, pkh) =>
      w.PutU8(0);
      w.PutU8(SchemeId(scheme));
      w.Put(pkh);
    case Timelock(scheme, pkh, height) =>
      w.PutU8(1);
      w.PutU8(SchemeId(scheme));
      w.Put(pkh);
      w.PutU64(height);
  }

  method EncodeOutput(o: TxOutput, w: Writer)
    modifies w
    ensures w.out == old(w.out) + OutputBytes(o)
  {
    w.PutU64(o.amount);
    EncodeLock(o.lock, w);
  }

  method EncodeBody(b: RawBody) returns (out: Bytes)
    ensures out == BodyBytes(b)
  {
    hide LockBytes, ListBytes, OutputBytes, InputBytes, VecBytes, U32Bytes, U64Bytes;
    var w := new Writer();
    w.PutU32(b.version);
    w.PutU32(|b.inputs| % TWO_32);
    EncodeInputs(b.inputs, w);
    w.PutU32(|b.outputs| % TWO_32);
    EncodeOutputs(b.outputs, w);
    w.PutU64(b.locktime);
    w.PutVec(b.coinbaseData);
    return w.out;
  }

  method EncodeInputs(ins: seq<RawInput>, w: Writer)
    modifies w
    ensures w.out == old(w.out) + ListBytes(InputBytes, ins)
  {
    hide InputBytes;
    for i := 0 to |ins|
      invariant w.out == old(w.out) + ListBytes(InputBytes, ins[..i])
    {
      assert ins[..i + 1] == ins[..i] + [ins[i]];
      ListBytesSnoc(InputBytes, ins[..i], ins[i]);
      PutInput(ins[i], w);
    }
    assert ins[..|ins|] == ins;
  }

  method PutInput(i: RawInput, w: Writer)
    modifies w
    ensures w.out == old(w.out) + InputBytes(i)
  {
    w.Put(i.txid);
    w.PutU32(i.vout);
  }

  method EncodeOutputs(outs: seq<TxOutput>, w: Writer)
    modifies w
    ensures w.out == old(w.out) + ListBytes(OutputBytes, outs)
  {
    hide OutputBytes;
    for i := 0 to |outs|
      invariant w.out == old(w.out) + ListBytes(OutputBytes, outs[..i])
    {
      assert outs[..i + 1] == outs[..i] + [outs[i]];
      ListBytesSnoc(OutputBytes, outs[..i], outs[i]);
      EncodeOutput(outs[i], w);
    }
    assert outs[..|outs|] == outs;
  }

  method EncodeWitnessSection(ws: seq<Witness>) returns (out: Bytes)
    ensures out == WitnessSection(ws)
  {
    hide WitnessBytes, U32Bytes;
    var w := new Writer();
    w.PutU32(|ws| % TWO_32);
    assert w.out == U32Bytes(|ws| % TWO_32);
    for i := 0 to |ws|
      invariant w.out == U32Bytes(|ws| % TWO_32) + ListBytes(WitnessBytes, ws[..i])
    {
      assert ws[..i + 1] == ws[..i] + [ws[i]];
      ListBytesSnoc(WitnessBytes, ws[..i], ws[i]);
      PutWitness(ws[i], w);
    }
    assert ws[..|ws|] == ws;
    return w.out;
  }

  method PutWitness(x: Witness, w: Writer)
    modifies w
    ensures w.out == old(w.out) + WitnessBytes(x)
  {
    w.PutVec(x.pubkey);
    w.PutVec(x.signature);
  }

  method EncodeTx(tx: RawTx) returns (out: Bytes)
    ensures out == TxBytes(tx)
  {
    hide BodyBytes, WitnessSection, VecBytes;
    var w := new Writer();
    var body := EncodeBody(tx.body);
    w.PutVec(body);
    var section := EncodeWitnessSection(tx.witnesses);
    w.Put(section);
    return w.out;
  }

  method EncodeHeader(h: RawHeader) returns (out: Bytes)
    ensures out == HeaderBytes(h)
  {
    hide U32Bytes, U64Bytes;
    var w := new Writer();
    w.PutU32(h.version);
    w.Put(h.prev);
    w.Put(h.txRoot);
    w.Put(h.witnessRoot);
    w.PutU64(h.time);
    w.PutU32(h.bits);
    w.PutU64(h.nonce);
    return w.out;
  }

  // The mined message: the encoding cut short by the nonce.
  method EncodePow(h: RawHeader) returns (out: Bytes)
    ensures out == PowBytes(h)
  {
    var bytes := EncodeHeader(h);
    out := bytes[..|bytes| - 8];
  }

  method EncodeBlock(b: RawBlock) returns (out: Bytes)
    ensures out == BlockBytes(b)
  {
    hide TxBytes, HeaderBytes, U32Bytes;
    var txs := b.transactions;
    var header := EncodeHeader(b.header);
    var w := new Writer();
    w.Put(header);
    w.PutU32(|txs| % TWO_32);
    ghost var head := HeaderBytes(b.header) + U32Bytes(|txs| % TWO_32);
    for i := 0 to |txs|
      invariant w.out == head + ListBytes(TxBytes, txs[..i])
    {
      assert txs[..i + 1] == txs[..i] + [txs[i]];
      ListBytesSnoc(TxBytes, txs[..i], txs[i]);
      var bytes := EncodeTx(txs[i]);
      w.Put(bytes);
    }
    assert txs[..|txs|] == txs;
    return w.out;
  }

  // ----- decoders -----

  method DecodeHash(r: Reader) returns (h: Result<Hash32, DecodeError>)
    requires r.Valid()
    modifies r
    ensures r.Valid() && Agrees(ParseHash(old(r.Rest())), h, r.Rest())
  {
    var raw :- r.ReadBytes(32);
    return Ok(raw);
  }

  method DecodeScheme(r: Reader) returns (scheme: Result<SigScheme, DecodeError>)
    requires r.Valid()
    modifies r
    ensures r.Valid() && Agrees(ParseScheme(old(r.Rest())), scheme, r.Rest())
  {
    var id :- r.ReadU8();
    if id == 0 {
      return Ok(MlDsa);
    }
    if id == 1 {
      return Ok(SlhDsa);
    }
    return Err(Invalid(UnknownScheme));
  }

  method DecodePkh(r: Reader) returns (pkh: Result<Pkh, DecodeError>)
    requires r.Valid()
    modifies r
    ensures r.Valid() && Agrees(ParsePkh(old(r.Rest())), pkh, r.Rest())
  {
    var raw :- r.ReadBytes(20);
    return Ok(raw);
  }

  method DecodeLock(r: Reader) returns (lock: Result<Lock, DecodeError>)
    requires r.Valid()
    modifies r
    ensures r.Valid() && Agrees(ParseLock(old(r.Rest())), lock, r.Rest())
  {
    hide ParseU8, ParseScheme, ParsePkh, ParseU64;
    var tag :- r.ReadU8();
    if tag == 0 {
      var scheme :- DecodeScheme(r);
      var pkh :- DecodePkh(r);
      return Ok(P2pkh(scheme, pkh));
    }
    if tag == 1 {
      var scheme :- DecodeScheme(r);
      var pkh :- DecodePkh(r);
      var height :- r.ReadU64();
      return Ok(Timelock(scheme, pkh, height));
    }
    return Err(Invalid(UnknownLock));
  }

  method DecodeOutput(r: Reader) returns (o: Result<TxOutput, DecodeError>)
    requires r.Valid()
    modifies r
    ensures r.Valid() && Agrees(ParseOutput(old(r.Rest())), o, r.Rest())
  {
    hide ParseU64, ParseLock;
    var amount :- r.ReadU64();
    var lock :- DecodeLock(r);
    return Ok(TxOutput(amount, lock));
  }

  method DecodeInput(r: Reader) returns (i: Result<RawInput, DecodeError>)
    requires r.Valid()
    modifies r
    ensures r.Valid() && Agrees(ParseInput(old(r.Rest())), i, r.Rest())
  {
    hide ParseHash, ParseU32;
    var txid :- DecodeHash(r);
    var vout :- r.ReadU32();
    return Ok(OutPoint(txid, vout));
  }

  method DecodeInputs(r: Reader, n: nat) returns (ins: Result<seq<RawInput>, DecodeError>)
    requires r.Valid()
    modifies r
    ensures r.Valid() && Agrees(ParseList(ParseInput, old(r.Rest()), n), ins, r.Rest())
  {
    hide ParseInput;
    var items: seq<RawInput> := [];
    ListStart(ParseList(ParseInput, r.Rest(), n));
    for i := 0 to n
      invariant r.Valid()
      invariant ParseList(ParseInput, old(r.Rest()), n) == Onward(items, ParseList(ParseInput, r.Rest(), n - i))
    {
      ListStep(ParseInput, items, r.Rest(), n - i);
      var item :- DecodeInput(r);
      items := items + [item];
    }
    assert items + [] == items;
    return Ok(items);
  }

  method DecodeOutputs(r: Reader, n: nat) returns (outs: Result<seq<TxOutput>, DecodeError>)
    requires r.Valid()
    modifies r
    ensures r.Valid() && Agrees(ParseList(ParseOutput, old(r.Rest()), n), outs, r.Rest())
  {
    hide ParseOutput;
    var items: seq<TxOutput> := [];
    ListStart(ParseList(ParseOutput, r.Rest(), n));
    for i := 0 to n
      invariant r.Valid()
      invariant ParseList(ParseOutput, old(r.Rest()), n) == Onward(items, ParseList(ParseOutput, r.Rest(), n - i))
    {
      ListStep(ParseOutput, items, r.Rest(), n - i);
      var item :- DecodeOutput(r);
      items := items + [item];
    }
    assert items + [] == items;
    return Ok(items);
  }

  lemma ListStart<T>(parsed: Parsed<seq<T>>)
    ensures Onward([], parsed) == parsed
  {
    if parsed.Ok? {
      assert [] + parsed.value.value == parsed.value.value;
    }
  }

  method DecodeBody(r: Reader) returns (b: Result<RawBody, DecodeError>)
    requires r.Valid()
    modifies r
    ensures r.Valid() && Agrees(ParseBody(old(r.Rest())), b, r.Rest())
  {
    hide ParseU32, ParseU64, ParseCount, ParseVec, ParseList;
    var version :- r.ReadU32();
    var nIn :- r.ReadCount(MAX_TX_IO);
    var inputs :- DecodeInputs(r, nIn);
    var nOut :- r.ReadCount(MAX_TX_IO);
    var outputs :- DecodeOutputs(r, nOut);
    var locktime :- r.ReadU64();
    var data :- r.ReadVec();
    return Ok(TxBody(version, inputs, outputs, locktime, data));
  }

  method DecodeWitness(r: Reader) returns (w: Result<Witness, DecodeError>)
    requires r.Valid()
    modifies r
    ensures r.Valid() && Agrees(ParseWitness(old(r.Rest())), w, r.Rest())
  {
    hide ParseVec;
    var pubkey :- r.ReadVec();
    var signature :- r.ReadVec();
    return Ok(Witness(pubkey, signature));
  }

  // The body is decoded by a reader of its own, which must use up its bytes.
  method DecodeTx(r: Reader) returns (tx: Result<RawTx, DecodeError>)
    requires r.Valid()
    modifies r
    ensures r.Valid() && Agrees(ParseTx(old(r.Rest())), tx, r.Rest())
  {
    hide ParseVec, ParseBody, ParseCount, ParseWitness;
    var raw :- r.ReadVec();
    var br := new Reader(raw);
    var body :- DecodeBody(br);
    var _ :- br.Finish();
    assert ParseAll(ParseBody, raw) == Ok(body);
    ghost var after := r.Rest();
    var n :- r.ReadCount(MAX_TX_IO);
    ghost var start := r.Rest();
    var witnesses: seq<Witness> := [];
    ListStart(ParseList(ParseWitness, start, n));
    for i := 0 to n
      invariant r.Valid()
      invariant ParseList(ParseWitness, start, n) == Onward(witnesses, ParseList(ParseWitness, r.Rest(), n - i))
    {
      ListStep(ParseWitness, witnesses, r.Rest(), n - i);
      var w :- DecodeWitness(r);
      witnesses := witnesses + [w];
    }
    assert witnesses + [] == witnesses;
    assert ParseWitnesses(after) == Ok(Read(witnesses, r.Rest()));
    return Ok(Transaction(body, witnesses));
  }

  method DecodeHeader(r: Reader) returns (h: Result<RawHeader, DecodeError>)
    requires r.Valid()
    modifies r
    ensures r.Valid() && Agrees(ParseHeader(old(r.Rest())), h, r.Rest())
  {
    hide ParseU32, ParseU64, ParseHash;
    var version :- r.ReadU32();
    var prev :- DecodeHash(r);
    var txRoot :- DecodeHash(r);
    var witnessRoot :- DecodeHash(r);
    var time :- r.ReadU64();
    var bits :- r.ReadU32();
    var nonce :- r.ReadU64();
    return Ok(BlockHeader(version, prev, txRoot, witnessRoot, time, bits, nonce));
  }

  method DecodeBlock(r: Reader) returns (b: Result<RawBlock, DecodeError>)
    requires r.Valid()
    modifies r
    ensures r.Valid() && Agrees(ParseBlock(old(r.Rest())), b, r.Rest())
  {
    hide ParseHeader, ParseCount, ParseTx;
    var header :- DecodeHeader(r);
    var n :- r.ReadCount(MAX_BLOCK_TXS);
    ghost var start := r.Rest();
    var txs: seq<RawTx> := [];
    ListStart(ParseList(ParseTx, start, n));
    for i := 0 to n
      invariant r.Valid()
      invariant ParseList(ParseTx, start, n) == Onward(txs, ParseList(ParseTx, r.Rest(), n - i))
    {
      ListStep(ParseTx, txs, r.Rest(), n - i);
      var tx :- DecodeTx(r);
      txs := txs + [tx];
    }
    assert txs + [] == txs;
    return Ok(Block(header, txs));
  }

  method DecodeAllBlocks(bytes: Bytes) returns (b: Result<RawBlock, DecodeError>)
    ensures b == ParseAll(ParseBlock, bytes)
    ensures b.Ok? ==> BlockBytes(b.value) == bytes
  {
    hide ParseBlock, BlockBytes, FitsBlock;
    var r := new Reader(bytes);
    var block :- DecodeBlock(r);
    var _ :- r.Finish();
    DecodeAllBlock(bytes, block);
    return Ok(block);
  }

  method DecodeAllTxs(bytes: Bytes) returns (tx: Result<RawTx, DecodeError>)
    ensures tx == ParseAll(ParseTx, bytes)
    ensures tx.Ok? ==> TxBytes(tx.value) == bytes
  {
    hide ParseTx, TxBytes, FitsTx;
    var r := new Reader(bytes);
    var t :- DecodeTx(r);
    var _ :- r.Finish();
    DecodeAllTx(bytes, t);
    return Ok(t);
  }
}
