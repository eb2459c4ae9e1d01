// Where each field lies in the bytes, by offset: the formats as another program would
// read them, without parsing what comes before.
module Layout {
  import opened Prelude
  import opened Arith
  import opened LittleEndian
  import opened Encode
  import opened Tx
  import opened Codec
  import opened Wire
  import opened Store

  // The bytes from `at` on.
  ghost predicate Holds(s: Bytes, at: nat, part: Bytes) {
    at + |part| <= |s| && s[at..at + |part|] == part
  }

  // A number in n bytes from `at` on, least significant first.
  ghost predicate Number(s: Bytes, at: nat, n: nat, v: nat) {
    at + n <= |s| && forall i :: 0 <= i < n ==> s[at + i] == v / Shl256(i) % 256
  }

  lemma {:induction false} Digits(v: nat, n: nat)
    ensures forall i :: 0 <= i < n ==> LeBytes(v, n)[i] == v / Shl256(i) % 256
  {
    if n > 0 {
      Digits(v / 256, n - 1);
      forall i | 0 < i < n
        ensures v / Shl256(i) == v / 256 / Shl256(i - 1)
      {
        Divided(v, Shl256(i - 1));
      }
    }
  }

  lemma Divided(v: nat, d: nat)
    requires d > 0
    ensures v / (256 * d) == v / 256 / d
  {
    var q, r := v / 256 / d, v / 256 % d;
    assert v / 256 == q * d + r;
    Regrouped(v, v / 256, v % 256, q * d, r, d);
    assert (256 * d) * q == 256 * (q * d);
    DivUnique(v, 256 * d, q);
  }

  lemma Regrouped(v: nat, high: nat, low: nat, qd: nat, r: nat, d: nat)
    requires v == 256 * high + low && low < 256 && high == qd + r && r < d
    ensures 256 * qd <= v < 256 * qd + 256 * d
  {
  }

  lemma HoldsNumber(s: Bytes, at: nat, n: nat, v: nat)
    requires Holds(s, at, LeBytes(v, n))
    ensures Number(s, at, n, v)
  {
    Digits(v, n);
    forall i | 0 <= i < n
      ensures s[at + i] == LeBytes(v, n)[i]
    {
      assert s[at..at + n][i] == s[at + i];
    }
  }

  lemma HoldsMiddle(a: Bytes, part: Bytes, b: Bytes)
    ensures Holds(a + part + b, |a|, part)
  {
  }

  // What a part of the bytes holds, the whole holds further on.
  lemma HoldsWithin(s: Bytes, at: nat, part: Bytes, off: nat, field: Bytes)
    requires Holds(s, at, part) && Holds(part, off, field)
    ensures Holds(s, at + off, field)
  {
    forall j | 0 <= j < |field|
      ensures s[at + off..at + off + |field|][j] == field[j]
    {
      assert part[off..off + |field|][j] == part[off + j];
      assert s[at..at + |part|][off + j] == s[at + (off + j)];
    }
  }

  // ----- transactions -----

  lemma LockLayout(l: Lock)
    ensures var s := LockBytes(l);
            && |s| == (if l.Timelock? then 30 else 22)
            && s[0] == (if l.Timelock? then 1 else 0)
            && s[1] == (if l.scheme.SlhDsa? then 1 else 0)
            && Holds(s, 2, l.pkh)
            && (l.Timelock? ==> Number(s, 22, 8, l.height))
  {
    var head: Bytes := [if l.Timelock? then 1 else 0, if l.scheme.SlhDsa? then 1 else 0];
    if l.Timelock? {
      HoldsMiddle(head + l.pkh, U64Bytes(l.height), []);
      assert LockBytes(l) == head + l.pkh + U64Bytes(l.height) + [];
      HoldsNumber(LockBytes(l), 22, 8, l.height);
    }
  }

  lemma OutputLayout(o: TxOutput)
    ensures Number(OutputBytes(o), 0, 8, o.amount) && Holds(OutputBytes(o), 8, LockBytes(o.lock))
  {
    hide LockBytes;
    HoldsMiddle([], U64Bytes(o.amount), LockBytes(o.lock));
    assert OutputBytes(o) == [] + U64Bytes(o.amount) + LockBytes(o.lock);
    HoldsNumber(OutputBytes(o), 0, 8, o.amount);
  }

  lemma InputLayout(i: RawInput)
    ensures Holds(InputBytes(i), 0, i.txid) && Number(InputBytes(i), 32, 4, i.vout)
  {
    HoldsMiddle(i.txid, U32Bytes(i.vout), []);
    assert InputBytes(i) == i.txid + U32Bytes(i.vout) + [];
    HoldsNumber(InputBytes(i), 32, 4, i.vout);
  }

  // Item k of a list starts where the items before it end.
  lemma {:induction false} ItemHeld<T>(bytes: T -> Bytes, xs: seq<T>, k: nat)
    requires k < |xs|
    ensures Holds(ListBytes(bytes, xs), |ListBytes(bytes, xs[..k])|, bytes(xs[k]))
  {
    if k > 0 {
      ItemHeld(bytes, xs[1..], k - 1);
      assert xs[..k][1..] == xs[1..][..k - 1];
      var s, rest := ListBytes(bytes, xs), ListBytes(bytes, xs[1..]);
      assert s == bytes(xs[0]) + rest;
      HoldsMiddle(bytes(xs[0]), rest, []);
      assert s + [] == s;
      HoldsWithin(s, |bytes(xs[0])|, rest, |ListBytes(bytes, xs[1..][..k - 1])|, bytes(xs[k]));
    }
  }

  // Appending leaves every field where it was and puts the new one at the end.
  lemma Append(s: Bytes, part: Bytes)
    ensures Holds(s + part, |s|, part)
    ensures forall at: nat, field: Bytes :: Holds(s, at, field) ==> Holds(s + part, at, field)
  {
    forall at: nat, field: Bytes | Holds(s, at, field)
      ensures Holds(s + part, at, field)
    {
      assert (s + part)[at..at + |field|] == s[at..at + |field|];
    }
  }

  // The seven sections of a body.
  lemma BodySections(b: RawBody)
    ensures var s, outs := BodyBytes(b), 8 + 36 * |b.inputs|;
            var locktime := outs + 4 + OutputsSize(b.outputs);
            && |s| == locktime + 12 + |b.coinbaseData|
            && Holds(s, 0, U32Bytes(b.version))
            && Holds(s, 4, U32Bytes(|b.inputs| % TWO_32))
            && Holds(s, 8, ListBytes(InputBytes, b.inputs))
            && Holds(s, outs, U32Bytes(|b.outputs| % TWO_32))
            && Holds(s, outs + 4, ListBytes(OutputBytes, b.outputs))
            && Holds(s, locktime, U64Bytes(b.locktime))
            && Holds(s, locktime + 8, U32Bytes(|b.coinbaseData| % TWO_32))
            && Holds(s, locktime + 12, b.coinbaseData)
  {
    hide OutputsSize, ListBytes, Holds, LeBytes;
    InputsLength(b.inputs);
    OutputsLength(b.outputs);
    var p0: Bytes := [];
    var p1 := p0 + U32Bytes(b.version);
    var p2 := p1 + U32Bytes(|b.inputs| % TWO_32);
    var p3 := p2 + ListBytes(InputBytes, b.inputs);
    var p4 := p3 + U32Bytes(|b.outputs| % TWO_32);
    var p5 := p4 + ListBytes(OutputBytes, b.outputs);
    var p6 := p5 + U64Bytes(b.locktime);
    var p7 := p6 + U32Bytes(|b.coinbaseData| % TWO_32);
    Append(p0, U32Bytes(b.version));
    Append(p1, U32Bytes(|b.inputs| % TWO_32));
    Append(p2, ListBytes(InputBytes, b.inputs));
    Append(p3, U32Bytes(|b.outputs| % TWO_32));
    Append(p4, ListBytes(OutputBytes, b.outputs));
    Append(p5, U64Bytes(b.locktime));
    Append(p6, U32Bytes(|b.coinbaseData| % TWO_32));
    Append(p7, b.coinbaseData);
    assert BodyBytes(b) == p7 + b.coinbaseData;
  }

  lemma InputsHeld(s: Bytes, at: nat, ins: seq<RawInput>, i: nat)
    requires Holds(s, at, ListBytes(InputBytes, ins)) && i < |ins|
    ensures Holds(s, at + 36 * i, ins[i].txid) && Number(s, at + 36 * i + 32, 4, ins[i].vout)
  {
    hide ListBytes, Holds, Number, LeBytes;
    InputsLength(ins[..i]);
    ItemHeld(InputBytes, ins, i);
    InputLayout(ins[i]);
    HoldsWithin(s, at, ListBytes(InputBytes, ins), 36 * i, InputBytes(ins[i]));
    HoldsWithin(s, at + 36 * i, InputBytes(ins[i]), 0, ins[i].txid);
    NumberWithin(s, at + 36 * i, InputBytes(ins[i]), 32, 4, ins[i].vout);
  }

  lemma NumberWithin(s: Bytes, at: nat, part: Bytes, off: nat, n: nat, v: nat)
    requires Holds(s, at, part) && Number(part, off, n, v)
    ensures Number(s, at + off, n, v)
  {
    forall j | off <= j < off + n
      ensures s[at + j] == part[j]
    {
      assert s[at..at + |part|][j] == s[at + j];
    }
    forall i | 0 <= i < n
      ensures s[(at + off) + i] == v / Shl256(i) % 256
    {
      assert s[at + (off + i)] == part[off + i];
    }
  }

  lemma OutputsHeld(s: Bytes, at: nat, outs: seq<TxOutput>, i: nat)
    requires Holds(s, at, ListBytes(OutputBytes, outs)) && i < |outs|
    ensures Holds(s, at + OutputsSize(outs[..i]), OutputBytes(outs[i]))
  {
    hide ListBytes, Holds, OutputBytes, OutputsSize;
    OutputsLength(outs[..i]);
    ItemHeld(OutputBytes, outs, i);
    HoldsWithin(s, at, ListBytes(OutputBytes, outs), OutputsSize(outs[..i]), OutputBytes(outs[i]));
  }

  // A body: version, inputs of 36 bytes, outputs, lock time, coinbase data.
  lemma BodyLayout(b: RawBody)
    requires |b.inputs| < TWO_32 && |b.outputs| < TWO_32 && |b.coinbaseData| < TWO_32
    ensures var s, outs := BodyBytes(b), 8 + 36 * |b.inputs|;
            var locktime := outs + 4 + OutputsSize(b.outputs);
            && |s| == locktime + 12 + |b.coinbaseData|
            && Number(s, 0, 4, b.version)
            && Number(s, 4, 4, |b.inputs|)
            && (forall i :: 0 <= i < |b.inputs| ==>
                  Holds(s, 8 + 36 * i, b.inputs[i].txid) && Number(s, 8 + 36 * i + 32, 4, b.inputs[i].vout))
            && Number(s, outs, 4, |b.outputs|)
            && (forall i :: 0 <= i < |b.outputs| ==>
                  Holds(s, outs + 4 + OutputsSize(b.outputs[..i]), OutputBytes(b.outputs[i])))
            && Number(s, locktime, 8, b.locktime)
            && Number(s, locktime + 8, 4, |b.coinbaseData|)
            && Holds(s, locktime + 12, b.coinbaseData)
  {
    hide OutputsSize, ListBytes, OutputBytes, InputBytes, BodyBytes, Number, Holds, LeBytes;
    var s, outs := BodyBytes(b), 8 + 36 * |b.inputs|;
    var locktime := outs + 4 + OutputsSize(b.outputs);
    BodySections(b);
    HoldsNumber(s, 0, 4, b.version);
    HoldsNumber(s, 4, 4, |b.inputs|);
    HoldsNumber(s, outs, 4, |b.outputs|);
    HoldsNumber(s, locktime, 8, b.locktime);
    HoldsNumber(s, locktime + 8, 4, |b.coinbaseData|);
    forall i | 0 <= i < |b.inputs|
      ensures Holds(s, 8 + 36 * i, b.inputs[i].txid) && Number(s, 8 + 36 * i + 32, 4, b.inputs[i].vout)
    {
      InputsHeld(s, 8, b.inputs, i);
    }
    forall i | 0 <= i < |b.outputs|
      ensures Holds(s, outs + 4 + OutputsSize(b.outputs[..i]), OutputBytes(b.outputs[i]))
    {
      OutputsHeld(s, outs + 4, b.outputs, i);
    }
  }

  lemma WitnessLayout(w: Witness)
    requires |w.pubkey| < TWO_32 && |w.signature| < TWO_32
    ensures var s := WitnessBytes(w);
            && Number(s, 0, 4, |w.pubkey|) && Holds(s, 4, w.pubkey)
            && Number(s, 4 + |w.pubkey|, 4, |w.signature|) && Holds(s, 8 + |w.pubkey|, w.signature)
  {
    hide Holds, LeBytes;
    var p1 := [] + U32Bytes(|w.pubkey|);
    var p2 := p1 + w.pubkey;
    var p3 := p2 + U32Bytes(|w.signature|);
    Append([], U32Bytes(|w.pubkey|));
    Append(p1, w.pubkey);
    Append(p2, U32Bytes(|w.signature|));
    Append(p3, w.signature);
    var s := WitnessBytes(w);
    assert s == p3 + w.signature;
    HoldsNumber(s, 0, 4, |w.pubkey|);
    HoldsNumber(s, 4 + |w.pubkey|, 4, |w.signature|);
  }

  // A transaction: its body behind the body's length, then its witnesses, counted.
  lemma TxLayout(tx: RawTx)
    requires BodySize(tx.body) < TWO_32 && |tx.witnesses| < TWO_32
    ensures var s, ws := TxBytes(tx), 4 + BodySize(tx.body);
            && |s| == ws + 4 + WitnessesSize(tx.witnesses)
            && Number(s, 0, 4, BodySize(tx.body))
            && Holds(s, 4, BodyBytes(tx.body))
            && Number(s, ws, 4, |tx.witnesses|)
            && forall i :: 0 <= i < |tx.witnesses| ==>
                 Holds(s, ws + 4 + WitnessesSize(tx.witnesses[..i]), WitnessBytes(tx.witnesses[i]))
  {
    hide Holds, LeBytes, BodyBytes, BodySize, ListBytes, WitnessesSize, WitnessBytes, Number;
    var ws, list := 4 + BodySize(tx.body), ListBytes(WitnessBytes, tx.witnesses);
    BodyLength(tx.body);
    TxLength(tx);
    var p1 := [] + U32Bytes(BodySize(tx.body));
    var p2 := p1 + BodyBytes(tx.body);
    var p3 := p2 + U32Bytes(|tx.witnesses|);
    Append([], U32Bytes(BodySize(tx.body)));
    Append(p1, BodyBytes(tx.body));
    Append(p2, U32Bytes(|tx.witnesses|));
    Append(p3, list);
    var s := TxBytes(tx);
    assert s == p3 + list;
    HoldsNumber(s, 0, 4, BodySize(tx.body));
    HoldsNumber(s, ws, 4, |tx.witnesses|);
    forall i | 0 <= i < |tx.witnesses|
      ensures Holds(s, ws + 4 + WitnessesSize(tx.witnesses[..i]), WitnessBytes(tx.witnesses[i]))
    {
      WitnessesLength(tx.witnesses[..i]);
      ItemHeld(WitnessBytes, tx.witnesses, i);
      HoldsWithin(s, ws + 4, list, WitnessesSize(tx.witnesses[..i]), WitnessBytes(tx.witnesses[i]));
    }
  }

  // ----- blocks -----

  // The 120 bytes of a header; all but the last eight are mined.
  lemma HeaderLayout(h: RawHeader)
    ensures var s := HeaderBytes(h);
            && |s| == 120 && PowBytes(h) == s[..112]
            && Number(s, 0, 4, h.version)
            && Holds(s, 4, h.prev) && Holds(s, 36, h.txRoot) && Holds(s, 68, h.witnessRoot)
            && Number(s, 100, 8, h.time) && Number(s, 108, 4, h.bits) && Number(s, 112, 8, h.nonce)
  {
    hide Holds, LeBytes, Number;
    var p1 := [] + U32Bytes(h.version);
    var p2 := p1 + h.prev;
    var p3 := p2 + h.txRoot;
    var p4 := p3 + h.witnessRoot;
    var p5 := p4 + U64Bytes(h.time);
    var p6 := p5 + U32Bytes(h.bits);
    Append([], U32Bytes(h.version));
    Append(p1, h.prev);
    Append(p2, h.txRoot);
    Append(p3, h.witnessRoot);
    Append(p4, U64Bytes(h.time));
    Append(p5, U32Bytes(h.bits));
    Append(p6, U64Bytes(h.nonce));
    var s := HeaderBytes(h);
    assert s == p6 + U64Bytes(h.nonce);
    HoldsNumber(s, 0, 4, h.version);
    HoldsNumber(s, 100, 8, h.time);
    HoldsNumber(s, 108, 4, h.bits);
    HoldsNumber(s, 112, 8, h.nonce);
  }

  // A block: its header, and its transactions, counted.
  lemma BlockLayout(b: RawBlock)
    requires |b.transactions| < TWO_32
    ensures var s := BlockBytes(b);
            && |s| == BlockSize(b)
            && Holds(s, 0, HeaderBytes(b.header))
            && Number(s, 120, 4, |b.transactions|)
            && forall i :: 0 <= i < |b.transactions| ==>
                 Holds(s, 124 + TxsSize(b.transactions[..i]), TxBytes(b.transactions[i]))
  {
    hide Holds, LeBytes, HeaderBytes, ListBytes, TxsSize, TxBytes, Number;
    var list := ListBytes(TxBytes, b.transactions);
    HeaderLayout(b.header);
    BlockLength(b);
    var p1 := [] + HeaderBytes(b.header);
    var p2 := p1 + U32Bytes(|b.transactions|);
    Append([], HeaderBytes(b.header));
    Append(p1, U32Bytes(|b.transactions|));
    Append(p2, list);
    var s := BlockBytes(b);
    assert s == p2 + list;
    HoldsNumber(s, 120, 4, |b.transactions|);
    forall i | 0 <= i < |b.transactions|
      ensures Holds(s, 124 + TxsSize(b.transactions[..i]), TxBytes(b.transactions[i]))
    {
      TxsLength(b.transactions[..i]);
      ItemHeld(TxBytes, b.transactions, i);
      HoldsWithin(s, 124, list, TxsSize(b.transactions[..i]), TxBytes(b.transactions[i]));
    }
  }

  // ----- messages -----

  // The number of a message kind, which is its first byte.
  function KindNumber(m: Message): nat {
    if m.Hello? then 1 else if m.Ping? then 2 else if m.Pong? then 3 else if m.Inv? then 4
    else if m.GetData? then 5 else if m.GetBlocks? then 6 else if m.BlockMsg? then 7
    else if m.TxMsg? then 8 else if m.GetAddr? then 9 else if m.Addr? then 10 else 0
  }

  // A list of hashes: a count, and 32 bytes each.
  lemma HashesLayout(hs: seq<Hash32>)
    requires |hs| < TWO_32
    ensures var s := HashesBytes(hs);
            && |s| == 4 + 32 * |hs| && Number(s, 0, 4, |hs|)
            && forall i :: 0 <= i < |hs| ==> Holds(s, 4 + 32 * i, hs[i])
  {
    hide Holds, LeBytes, ListBytes, Number;
    var s, list := HashesBytes(hs), ListBytes(HashBytes, hs);
    HashesLength(hs);
    Append([], U32Bytes(|hs|));
    Append([] + U32Bytes(|hs|), list);
    assert s == [] + U32Bytes(|hs|) + list;
    HoldsNumber(s, 0, 4, |hs|);
    forall i | 0 <= i < |hs|
      ensures Holds(s, 4 + 32 * i, hs[i])
    {
      HashesLength(hs[..i]);
      ItemHeld(HashBytes, hs, i);
      HoldsWithin(s, 4, list, 32 * i, hs[i]);
    }
  }

  lemma {:induction false} HashesLength(hs: seq<Hash32>)
    ensures |ListBytes(HashBytes, hs)| == 32 * |hs|
  {
    if hs != [] {
      HashesLength(hs[1..]);
    }
  }

  // An address: sixteen bytes, the last four of them an IPv4 address after ten zeros
  // and two of all ones, and the port.
  lemma AddrLayout(a: SocketAddr)
    ensures var s := AddrBytes(a);
            && |s| == 18 && Number(s, 16, 2, a.port)
            && if a.V4? then (forall i :: 0 <= i < 10 ==> s[i] == 0) && s[10] == 255 && s[11] == 255 && Holds(s, 12, a.ip4)
               else Holds(s, 0, a.ip6)
  {
    var ip := if a.V4? then MAPPED + a.ip4 else a.ip6;
    var s := AddrBytes(a);
    HoldsMiddle(ip, LeBytes(a.port, 2), []);
    assert s == ip + LeBytes(a.port, 2) + [];
    HoldsNumber(s, 16, 2, a.port);
  }

  lemma HelloSections(m: Message)
    requires m.Hello?
    ensures var s := MessageBytes(m);
            && |s| == 55 && s[0] == 1
            && Holds(s, 1, U32Bytes(m.version)) && Holds(s, 5, U64Bytes(m.height)) && Holds(s, 13, m.tip)
            && Holds(s, 45, LeBytes(m.listenPort, 2)) && Holds(s, 47, U64Bytes(m.nonce))
  {
    hide Holds, LeBytes;
    var p1: Bytes := [1];
    var p2 := p1 + U32Bytes(m.version);
    var p3 := p2 + U64Bytes(m.height);
    var p4 := p3 + m.tip;
    var p5 := p4 + LeBytes(m.listenPort, 2);
    Append(p1, U32Bytes(m.version));
    Append(p2, U64Bytes(m.height));
    Append(p3, m.tip);
    Append(p4, LeBytes(m.listenPort, 2));
    Append(p5, U64Bytes(m.nonce));
    var s := p5 + U64Bytes(m.nonce);
    HelloAssembled(m, U32Bytes(m.version), U64Bytes(m.height), LeBytes(m.listenPort, 2), U64Bytes(m.nonce));
    assert s[0] == 1;
  }

  lemma HelloAssembled(m: Message, version: Bytes, height: Bytes, port: Bytes, nonce: Bytes)
    requires m.Hello? && version == U32Bytes(m.version) && height == U64Bytes(m.height)
    requires port == LeBytes(m.listenPort, 2) && nonce == U64Bytes(m.nonce)
    ensures MessageBytes(m) == [1] + version + height + m.tip + port + nonce
  {
    hide U32Bytes, U64Bytes, LeBytes;
  }

  // A greeting is 55 bytes with its kind.
  lemma HelloLayout(m: Message)
    requires m.Hello?
    ensures var s := MessageBytes(m);
            && |s| == 55 && s[0] == 1
            && Number(s, 1, 4, m.version) && Number(s, 5, 8, m.height) && Holds(s, 13, m.tip)
            && Number(s, 45, 2, m.listenPort) && Number(s, 47, 8, m.nonce)
  {
    hide Holds, LeBytes, Number, MessageBytes;
    var s := MessageBytes(m);
    HelloSections(m);
    HoldsNumber(s, 1, 4, m.version);
    HoldsNumber(s, 5, 8, m.height);
    HoldsNumber(s, 45, 2, m.listenPort);
    HoldsNumber(s, 47, 8, m.nonce);
  }

  // Every message: its kind, then what it carries.
  lemma MessageLayout(m: Message)
    requires !m.Unknown?
    ensures var s := MessageBytes(m);
            && s != [] && s[0] == KindNumber(m)
            && (m.GetBlocks? ==> Holds(s, 1, HashesBytes(m.locator)))
            && (m.BlockMsg? ==> Holds(s, 1, BlockBytes(m.block)))
            && (m.TxMsg? ==> Holds(s, 1, TxBytes(m.tx)))
            && (m.Addr? ==> Holds(s, 1, AddrsBytes(m.addrs)))
            && (m.GetAddr? ==> |s| == 1)
  {
    hide LeBytes, HashesBytes, BlockBytes, TxBytes, AddrsBytes, HelloBytes;
  }

  // A probe and its answer are nine bytes.
  lemma PingLayout(m: Message)
    requires m.Ping? || m.Pong?
    ensures |MessageBytes(m)| == 9 && Number(MessageBytes(m), 1, 8, m.n)
  {
    hide LeBytes, Number;
    HoldsMiddle([KindNumber(m)], U64Bytes(m.n), []);
    assert MessageBytes(m) == [KindNumber(m)] + U64Bytes(m.n) + [];
    HoldsNumber(MessageBytes(m), 1, 8, m.n);
  }

  // An announcement and a request: the blocks' hashes, then the transactions'.
  lemma ListsLayout(m: Message)
    requires (m.Inv? || m.GetData?) && |m.blocks| < TWO_32
    ensures Holds(MessageBytes(m), 1, HashesBytes(m.blocks))
    ensures Holds(MessageBytes(m), 5 + 32 * |m.blocks|, HashesBytes(m.txs))
  {
    hide Holds, LeBytes, HashesBytes, Number, MessageBytes;
    HashesLayout(m.blocks);
    var p1: Bytes := [KindNumber(m)];
    ListsAssembled(m, HashesBytes(m.blocks), HashesBytes(m.txs));
    Append(p1, HashesBytes(m.blocks));
    Append(p1 + HashesBytes(m.blocks), HashesBytes(m.txs));
  }

  lemma ListsAssembled(m: Message, blocks: Bytes, txs: Bytes)
    requires (m.Inv? || m.GetData?) && blocks == HashesBytes(m.blocks) && txs == HashesBytes(m.txs)
    ensures MessageBytes(m) == [KindNumber(m)] + blocks + txs
  {
    hide HashesBytes;
  }

  // ----- the chain file -----

  function FramesSize(blocks: seq<RawBlock>): nat {
    if blocks == [] then 0 else FramesSize(blocks[..|blocks| - 1]) + 4 + BlockSize(blocks[|blocks| - 1])
  }

  lemma {:induction false} FramesLength(blocks: seq<RawBlock>)
    ensures |ListBytes(FrameBytes, blocks)| == FramesSize(blocks)
  {
    hide FrameBytes, BlockSize, U32Bytes;
    if blocks != [] {
      var n := |blocks| - 1;
      FramesLength(blocks[..n]);
      ListBytesSnoc(FrameBytes, blocks[..n], blocks[n]);
      assert blocks[..n] + [blocks[n]] == blocks;
      FrameLength(blocks[n]);
    }
  }

  lemma FrameLength(b: RawBlock)
    ensures |FrameBytes(b)| == 4 + BlockSize(b)
  {
    hide BlockBytes, BlockSize;
    BlockLength(b);
  }

  // The chain file: "SUMPCHN1", the network, a count, and each block behind its length.
  lemma FileLayout(f: Saved)
    requires |f.blocks| < TWO_32
    ensures var s := FileBytes(f);
            && |s| == 13 + FramesSize(f.blocks)
            && (forall i :: 0 <= i < 8 ==> s[i] as char == "SUMPCHN1"[i])
            && s[8] == f.network
            && Number(s, 9, 4, |f.blocks|)
            && forall i :: 0 <= i < |f.blocks| && BlockSize(f.blocks[i]) < TWO_32 ==>
                 var at := 13 + FramesSize(f.blocks[..i]);
                 Number(s, at, 4, BlockSize(f.blocks[i])) && Holds(s, at + 4, BlockBytes(f.blocks[i]))
  {
    hide Holds, LeBytes, ListBytes, FramesSize, FrameBytes, BlockBytes, BlockSize, Number;
    var list := ListBytes(FrameBytes, f.blocks);
    FramesLength(f.blocks);
    var p1 := MAGIC + [f.network];
    var p2 := p1 + U32Bytes(|f.blocks|);
    Append(p1, U32Bytes(|f.blocks|));
    Append(p2, list);
    var s := FileBytes(f);
    assert s == p2 + list;
    HoldsNumber(s, 9, 4, |f.blocks|);
    forall i | 0 <= i < |f.blocks| && BlockSize(f.blocks[i]) < TWO_32
      ensures var at := 13 + FramesSize(f.blocks[..i]);
              Number(s, at, 4, BlockSize(f.blocks[i])) && Holds(s, at + 4, BlockBytes(f.blocks[i]))
    {
      FramesLength(f.blocks[..i]);
      ItemHeld(FrameBytes, f.blocks, i);
      FrameHeld(s, 13, list, FramesSize(f.blocks[..i]), f.blocks[i]);
    }
  }

  lemma FrameHeld(s: Bytes, at: nat, list: Bytes, off: nat, b: RawBlock)
    requires Holds(s, at, list) && Holds(list, off, FrameBytes(b)) && BlockSize(b) < TWO_32
    ensures Number(s, at + off, 4, BlockSize(b)) && Holds(s, at + off + 4, BlockBytes(b))
  {
    hide Holds, LeBytes, BlockBytes, BlockSize, Number;
    BlockLength(b);
    HoldsWithin(s, at, list, off, FrameBytes(b));
    Append([], U32Bytes(BlockSize(b)));
    Append([] + U32Bytes(BlockSize(b)), BlockBytes(b));
    assert FrameBytes(b) == [] + U32Bytes(BlockSize(b)) + BlockBytes(b);
    HoldsWithin(s, at + off, FrameBytes(b), 0, U32Bytes(BlockSize(b)));
    HoldsWithin(s, at + off, FrameBytes(b), 4, BlockBytes(b));
    HoldsNumber(s, at + off, 4, BlockSize(b));
  }
}
