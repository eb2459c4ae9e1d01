// Protocol messages as bytes.
module Wire {
  import opened Prelude
  import opened Protocol
  import opened LittleEndian
  import opened Encode
  import opened Tx
  import opened Codec
  import opened CodecMethods

  type Ip4 = s: Bytes | |s| == 4 witness [0, 0, 0, 0]
  type Ip6 = s: Bytes | |s| == 16 witness seq(16, _ => 0)

  datatype SocketAddr =
    | V4(ip4: Ip4, port: U16)
    | V6(ip6: Ip6, port: U16, flow: U32, scope: U32)

  datatype Message =
    | Hello(version: U32, height: U64, tip: Hash32, listenPort: U16, nonce: U64)
    | Ping(n: U64)
    | Pong(n: U64)
    | Inv(blocks: seq<Hash32>, txs: seq<Hash32>)
    | GetData(blocks: seq<Hash32>, txs: seq<Hash32>)
    | GetBlocks(locator: seq<Hash32>)
    | BlockMsg(block: RawBlock)
    | TxMsg(tx: RawTx)
    | GetAddr
    | Addr(addrs: seq<SocketAddr>)
    | Unknown

  // ----- addresses: 16 bytes, IPv4 mapped into IPv6, then the port -----

  // ::ffff:0:0/96, section 2.5.5.2 of RFC 4291.
  const MAPPED: Bytes := [0, 0, 0, 0, 0, 0, 0, 0, 0, 0, 0xFF, 0xFF]

  function AddrBytes(a: SocketAddr): Bytes {
    match a
    case V4(ip, port) => MAPPED + ip + LeBytes(port, 2)
    case V6(ip, port, _, _) => ip + LeBytes(port, 2)
  }

  function ParseAddr(s: Bytes): Parsed<SocketAddr> {
    var octets :- ParseBytes(s, 16);
    var port :- ParseU16(octets.rest);
    var addr := if octets.value[..12] == MAPPED then V4(octets.value[12..], port.value)
                else V6(octets.value, port.value, 0, 0);
    Ok(Read(addr, port.rest))
  }

  // What the encoding keeps: no mapped IPv4, flow label or scope in an IPv6 address.
  predicate PlainAddr(a: SocketAddr) {
    a.V6? ==> a.ip6[..12] != MAPPED && a.flow == 0 && a.scope == 0
  }

  lemma AddrRoundTrip(a: SocketAddr, suffix: Bytes)
    requires PlainAddr(a)
    ensures ParseAddr(AddrBytes(a) + suffix) == Ok(Read(a, suffix))
  {
    hide ParseU16;
    var ip := if a.V4? then MAPPED + a.ip4 else a.ip6;
    var rest := LeBytes(a.port, 2) + suffix;
    BytesRoundTrip(ip, rest);
    U16RoundTrip(a.port, suffix);
    assert AddrBytes(a) + suffix == ip + rest;
    if a.V4? {
      assert ip[..12] == MAPPED && ip[12..] == a.ip4;
    }
  }

  lemma AddrCanonical(s: Bytes)
    ensures ParseAddr(s).Ok? ==>
              PlainAddr(ParseAddr(s).value.value) && s == AddrBytes(ParseAddr(s).value.value) + ParseAddr(s).value.rest
  {
    if ParseAddr(s).Ok? {
      var rest := s[16..];
      LeCanonical(rest[..2]);
      assert s == s[..16] + rest && rest == rest[..2] + rest[2..];
      assert s[..16] == s[..16][..12] + s[..16][12..];
    }
  }

  lemma AddrInverse()
    ensures Inverse(ParseAddr, AddrBytes, PlainAddr)
  {
    hide ParseAddr, AddrBytes, PlainAddr;
    forall a, suffix | PlainAddr(a) ensures ParseAddr(AddrBytes(a) + suffix) == Ok(Read(a, suffix)) {
      AddrRoundTrip(a, suffix);
    }
    forall s | ParseAddr(s).Ok?
      ensures PlainAddr(ParseAddr(s).value.value) && s == AddrBytes(ParseAddr(s).value.value) + ParseAddr(s).value.rest {
      AddrCanonical(s);
    }
  }

  // ----- hash lists -----

  function HashBytes(h: Hash32): Bytes {
    h
  }

  function HashesBytes(hs: seq<Hash32>): Bytes {
    U32Bytes(|hs| % TWO_32) + ListBytes(HashBytes, hs)
  }

  function ParseHashes(s: Bytes, max: nat): Parsed<seq<Hash32>> {
    var n :- ParseCount(s, max);
    ParseList(ParseHash, n.rest, n.value)
  }

  lemma HashInverse()
    ensures Inverse(ParseHash, HashBytes, Any<Hash32>)
  {
    hide ParseHash;
    forall h, suffix ensures ParseHash(HashBytes(h) + suffix) == Ok(Read(h, suffix)) {
      HashRoundTrip(h, suffix);
    }
    forall s ensures ParseHash(s).Ok? ==> s == HashBytes(ParseHash(s).value.value) + ParseHash(s).value.rest {
      HashCanonical(s);
    }
  }

  lemma HashesRoundTrip(hs: seq<Hash32>, max: nat, suffix: Bytes)
    requires |hs| <= max < TWO_32
    ensures ParseHashes(HashesBytes(hs) + suffix, max) == Ok(Read(hs, suffix))
  {
    hide U32Bytes, ListBytes, ParseCount, ParseList, Inverse;
    HashInverse();
    CountRoundTrip(|hs|, max, ListBytes(HashBytes, hs) + suffix);
    ListRoundTrip(ParseHash, HashBytes, Any<Hash32>, hs, suffix);
    assert HashesBytes(hs) + suffix == U32Bytes(|hs|) + (ListBytes(HashBytes, hs) + suffix);
  }

  lemma HashesCanonical(s: Bytes, max: nat)
    requires max < TWO_32
    ensures ParseHashes(s, max).Ok? ==>
              var r := ParseHashes(s, max).value;
              |r.value| <= max && s == HashesBytes(r.value) + r.rest
  {
    hide U32Bytes, ListBytes, ParseCount, ParseList, Inverse;
    if ParseHashes(s, max).Ok? {
      HashInverse();
      var n := ParseCount(s, max).value;
      CountCanonical(s, max);
      ListCanonical(ParseHash, HashBytes, Any<Hash32>, n.rest, n.value);
    }
  }

  function ParseTwoLists(s: Bytes): Parsed<(seq<Hash32>, seq<Hash32>)> {
    var blocks :- ParseHashes(s, MAX_INV);
    var txs :- ParseHashes(blocks.rest, MAX_INV);
    Ok(Read((blocks.value, txs.value), txs.rest))
  }

  lemma TwoListsRoundTrip(blocks: seq<Hash32>, txs: seq<Hash32>, suffix: Bytes)
    requires |blocks| <= MAX_INV && |txs| <= MAX_INV
    ensures ParseTwoLists(HashesBytes(blocks) + (HashesBytes(txs) + suffix)) == Ok(Read((blocks, txs), suffix))
  {
    hide HashesBytes, ParseHashes;
    HashesRoundTrip(blocks, MAX_INV, HashesBytes(txs) + suffix);
    HashesRoundTrip(txs, MAX_INV, suffix);
  }

  lemma TwoListsCanonical(s: Bytes)
    ensures ParseTwoLists(s).Ok? ==>
              var r := ParseTwoLists(s).value;
              && |r.value.0| <= MAX_INV && |r.value.1| <= MAX_INV
              && s == HashesBytes(r.value.0) + (HashesBytes(r.value.1) + r.rest)
  {
    hide HashesBytes, ParseHashes;
    if ParseTwoLists(s).Ok? {
      HashesCanonical(s, MAX_INV);
      HashesCanonical(ParseHashes(s, MAX_INV).value.rest, MAX_INV);
    }
  }

  function AddrsBytes(addrs: seq<SocketAddr>): Bytes {
    U32Bytes(|addrs| % TWO_32) + ListBytes(AddrBytes, addrs)
  }

  function ParseAddrs(s: Bytes): Parsed<seq<SocketAddr>> {
    var n :- ParseCount(s, MAX_ADDRS);
    ParseList(ParseAddr, n.rest, n.value)
  }

  predicate PlainAddrs(addrs: seq<SocketAddr>) {
    |addrs| <= MAX_ADDRS && forall a :: a in addrs ==> PlainAddr(a)
  }

  lemma AddrsRoundTrip(addrs: seq<SocketAddr>, suffix: Bytes)
    requires PlainAddrs(addrs)
    ensures ParseAddrs(AddrsBytes(addrs) + suffix) == Ok(Read(addrs, suffix))
  {
    hide U32Bytes, ListBytes, ParseCount, ParseList, Inverse, PlainAddr;
    AddrInverse();
    CountRoundTrip(|addrs|, MAX_ADDRS, ListBytes(AddrBytes, addrs) + suffix);
    ListRoundTrip(ParseAddr, AddrBytes, PlainAddr, addrs, suffix);
    assert AddrsBytes(addrs) + suffix == U32Bytes(|addrs|) + (ListBytes(AddrBytes, addrs) + suffix);
  }

  lemma AddrsCanonical(s: Bytes)
    ensures ParseAddrs(s).Ok? ==>
              PlainAddrs(ParseAddrs(s).value.value) && s == AddrsBytes(ParseAddrs(s).value.value) + ParseAddrs(s).value.rest
  {
    hide U32Bytes, ListBytes, ParseCount, ParseList, Inverse, PlainAddr;
    if ParseAddrs(s).Ok? {
      AddrInverse();
      var n := ParseCount(s, MAX_ADDRS).value;
      CountCanonical(s, MAX_ADDRS);
      ListCanonical(ParseAddr, AddrBytes, PlainAddr, n.rest, n.value);
    }
  }

  // ----- greetings: the nonce is optional -----

  function HelloBytes(m: Message): Bytes
    requires m.Hello?
  {
    U32Bytes(m.version) + (U64Bytes(m.height) + (m.tip + LeBytes(m.listenPort, 2)))
  }

  function ParseHello(s: Bytes): Parsed<Message> {
    var version :- ParseU32(s);
    var height :- ParseU64(version.rest);
    var tip :- ParseHash(height.rest);
    var listenPort :- ParseU16(tip.rest);
    var hello := (nonce: U64) => Hello(version.value, height.value, tip.value, listenPort.value, nonce);
    if |listenPort.rest| < 8 then Ok(Read(hello(0), listenPort.rest))
    else
      var nonce :- ParseU64(listenPort.rest);
      Ok(Read(hello(nonce.value), nonce.rest))
  }

  lemma HelloFields(m: Message, suffix: Bytes)
    requires m.Hello?
    ensures ParseHello(HelloBytes(m) + suffix)
            == if |suffix| < 8 then Ok(Read(m.(nonce := 0), suffix))
               else Ok(Read(m.(nonce := ParseU64(suffix).value.value), ParseU64(suffix).value.rest))
  {
    hide ParseU32, U32Bytes, U64Bytes, ParseHash;
    var s3 := LeBytes(m.listenPort, 2) + suffix;
    var s2 := m.tip + s3;
    var s1 := U64Bytes(m.height) + s2;
    U32RoundTrip(m.version, s1);
    U64RoundTrip(m.height, s2);
    HashRoundTrip(m.tip, s3);
    U16RoundTrip(m.listenPort, suffix);
    assert HelloBytes(m) + suffix == U32Bytes(m.version) + s1;
  }

  lemma HelloRoundTrip(m: Message, suffix: Bytes)
    requires m.Hello?
    ensures ParseHello(HelloBytes(m) + (U64Bytes(m.nonce) + suffix)) == Ok(Read(m, suffix))
  {
    hide ParseHello, HelloBytes;
    HelloFields(m, U64Bytes(m.nonce) + suffix);
    U64RoundTrip(m.nonce, suffix);
  }

  // The four fixed fields take 46 bytes.
  lemma HelloHead(s: Bytes)
    requires ParseHello(s).Ok?
    ensures |s| >= 46 && ParseHello(s).value.value.Hello? && s == HelloBytes(ParseHello(s).value.value) + s[46..]
    ensures var rest, r := s[46..], ParseHello(s).value;
            if |rest| < 8 then r.value.nonce == 0 && r.rest == rest
            else ParseU64(rest).Ok? && r.value.nonce == ParseU64(rest).value.value && r.rest == ParseU64(rest).value.rest
  {
    hide U32Bytes, U64Bytes;
    var s1 := ParseU32(s).value.rest;
    var s2 := ParseU64(s1).value.rest;
    var s3 := ParseHash(s2).value.rest;
    var s4 := ParseU16(s3).value.rest;
    U32Canonical(s);
    U64Canonical(s1);
    HashCanonical(s2);
    LeCanonical(s3[..2]);
    assert s3 == s3[..2] + s4;
    assert s4 == s[46..];
  }

  lemma HelloCanonical(s: Bytes)
    ensures ParseHello(s).Ok? ==>
              var r := ParseHello(s).value;
              && r.value.Hello?
              && if |s| < 46 + 8 then r.value.nonce == 0 && |r.rest| < 8 && s == HelloBytes(r.value) + r.rest
                 else s == HelloBytes(r.value) + (U64Bytes(r.value.nonce) + r.rest)
  {
    hide U64Bytes, HelloBytes, ParseHello, ParseU64;
    if ParseHello(s).Ok? {
      HelloHead(s);
      U64Canonical(s[46..]);
    }
  }

  // ----- messages -----

  function TagOf(m: Message): byte {
    match m
    case Hello(_, _, _, _, _) => 1
    case Ping(_) => 2
    case Pong(_) => 3
    case Inv(_, _) => 4
    case GetData(_, _) => 5
    case GetBlocks(_) => 6
    case BlockMsg(_) => 7
    case TxMsg(_) => 8
    case GetAddr => 9
    case Addr(_) => 10
    case Unknown => 0
  }

  function Fields(m: Message): Bytes {
    match m
    case Hello(_, _, _, _, nonce) => HelloBytes(m) + U64Bytes(nonce)
    case Ping(n) => U64Bytes(n)
    case Pong(n) => U64Bytes(n)
    case Inv(blocks, txs) => HashesBytes(blocks) + HashesBytes(txs)
    case GetData(blocks, txs) => HashesBytes(blocks) + HashesBytes(txs)
    case GetBlocks(locator) => HashesBytes(locator)
    case BlockMsg(b) => BlockBytes(b)
    case TxMsg(tx) => TxBytes(tx)
    case GetAddr => []
    case Addr(addrs) => AddrsBytes(addrs)
    case Unknown => []
  }

  // An unknown message is never sent: it encodes to nothing.
  function MessageBytes(m: Message): Bytes {
    if m.Unknown? then [] else [TagOf(m)] + Fields(m)
  }

  function ParseFields(tag: byte, s: Bytes): Parsed<Message> {
    if tag == 1 then ParseHello(s)
    else if tag == 2 then
      var n :- ParseU64(s);
      Ok(Read(Ping(n.value), n.rest))
    else if tag == 3 then
      var n :- ParseU64(s);
      Ok(Read(Pong(n.value), n.rest))
    else if tag == 4 then
      var lists :- ParseTwoLists(s);
      Ok(Read(Inv(lists.value.0, lists.value.1), lists.rest))
    else if tag == 5 then
      var lists :- ParseTwoLists(s);
      Ok(Read(GetData(lists.value.0, lists.value.1), lists.rest))
    else if tag == 6 then
      var locator :- ParseHashes(s, MAX_LOCATOR);
      Ok(Read(GetBlocks(locator.value), locator.rest))
    else if tag == 7 then
      var b :- ParseBlock(s);
      Ok(Read(BlockMsg(b.value), b.rest))
    else if tag == 8 then
      var tx :- ParseTx(s);
      Ok(Read(TxMsg(tx.value), tx.rest))
    else if tag == 9 then Ok(Read(GetAddr, s))
    else if tag == 10 then
      var addrs :- ParseAddrs(s);
      Ok(Read(Addr(addrs.value), addrs.rest))
    else Ok(Read(Unknown, s))
  }

  function ParseMessage(s: Bytes): Parsed<Message> {
    var tag :- ParseU8(s);
    ParseFields(tag.value, tag.rest)
  }

  // Bytes after the known fields are ignored.
  function DecodeBytes(s: Bytes): Result<Message, DecodeError> {
    var r :- ParseMessage(s);
    Ok(r.value)
  }

  predicate FitsMessage(m: Message) {
    match m
    case Inv(blocks, txs) => |blocks| <= MAX_INV && |txs| <= MAX_INV
    case GetData(blocks, txs) => |blocks| <= MAX_INV && |txs| <= MAX_INV
    case GetBlocks(locator) => |locator| <= MAX_LOCATOR
    case BlockMsg(b) => FitsBlock(b)
    case TxMsg(tx) => FitsTx(tx)
    case Addr(addrs) => PlainAddrs(addrs)
    case Unknown => false
    case _ => true
  }

  lemma FieldsRoundTrip(m: Message, suffix: Bytes)
    requires FitsMessage(m)
    ensures ParseFields(TagOf(m), Fields(m) + suffix) == Ok(Read(m, suffix))
  {
    hide U64Bytes, HashesBytes, BlockBytes, TxBytes, AddrsBytes, HelloBytes, ParseU64, ParseHello, ParseTwoLists, ParseHashes, ParseBlock, ParseTx, ParseAddrs;
    hide FitsBlock, FitsTx, PlainAddrs;
    match m
    case Hello(_, _, _, _, nonce) =>
      HelloRoundTrip(m, suffix);
      assert Fields(m) + suffix == HelloBytes(m) + (U64Bytes(nonce) + suffix);
    case Ping(n) => U64RoundTrip(n, suffix);
    case Pong(n) => U64RoundTrip(n, suffix);
    case Inv(blocks, txs) => ListsRoundTrip(m, suffix);
    case GetData(blocks, txs) => ListsRoundTrip(m, suffix);
    case GetBlocks(locator) => HashesRoundTrip(locator, MAX_LOCATOR, suffix);
    case BlockMsg(b) => BlockRoundTrip(b, suffix);
    case TxMsg(tx) => TxRoundTrip(tx, suffix);
    case GetAddr => assert [] + suffix == suffix;
    case Addr(addrs) => AddrsRoundTrip(addrs, suffix);
  }

  lemma ListsRoundTrip(m: Message, suffix: Bytes)
    requires FitsMessage(m) && (m.Inv? || m.GetData?)
    ensures ParseFields(TagOf(m), Fields(m) + suffix) == Ok(Read(m, suffix))
  {
    hide HashesBytes, ParseTwoLists;
    TwoListsRoundTrip(m.blocks, m.txs, suffix);
    assert Fields(m) + suffix == HashesBytes(m.blocks) + (HashesBytes(m.txs) + suffix);
  }

  lemma FieldsCanonical(tag: byte, s: Bytes)
    requires ParseFields(tag, s).Ok?
    ensures var r := ParseFields(tag, s).value;
            if tag == 0 || tag > 10 then r == Read(Unknown, s)
            else
              && FitsMessage(r.value) && TagOf(r.value) == tag
              && if tag == 1 && |s| < 46 + 8
                 then r.value.nonce == 0 && |r.rest| < 8 && s == HelloBytes(r.value) + r.rest
                 else s == Fields(r.value) + r.rest
  {
    hide U64Bytes, HashesBytes, BlockBytes, TxBytes, AddrsBytes, HelloBytes, ParseU64, ParseHello, ParseTwoLists, ParseHashes, ParseBlock, ParseTx, ParseAddrs;
    hide FitsBlock, FitsTx, PlainAddrs;
    if tag == 1 {
      HelloCanonical(s);
    } else if tag == 2 || tag == 3 {
      U64Canonical(s);
    } else if tag == 4 || tag == 5 {
      ListsCanonical(tag, s);
    } else if tag == 6 {
      HashesCanonical(s, MAX_LOCATOR);
    } else if tag == 7 {
      BlockCanonical(s);
    } else if tag == 8 {
      TxCanonical(s);
    } else if tag == 10 {
      AddrsCanonical(s);
    }
  }

  lemma ListsCanonical(tag: byte, s: Bytes)
    requires (tag == 4 || tag == 5) && ParseFields(tag, s).Ok?
    ensures var r := ParseFields(tag, s).value;
            FitsMessage(r.value) && TagOf(r.value) == tag && s == Fields(r.value) + r.rest
  {
    hide HashesBytes, ParseTwoLists;
    TwoListsCanonical(s);
  }

  // A message round-trips, whatever bytes a newer version appends to it, exactly
  // when it is within the limits, is not the unknown one, and its addresses are plain.
  lemma MessageRoundTrip(m: Message, suffix: Bytes)
    ensures FitsMessage(m) ==> DecodeBytes(MessageBytes(m) + suffix) == Ok(m)
    ensures DecodeBytes(MessageBytes(m)) == Ok(m) <==> FitsMessage(m)
  {
    hide Fields, ParseFields, FitsMessage;
    if FitsMessage(m) {
      NotUnknown(m);
      FieldsRoundTrip(m, suffix);
      FieldsRoundTrip(m, []);
      assert (MessageBytes(m) + suffix)[1..] == Fields(m) + suffix;
      assert MessageBytes(m)[1..] == Fields(m) + [];
    } else if DecodeBytes(MessageBytes(m)) == Ok(m) {
      FieldsCanonical(MessageBytes(m)[0], MessageBytes(m)[1..]);
    }
  }

  lemma NotUnknown(m: Message)
    requires FitsMessage(m)
    ensures !m.Unknown? && 1 <= TagOf(m) <= 10
  {
  }

  // Tags of later versions decode to the unknown message, which handlers ignore.
  lemma LaterTags(tag: byte, rest: Bytes)
    requires tag == 0 || tag > 10
    ensures DecodeBytes([tag] + rest) == Ok(Unknown)
  {
    assert ([tag] + rest)[1..] == rest;
  }

  // What decodes to what: a message from its own encoding with anything appended, a
  // greeting also from its fields without the nonce, and the unknown message from
  // the tags of later versions.
  lemma DecodeExactly(s: Bytes, m: Message)
    ensures DecodeBytes(s) == Ok(m) <==>
              || (FitsMessage(m) && MessageBytes(m) <= s)
              || (m.Hello? && m.nonce == 0 && |s| < 1 + 46 + 8 && [1] + HelloBytes(m) <= s)
              || (m.Unknown? && s != [] && (s[0] == 0 || s[0] > 10))
  {
    hide DecodeBytes, MessageBytes, HelloBytes, FitsMessage;
    if FitsMessage(m) && MessageBytes(m) <= s {
      MessageRoundTrip(m, s[|MessageBytes(m)|..]);
      assert s == MessageBytes(m) + s[|MessageBytes(m)|..];
    } else if m.Hello? && m.nonce == 0 && |s| < 1 + 46 + 8 && [1] + HelloBytes(m) <= s {
      BareHello(s, m);
    } else if m.Unknown? && s != [] && (s[0] == 0 || s[0] > 10) {
      LaterTags(s[0], s[1..]);
      assert s == [s[0]] + s[1..];
    }
    if DecodeBytes(s) == Ok(m) {
      DecodedFrom(s, m);
    }
  }

  lemma DecodedFrom(s: Bytes, m: Message)
    requires DecodeBytes(s) == Ok(m)
    ensures || (FitsMessage(m) && MessageBytes(m) <= s)
            || (m.Hello? && m.nonce == 0 && |s| < 1 + 46 + 8 && [1] + HelloBytes(m) <= s)
            || (m.Unknown? && s != [] && (s[0] == 0 || s[0] > 10))
  {
    hide Fields, ParseFields, FitsMessage, HelloBytes;
    FieldsCanonical(s[0], s[1..]);
    assert s == [s[0]] + s[1..];
  }

  lemma BareHello(s: Bytes, m: Message)
    requires m.Hello? && m.nonce == 0 && |s| < 1 + 46 + 8 && [1] + HelloBytes(m) <= s
    ensures DecodeBytes(s) == Ok(m)
  {
    hide HelloBytes, ParseHello;
    HelloSize(m);
    var suffix := s[47..];
    HelloFields(m, suffix);
    assert s == [1] + (HelloBytes(m) + suffix);
    assert s[1..] == HelloBytes(m) + suffix;
  }

  // A message cut short does not decode, except a greeting that keeps all fields
  // but its nonce: that one decodes with nonce zero.
  lemma Truncated(m: Message, cut: nat)
    requires FitsMessage(m) && cut < |MessageBytes(m)|
    ensures DecodeBytes(MessageBytes(m)[..cut]).Ok? <==> m.Hello? && cut >= 47
    ensures m.Hello? && cut >= 47 ==> DecodeBytes(MessageBytes(m)[..cut]) == Ok(m.(nonce := 0))
  {
    hide Fields, ParseFields, FitsMessage;
    NotUnknown(m);
    if cut > 0 {
      var s := Fields(m)[..cut - 1];
      assert MessageBytes(m)[..cut] == [TagOf(m)] + s;
      assert ([TagOf(m)] + s)[1..] == s;
      if m.Hello? {
        ShortHello(m, cut - 1);
      } else {
        ShortFields(m, cut - 1);
      }
    }
  }

  lemma ShortHello(m: Message, cut: nat)
    requires m.Hello? && cut < |Fields(m)|
    ensures ParseFields(1, Fields(m)[..cut]).Ok? <==> cut >= 46
    ensures cut >= 46 ==> ParseFields(1, Fields(m)[..cut]).value.value == m.(nonce := 0)
  {
    hide U32Bytes, U64Bytes, HelloBytes, ParseHello;
    HelloSize(m);
    var s := Fields(m)[..cut];
    if cut >= 46 {
      var suffix := s[46..];
      assert s == HelloBytes(m) + suffix;
      HelloFields(m, suffix);
    } else if ParseHello(s).Ok? {
      HelloCanonical(s);
      HelloSize(ParseHello(s).value.value);
    }
  }

  lemma HelloSize(m: Message)
    requires m.Hello?
    ensures |HelloBytes(m)| == 46 && |Fields(m)| == 54
  {
  }

  lemma ShortFields(m: Message, cut: nat)
    requires FitsMessage(m) && !m.Hello? && cut < |Fields(m)|
    ensures ParseFields(TagOf(m), Fields(m)[..cut]).Err?
  {
    hide Fields, ParseFields, FitsMessage;
    NotUnknown(m);
    var s, more := Fields(m)[..cut], Fields(m)[cut..];
    if ParseFields(TagOf(m), s).Ok? {
      var r := ParseFields(TagOf(m), s).value;
      FieldsCanonical(TagOf(m), s);
      assert Fields(m) + [] == Fields(r.value) + (r.rest + more);
      FieldsRoundTrip(m, []);
      FieldsRoundTrip(r.value, r.rest + more);
    }
  }

  // ----- in place -----

  method EncodeHashes(hs: seq<Hash32>, w: Writer)
    modifies w
    ensures w.out == old(w.out) + HashesBytes(hs)
  {
    w.PutU32(|hs| % TWO_32);
    for i := 0 to |hs|
      invariant w.out == old(w.out) + U32Bytes(|hs| % TWO_32) + ListBytes(HashBytes, hs[..i])
    {
      assert hs[..i + 1] == hs[..i] + [hs[i]];
      ListBytesSnoc(HashBytes, hs[..i], hs[i]);
      w.Put(hs[i]);
    }
    assert hs[..|hs|] == hs;
  }

  method EncodeAddr(a: SocketAddr, w: Writer)
    modifies w
    ensures w.out == old(w.out) + AddrBytes(a)
  {
    w.Put(if a.V4? then MAPPED + a.ip4 else a.ip6);
    w.Put(LeBytes(a.port, 2));
  }

  method EncodeAddrs(addrs: seq<SocketAddr>, w: Writer)
    modifies w
    ensures w.out == old(w.out) + AddrsBytes(addrs)
  {
    hide AddrBytes;
    w.PutU32(|addrs| % TWO_32);
    for i := 0 to |addrs|
      invariant w.out == old(w.out) + U32Bytes(|addrs| % TWO_32) + ListBytes(AddrBytes, addrs[..i])
    {
      assert addrs[..i + 1] == addrs[..i] + [addrs[i]];
      ListBytesSnoc(AddrBytes, addrs[..i], addrs[i]);
      EncodeAddr(addrs[i], w);
    }
    assert addrs[..|addrs|] == addrs;
  }

  method EncodeHello(m: Message, w: Writer)
    requires m.Hello?
    modifies w
    ensures w.out == old(w.out) + (HelloBytes(m) + U64Bytes(m.nonce))
  {
    hide U32Bytes, U64Bytes;
    w.PutU32(m.version);
    w.PutU64(m.height);
    w.Put(m.tip);
    w.Put(LeBytes(m.listenPort, 2));
    w.PutU64(m.nonce);
  }

  method EncodeMessage(m: Message) returns (out: Bytes)
    ensures out == MessageBytes(m)
  {
    hide U64Bytes, HashesBytes, BlockBytes, TxBytes, AddrsBytes, HelloBytes;
    if m.Unknown? {
      return [];
    }
    var w := new Writer();
    w.PutU8(TagOf(m));
    match m {
      case Hello(_, _, _, _, _) => EncodeHello(m, w);
      case Ping(n) => w.PutU64(n);
      case Pong(n) => w.PutU64(n);
      case Inv(blocks, txs) =>
        EncodeHashes(blocks, w);
        EncodeHashes(txs, w);
      case GetData(blocks, txs) =>
        EncodeHashes(blocks, w);
        EncodeHashes(txs, w);
      case GetBlocks(locator) => EncodeHashes(locator, w);
      case BlockMsg(b) =>
        var bytes := EncodeBlock(b);
        w.Put(bytes);
      case TxMsg(tx) =>
        var bytes := EncodeTx(tx);
        w.Put(bytes);
      case GetAddr =>
      case Addr(addrs) => EncodeAddrs(addrs, w);
    }
    return w.out;
  }

  method DecodeAddr(r: Reader) returns (a: Result<SocketAddr, DecodeError>)
    requires r.Valid()
    modifies r
    ensures r.Valid() && Agrees(ParseAddr(old(r.Rest())), a, r.Rest())
  {
    hide ParseU16;
    var octets :- r.ReadBytes(16);
    var port :- r.ReadU16();
    return Ok(if octets[..12] == MAPPED then V4(octets[12..], port) else V6(octets, port, 0, 0));
  }

  method DecodeAddrs(r: Reader) returns (addrs: Result<seq<SocketAddr>, DecodeError>)
    requires r.Valid()
    modifies r
    ensures r.Valid() && Agrees(ParseAddrs(old(r.Rest())), addrs, r.Rest())
  {
    hide ParseAddr, ParseCount;
    var n :- r.ReadCount(MAX_ADDRS);
    ghost var start := r.Rest();
    var items: seq<SocketAddr> := [];
    ListStart(ParseList(ParseAddr, start, n));
    for i := 0 to n
      invariant r.Valid()
      invariant ParseList(ParseAddr, start, n) == Onward(items, ParseList(ParseAddr, r.Rest(), n - i))
    {
      ListStep(ParseAddr, items, r.Rest(), n - i);
      var item :- DecodeAddr(r);
      items := items + [item];
    }
    assert items + [] == items;
    return Ok(items);
  }

  method DecodeHashes(r: Reader, max: nat) returns (hs: Result<seq<Hash32>, DecodeError>)
    requires r.Valid()
    modifies r
    ensures r.Valid() && Agrees(ParseHashes(old(r.Rest()), max), hs, r.Rest())
  {
    hide ParseHash, ParseCount;
    var n :- r.ReadCount(max);
    ghost var start := r.Rest();
    var items: seq<Hash32> := [];
    ListStart(ParseList(ParseHash, start, n));
    for i := 0 to n
      invariant r.Valid()
      invariant ParseList(ParseHash, start, n) == Onward(items, ParseList(ParseHash, r.Rest(), n - i))
    {
      ListStep(ParseHash, items, r.Rest(), n - i);
      var item :- DecodeHash(r);
      items := items + [item];
    }
    assert items + [] == items;
    return Ok(items);
  }

  method DecodeHello(r: Reader) returns (m: Result<Message, DecodeError>)
    requires r.Valid()
    modifies r
    ensures r.Valid() && Agrees(ParseHello(old(r.Rest())), m, r.Rest())
  {
    hide ParseU32, ParseU64, ParseU16, ParseHash;
    var version :- r.ReadU32();
    var height :- r.ReadU64();
    var tip :- DecodeHash(r);
    var listenPort :- r.ReadU16();
    if |r.Rest()| < 8 {
      return Ok(Hello(version, height, tip, listenPort, 0));
    }
    var nonce :- r.ReadU64();
    return Ok(Hello(version, height, tip, listenPort, nonce));
  }

  method DecodeFields(tag: byte, r: Reader) returns (m: Result<Message, DecodeError>)
    requires r.Valid()
    modifies r
    ensures r.Valid() && Agrees(ParseFields(tag, old(r.Rest())), m, r.Rest())
  {
    hide ParseU64, ParseHello, ParseHashes, ParseBlock, ParseTx, ParseAddrs;
    match tag {
      case 1 => m := DecodeHello(r);
      case 2 =>
        var n :- r.ReadU64();
        m := Ok(Ping(n));
      case 3 =>
        var n :- r.ReadU64();
        m := Ok(Pong(n));
      case 4 =>
        var blocks :- DecodeHashes(r, MAX_INV);
        var txs :- DecodeHashes(r, MAX_INV);
        m := Ok(Inv(blocks, txs));
      case 5 =>
        var blocks :- DecodeHashes(r, MAX_INV);
        var txs :- DecodeHashes(r, MAX_INV);
        m := Ok(GetData(blocks, txs));
      case 6 =>
        var locator :- DecodeHashes(r, MAX_LOCATOR);
        m := Ok(GetBlocks(locator));
      case 7 =>
        var b :- DecodeBlock(r);
        m := Ok(BlockMsg(b));
      case 8 =>
        var tx :- DecodeTx(r);
        m := Ok(TxMsg(tx));
      case 9 => m := Ok(GetAddr);
      case 10 =>
        var addrs :- DecodeAddrs(r);
        m := Ok(Addr(addrs));
      case _ => m := Ok(Unknown);
    }
  }

  method DecodeMessage(bytes: Bytes) returns (m: Result<Message, DecodeError>)
    ensures m == DecodeBytes(bytes)
  {
    hide ParseFields;
    var r := new Reader(bytes);
    var tag :- r.ReadU8();
    m := DecodeFields(tag, r);
  }
}
