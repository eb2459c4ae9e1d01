// The tagged byte strings the program hashes.  They are told apart by their tags
// and contents, so hash terms stand for hashes faithfully as long as SHA3-256
// shows no collision among the messages in play.
module Preimages {
  import opened Prelude
  import opened LittleEndian
  import opened Encode
  import opened Tx
  import opened Codec

  function Ascii(s: string): (b: Bytes)
    ensures |b| == |s|
  {
    seq(|s|, i requires 0 <= i < |s| => s[i] as int % 256)
  }

  function TagOf<H>(m: Preimage<H>): string {
    match m
    case TxidPre(_) => "sump/txid/v1"
    case SighashPre(_, _, _) => "sump/sighash/v1"
    case WitnessPre(_) => "sump/witness/v1"
    case HeaderPre(_) => "sump/header/v1"
    case PowMsgPre(_, _, _, _, _, _) => "sump/powmsg/v1"
    case EmptyTreePre => "sump/merkle/empty"
    case LeafPre(_) => "sump/merkle/leaf"
    case NodePre(_, _) => "sump/merkle/node"
  }

  function Content(m: Preimage<Hash32>): Bytes {
    match m
    case TxidPre(body) => BodyBytes(body)
    case SighashPre(body, index, prev) => BodyBytes(body) + (U32Bytes(index) + OutputBytes(prev))
    case WitnessPre(ws) => WitnessSection(ws)
    case HeaderPre(h) => HeaderBytes(h)
    case PowMsgPre(version, prev, txRoot, witnessRoot, time, bits) =>
      PowBytes(BlockHeader(version, prev, txRoot, witnessRoot, time, bits, 0))
    case EmptyTreePre => []
    case LeafPre(leaf) => leaf
    case NodePre(left, right) => left + right
  }

  function PreimageBytes(m: Preimage<Hash32>): Bytes {
    Ascii(TagOf(m)) + Content(m)
  }

  predicate FitsPreimage(m: Preimage<Hash32>) {
    match m
    case TxidPre(body) => FitsBody(body)
    case SighashPre(body, _, _) => FitsBody(body)
    case WitnessPre(ws) => FitsWitnesses(ws)
    case _ => true
  }

  // ----- tags -----

  // A tag is told by its sixth and, in the tree, its thirteenth character.
  lemma TagsApart<H>(a: Preimage<H>, b: Preimage<H>)
    requires TagOf(a)[5] == TagOf(b)[5]
    requires |TagOf(a)| > 12 && |TagOf(b)| > 12 ==> TagOf(a)[12] == TagOf(b)[12] || TagOf(a)[5] != 'm'
    ensures TagOf(a) == TagOf(b)
  {
  }

  lemma PrefixChars(s: string, t: string, x: Bytes, y: Bytes, i: nat)
    requires i < |s| && i < |t| && Ascii(s) + x == Ascii(t) + y
    requires s[i] < 256 as char && t[i] < 256 as char
    ensures s[i] == t[i]
  {
    assert (Ascii(s) + x)[i] == Ascii(s)[i] && (Ascii(t) + y)[i] == Ascii(t)[i];
  }

  lemma SameTag(a: Preimage<Hash32>, b: Preimage<Hash32>)
    requires PreimageBytes(a) == PreimageBytes(b)
    ensures TagOf(a) == TagOf(b) && Content(a) == Content(b)
  {
    hide Content, Ascii;
    PrefixChars(TagOf(a), TagOf(b), Content(a), Content(b), 5);
    if |TagOf(a)| > 12 && |TagOf(b)| > 12 {
      PrefixChars(TagOf(a), TagOf(b), Content(a), Content(b), 12);
    }
    TagsApart(a, b);
    var n := |TagOf(a)|;
    assert PreimageBytes(a)[n..] == Content(a) && PreimageBytes(b)[n..] == Content(b);
  }

  // ----- contents -----

  lemma BodyInjective(a: RawBody, b: RawBody, x: Bytes, y: Bytes)
    requires FitsBody(a) && FitsBody(b) && BodyBytes(a) + x == BodyBytes(b) + y
    ensures a == b && x == y
  {
    hide BodyBytes, FitsBody, ParseBody;
    BodyRoundTrip(a, x);
    BodyRoundTrip(b, y);
  }

  lemma IndexInjective(i: U32, o: TxOutput, j: U32, q: TxOutput)
    requires U32Bytes(i) + OutputBytes(o) == U32Bytes(j) + OutputBytes(q)
    ensures i == j && o == q
  {
    hide U32Bytes, OutputBytes, ParseU32, ParseOutput;
    U32RoundTrip(i, OutputBytes(o));
    U32RoundTrip(j, OutputBytes(q));
    OutputRoundTrip(o, []);
    OutputRoundTrip(q, []);
    assert OutputBytes(o) + [] == OutputBytes(o) && OutputBytes(q) + [] == OutputBytes(q);
  }

  lemma WitnessesInjective(a: seq<Witness>, b: seq<Witness>)
    requires FitsWitnesses(a) && FitsWitnesses(b) && WitnessSection(a) == WitnessSection(b)
    ensures a == b
  {
    hide WitnessSection, FitsWitnesses, ParseWitnesses;
    SectionRoundTrip(a, []);
    SectionRoundTrip(b, []);
    assert WitnessSection(a) + [] == WitnessSection(a);
  }

  lemma PowInjective(a: RawHeader, b: RawHeader)
    requires PowBytes(a) == PowBytes(b)
    ensures a == b.(nonce := a.nonce)
  {
    hide PowBytes, ParseHeader, U64Bytes;
    var b' := b.(nonce := a.nonce);
    assert PowBytes(b') == PowBytes(b) by { PowWithoutNonce(b, a.nonce); }
    HeaderRoundTrip(a, []);
    HeaderRoundTrip(b', []);
  }

  // The mined message does not depend on the nonce.
  lemma PowWithoutNonce(h: RawHeader, nonce: U64)
    ensures PowBytes(h.(nonce := nonce)) == PowBytes(h)
  {
  }

  lemma HeaderInjective(a: RawHeader, b: RawHeader)
    requires HeaderBytes(a) == HeaderBytes(b)
    ensures a == b
  {
    hide HeaderBytes, ParseHeader;
    HeaderRoundTrip(a, []);
    HeaderRoundTrip(b, []);
    assert HeaderBytes(a) + [] == HeaderBytes(a);
  }

  lemma NodeInjective(a: Hash32, b: Hash32, c: Hash32, d: Hash32)
    requires a + b == c + d
    ensures a == c && b == d
  {
    assert a == (a + b)[..32] && c == (c + d)[..32];
    assert b == (a + b)[32..] && d == (c + d)[32..];
  }

  // Different messages are hashed from different bytes: in particular a signature
  // commits to the whole body, the input index and the output it spends.
  lemma PreimageInjective(a: Preimage<Hash32>, b: Preimage<Hash32>)
    requires FitsPreimage(a) && FitsPreimage(b) && PreimageBytes(a) == PreimageBytes(b)
    ensures a == b
  {
    hide BodyBytes, OutputBytes, U32Bytes, WitnessSection, HeaderBytes, PowBytes, FitsBody, FitsWitnesses, PreimageBytes, Ascii;
    SameTag(a, b);
    SameKind(a, b);
    match a
    case TxidPre(body) => BodyInjective(body, b.body, [], []);
    case SighashPre(body, index, prev) =>
      BodyInjective(body, b.signed, U32Bytes(index) + OutputBytes(prev), U32Bytes(b.index) + OutputBytes(b.prevOutput));
      IndexInjective(index, prev, b.index, b.prevOutput);
    case WitnessPre(ws) => WitnessesInjective(ws, b.witnesses);
    case HeaderPre(h) => HeaderInjective(h, b.header);
    case PowMsgPre(version, prev, txRoot, witnessRoot, time, bits) =>
      PowInjective(BlockHeader(version, prev, txRoot, witnessRoot, time, bits, 0),
                   BlockHeader(b.version, b.prev, b.txRoot, b.witnessRoot, b.time, b.bits, 0));
    case EmptyTreePre =>
    case LeafPre(_) =>
    case NodePre(left, right) => NodeInjective(left, right, b.left, b.right);
  }

  lemma SameKind<H>(a: Preimage<H>, b: Preimage<H>)
    requires TagOf(a) == TagOf(b)
    ensures a.TxidPre? <==> b.TxidPre?
    ensures a.SighashPre? <==> b.SighashPre?
    ensures a.WitnessPre? <==> b.WitnessPre?
    ensures a.HeaderPre? <==> b.HeaderPre?
    ensures a.PowMsgPre? <==> b.PowMsgPre?
    ensures a.EmptyTreePre? <==> b.EmptyTreePre?
    ensures a.LeafPre? <==> b.LeafPre?
    ensures a.NodePre? <==> b.NodePre?
  {
    assert TagOf(a)[5] == TagOf(b)[5];
    if TagOf(a)[5] == 'm' {
      assert TagOf(a)[12] == TagOf(b)[12];
    }
  }

  // ----- hash terms stand for hashes -----

  type Digest = Bytes -> Hash32

  const ZERO_HASH: Hash32 := seq(32, _ => 0)

  function Concrete(sha3: Digest, h: Hash): Hash32
    decreases h
  {
    match h
    case Zero => ZERO_HASH
    case Sha3(m) => sha3(PreimageBytes(ConcretePre(sha3, m)))
  }

  function ConcretePre(sha3: Digest, m: Preimage<Hash>): Preimage<Hash32>
    decreases m
  {
    match m
    case TxidPre(body) => TxidPre(ConcreteBody(sha3, body))
    case SighashPre(body, index, prev) => SighashPre(ConcreteBody(sha3, body), index, prev)
    case WitnessPre(ws) => WitnessPre(ws)
    case HeaderPre(h) => HeaderPre(ConcreteHeader(sha3, h))
    case PowMsgPre(version, prev, txRoot, witnessRoot, time, bits) =>
      PowMsgPre(version, Concrete(sha3, prev), Concrete(sha3, txRoot), Concrete(sha3, witnessRoot), time, bits)
    case EmptyTreePre => EmptyTreePre
    case LeafPre(leaf) => LeafPre(Concrete(sha3, leaf))
    case NodePre(left, right) => NodePre(Concrete(sha3, left), Concrete(sha3, right))
  }

  function ConcreteBody(sha3: Digest, b: Body): RawBody
    decreases b
  {
    var inputs := seq(|b.inputs|, i requires 0 <= i < |b.inputs| => OutPoint(Concrete(sha3, b.inputs[i].txid), b.inputs[i].vout));
    TxBody(b.version, inputs, b.outputs, b.locktime, b.coinbaseData)
  }

  function ConcreteHeader(sha3: Digest, h: Header): RawHeader
    decreases h
  {
    BlockHeader(h.version, Concrete(sha3, h.prev), Concrete(sha3, h.txRoot), Concrete(sha3, h.witnessRoot), h.time, h.bits, h.nonce)
  }

  // No two of the messages collide, and none hashes to zero.
  ghost predicate CollisionFree(sha3: Digest, ms: set<Bytes>) {
    && (forall x, y :: x in ms && y in ms && sha3(x) == sha3(y) ==> x == y)
    && (forall x :: x in ms ==> sha3(x) != ZERO_HASH)
  }

  // Every message inside a term is one of the given ones, within the limits.
  ghost predicate Within(sha3: Digest, ms: set<Bytes>, h: Hash)
    decreases h
  {
    h.Sha3? ==> WithinPre(sha3, ms, h.message)
  }

  ghost predicate WithinPre(sha3: Digest, ms: set<Bytes>, m: Preimage<Hash>)
    decreases m
  {
    && FitsPreimage(ConcretePre(sha3, m)) && PreimageBytes(ConcretePre(sha3, m)) in ms
    && match m
       case TxidPre(body) => WithinBody(sha3, ms, body)
       case SighashPre(body, _, _) => WithinBody(sha3, ms, body)
       case WitnessPre(_) => true
       case HeaderPre(h) => Within(sha3, ms, h.prev) && Within(sha3, ms, h.txRoot) && Within(sha3, ms, h.witnessRoot)
       case PowMsgPre(_, prev, txRoot, witnessRoot, _, _) =>
         Within(sha3, ms, prev) && Within(sha3, ms, txRoot) && Within(sha3, ms, witnessRoot)
       case EmptyTreePre => true
       case LeafPre(leaf) => Within(sha3, ms, leaf)
       case NodePre(left, right) => Within(sha3, ms, left) && Within(sha3, ms, right)
  }

  ghost predicate WithinBody(sha3: Digest, ms: set<Bytes>, b: Body)
    decreases b
  {
    forall i :: 0 <= i < |b.inputs| ==> Within(sha3, ms, b.inputs[i].txid)
  }

  // Terms over collision-free messages are equal exactly when their hashes are.
  lemma {:induction false} TermsFaithful(sha3: Digest, ms: set<Bytes>, a: Hash, b: Hash)
    requires CollisionFree(sha3, ms) && Within(sha3, ms, a) && Within(sha3, ms, b)
    ensures Concrete(sha3, a) == Concrete(sha3, b) <==> a == b
    decreases a
  {
    hide PreimageBytes, FitsPreimage;
    if Concrete(sha3, a) == Concrete(sha3, b) && a.Sha3? && b.Sha3? {
      PreimageInjective(ConcretePre(sha3, a.message), ConcretePre(sha3, b.message));
      MessagesFaithful(sha3, ms, a.message, b.message);
    }
  }

  lemma {:induction false} MessagesFaithful(sha3: Digest, ms: set<Bytes>, a: Preimage<Hash>, b: Preimage<Hash>)
    requires CollisionFree(sha3, ms) && WithinPre(sha3, ms, a) && WithinPre(sha3, ms, b)
    requires ConcretePre(sha3, a) == ConcretePre(sha3, b)
    ensures a == b
    decreases a
  {
    hide PreimageBytes, FitsPreimage, CollisionFree, Within, Concrete;
    match a
    case TxidPre(body) => BodiesFaithful(sha3, ms, body, b.body);
    case SighashPre(body, _, _) => BodiesFaithful(sha3, ms, body, b.signed);
    case WitnessPre(_) =>
    case HeaderPre(h) =>
      TermsFaithful(sha3, ms, h.prev, b.header.prev);
      TermsFaithful(sha3, ms, h.txRoot, b.header.txRoot);
      TermsFaithful(sha3, ms, h.witnessRoot, b.header.witnessRoot);
    case PowMsgPre(_, prev, txRoot, witnessRoot, _, _) =>
      TermsFaithful(sha3, ms, prev, b.prev);
      TermsFaithful(sha3, ms, txRoot, b.txRoot);
      TermsFaithful(sha3, ms, witnessRoot, b.witnessRoot);
    case EmptyTreePre =>
    case LeafPre(leaf) => TermsFaithful(sha3, ms, leaf, b.leaf);
    case NodePre(left, right) =>
      TermsFaithful(sha3, ms, left, b.left);
      TermsFaithful(sha3, ms, right, b.right);
  }

  lemma {:induction false} BodiesFaithful(sha3: Digest, ms: set<Bytes>, a: Body, b: Body)
    requires CollisionFree(sha3, ms) && WithinBody(sha3, ms, a) && WithinBody(sha3, ms, b)
    requires ConcreteBody(sha3, a) == ConcreteBody(sha3, b)
    ensures a == b
    decreases a
  {
    hide CollisionFree, Within, Concrete;
    var c := ConcreteBody(sha3, a);
    assert |a.inputs| == |c.inputs| == |b.inputs|;
    forall i | 0 <= i < |a.inputs|
      ensures a.inputs[i] == b.inputs[i]
    {
      assert c.inputs[i] == ConcreteBody(sha3, b).inputs[i];
      TermsFaithful(sha3, ms, a.inputs[i].txid, b.inputs[i].txid);
    }
  }

  // ----- what each hash commits to -----

  // Transaction ids, as hashes, are equal exactly when the bodies are, whatever the
  // witnesses; the witness hash covers those.
  lemma TxidCommits(sha3: Digest, ms: set<Bytes>, a: Txn, b: Txn)
    requires CollisionFree(sha3, ms)
    ensures Within(sha3, ms, Txid(a)) && Within(sha3, ms, Txid(b)) ==>
              (Concrete(sha3, Txid(a)) == Concrete(sha3, Txid(b)) <==> a.body == b.body)
    ensures Within(sha3, ms, WitnessHash(a)) && Within(sha3, ms, WitnessHash(b)) ==>
              (Concrete(sha3, WitnessHash(a)) == Concrete(sha3, WitnessHash(b)) <==> a.witnesses == b.witnesses)
  {
    hide CollisionFree, Concrete, Within;
    if Within(sha3, ms, Txid(a)) && Within(sha3, ms, Txid(b)) {
      TermsFaithful(sha3, ms, Txid(a), Txid(b));
    }
    if Within(sha3, ms, WitnessHash(a)) && Within(sha3, ms, WitnessHash(b)) {
      TermsFaithful(sha3, ms, WitnessHash(a), WitnessHash(b));
    }
  }

  // A signature is over the whole body, the number of its input and the output it
  // spends, so it serves for no other input and no other transaction.
  lemma SighashCommits(sha3: Digest, ms: set<Bytes>, a: Body, i: U32, x: TxOutput, b: Body, j: U32, y: TxOutput)
    requires CollisionFree(sha3, ms) && Within(sha3, ms, Sighash(a, i, x)) && Within(sha3, ms, Sighash(b, j, y))
    ensures Concrete(sha3, Sighash(a, i, x)) == Concrete(sha3, Sighash(b, j, y)) <==> a == b && i == j && x == y
  {
    hide CollisionFree, Concrete, Within;
    TermsFaithful(sha3, ms, Sighash(a, i, x), Sighash(b, j, y));
  }

  // A block hash covers every header field, and the mined message all but the nonce.
  lemma BlockHashCommits(sha3: Digest, ms: set<Bytes>, a: Header, b: Header)
    requires CollisionFree(sha3, ms)
    ensures Within(sha3, ms, BlockHash(a)) && Within(sha3, ms, BlockHash(b)) ==>
              (Concrete(sha3, BlockHash(a)) == Concrete(sha3, BlockHash(b)) <==> a == b)
    ensures Within(sha3, ms, PowMessage(a)) && Within(sha3, ms, PowMessage(b)) ==>
              (Concrete(sha3, PowMessage(a)) == Concrete(sha3, PowMessage(b)) <==> a == b.(nonce := a.nonce))
  {
    hide CollisionFree, Concrete, Within;
    if Within(sha3, ms, BlockHash(a)) && Within(sha3, ms, BlockHash(b)) {
      TermsFaithful(sha3, ms, BlockHash(a), BlockHash(b));
    }
    if Within(sha3, ms, PowMessage(a)) && Within(sha3, ms, PowMessage(b)) {
      TermsFaithful(sha3, ms, PowMessage(a), PowMessage(b));
    }
  }
}
