// Transactions, blocks and the hash terms that name them.
//
// Every record is generic in the hash type H.  The codec instantiates H with
// 32-byte strings; the ledger instantiates it with the term algebra Hash, in
// which SHA3-256 is a free constructor over the message being hashed.
module Tx {
  import opened Prelude

  type Pkh = s: Bytes | |s| == 20 witness seq(20, _ => 0)

  datatype OutPoint<H> = OutPoint(txid: H, vout: U32)

  datatype SigScheme = MlDsa | SlhDsa

  datatype Lock =
    | P2pkh(scheme: SigScheme, pkh: Pkh)
    | Timelock(scheme: SigScheme, pkh: Pkh, height: U64)

  datatype TxOutput = TxOutput(amount: U64, lock: Lock)

  // A transaction input holds nothing but the outpoint it spends.
  datatype TxBody<H> = TxBody(
    version: U32,
    inputs: seq<OutPoint<H>>,
    outputs: seq<TxOutput>,
    locktime: U64,
    coinbaseData: Bytes)
  {
    predicate IsCoinbase() {
      |inputs| == 0
    }
  }

  datatype Witness = Witness(pubkey: Bytes, signature: Bytes)

  datatype Transaction<H> = Transaction(body: TxBody<H>, witnesses: seq<Witness>)

  datatype BlockHeader<H> = BlockHeader(
    version: U32,
    prev: H,
    txRoot: H,
    witnessRoot: H,
    time: U64,
    bits: U32,
    nonce: U64)

  datatype Block<H> = Block(header: BlockHeader<H>, transactions: seq<Transaction<H>>)

  // The tagged messages the program hashes.  The proof-of-work message is the
  // header without its nonce.
  datatype Preimage<H> =
    | TxidPre(body: TxBody<H>)
    | SighashPre(signed: TxBody<H>, index: U32, prevOutput: TxOutput)
    | WitnessPre(witnesses: seq<Witness>)
    | HeaderPre(header: BlockHeader<H>)
    | PowMsgPre(version: U32, prev: H, txRoot: H, witnessRoot: H, time: U64, bits: U32)
    | EmptyTreePre
    | LeafPre(leaf: H)
    | NodePre(left: H, right: H)

  // Collision-free SHA3-256: distinct messages have distinct hashes, and no
  // message hashes to zero.
  datatype Hash = Zero | Sha3(message: Preimage<Hash>)

  type Op = OutPoint<Hash>
  type Body = TxBody<Hash>
  type Txn = Transaction<Hash>
  type Header = BlockHeader<Hash>
  type Blk = Block<Hash>

  function Txid(tx: Txn): Hash {
    Sha3(TxidPre(tx.body))
  }

  function WitnessHash(tx: Txn): Hash {
    Sha3(WitnessPre(tx.witnesses))
  }

  function BlockHash(h: Header): Hash {
    Sha3(HeaderPre(h))
  }

  function PowMessage(h: Header): Hash {
    Sha3(PowMsgPre(h.version, h.prev, h.txRoot, h.witnessRoot, h.time, h.bits))
  }

  function Sighash(body: Body, index: U32, prev: TxOutput): Hash {
    Sha3(SighashPre(body, index, prev))
  }

  // Encoded sizes; the codec proves them equal to the lengths of the encodings.

  function LockSize(l: Lock): nat {
    if l.P2pkh? then 22 else 30
  }

  function OutputsSize(outs: seq<TxOutput>): nat {
    if outs == [] then 0
    else OutputsSize(outs[..|outs| - 1]) + 8 + LockSize(outs[|outs| - 1].lock)
  }

  function BodySize<H>(b: TxBody<H>): nat {
    4 + 4 + 36 * |b.inputs| + 4 + OutputsSize(b.outputs) + 8 + 4 + |b.coinbaseData|
  }

  function WitnessesSize(ws: seq<Witness>): nat {
    if ws == [] then 0
    else
      var w := ws[|ws| - 1];
      WitnessesSize(ws[..|ws| - 1]) + 4 + |w.pubkey| + 4 + |w.signature|
  }

  function TxSize<H>(tx: Transaction<H>): nat {
    4 + BodySize(tx.body) + 4 + WitnessesSize(tx.witnesses)
  }

  function TxsSize<H>(txs: seq<Transaction<H>>): nat {
    if txs == [] then 0 else TxsSize(txs[..|txs| - 1]) + TxSize(txs[|txs| - 1])
  }

  function BlockSize<H>(b: Block<H>): nat {
    120 + 4 + TxsSize(b.transactions)
  }

  function Depth(h: Hash): nat {
    if h.Sha3? && h.message.NodePre? then 1 + Depth(h.message.left) else 0
  }
}
