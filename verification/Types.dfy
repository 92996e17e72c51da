/**
 The values ForgeChain's node works on: fixed-width integers, hashes,
 transactions, blocks and consensus parameters.

 Machine words are subset types of `int`; wherever the node adds or subtracts
 64-bit words the wrap-around is written out (`Add64`, `Sub64`).
 */
module Types {

  const LIMIT32: int := 0x1_0000_0000
  const LIMIT64: int := 0x1_0000_0000_0000_0000

  type u8 = x: int | 0 <= x < 0x100
  type u32 = x: int | 0 <= x < 0x1_0000_0000
  type u64 = x: int | 0 <= x < 0x1_0000_0000_0000_0000

  type Bytes = seq<u8>

  // Addresses are byte strings, as `std::string` is.
  type Str = seq<u8>

  datatype Option<+T> = None | Some(value: T) {
    predicate IsFailure() { None? }
    function PropagateFailure<U>(): Option<U> requires None? { None }
    function Extract(): T requires Some? { value }
  }

  function Add64(a: u64, b: u64): u64 {
    if a + b < LIMIT64 then a + b else a + b - LIMIT64
  }

  function Sub64(a: u64, b: u64): u64 {
    if a >= b then a - b else a - b + LIMIT64
  }

  // 32 bytes on the wire; only the codec cares about the length.
  datatype Hash = Hash(bytes: Bytes)

  const ZERO_HASH: Hash := Hash(seq(32, _ => 0))

  // The text "COINBASE".
  const COINBASE: Str := [0x43, 0x4F, 0x49, 0x4E, 0x42, 0x41, 0x53, 0x45]

  datatype Transaction = Transaction(
    sender: Str,
    recipient: Str,
    publicKey: Bytes,
    amount: u64,
    signature: Bytes,
    fee: u64,
    nonce: u64)

  // The part of a transaction that is signed and hashed.
  function Body(tx: Transaction): Transaction {
    tx.(signature := [])
  }

  // The part of a block that is serialized and hashed.
  datatype Wire = Wire(
    version: u32,
    prevHash: Hash,
    merkleRoot: Hash,
    timestamp: u64,
    difficulty: u32,
    nonce: u32,
    transactions: seq<Transaction>)

  datatype Block = Block(wire: Wire, cumulativeWork: u64, hash: Hash)

  // A branch, oldest block first, and the main-chain block it grows from.
  datatype ForkChain = ForkChain(blocks: seq<Block>, ancestor: Block)

  datatype Params = Params(
    initialDifficulty: u32,
    minDifficulty: u32,
    targetBlockTime: u64,
    retargetInterval: nat,
    mtpWindow: nat,
    maxFutureDrift: u64)

  /** The cryptography the node relies on, left uninterpreted. `blockHash` and
      `bodyHash` are the double SHA-256 of a block's wire fields and of a
      transaction's signing bytes; `verifies` is the signature check. */
  datatype Crypto = Crypto(
    blockHash: Wire -> Hash,
    bodyHash: Transaction -> Hash,
    verifies: Transaction -> bool,
    emptyMerkleRoot: Hash)

  function TxHash(c: Crypto, tx: Transaction): Hash {
    c.bodyHash(Body(tx))
  }

  predicate HasValidSignature(c: Crypto, tx: Transaction) {
    tx.sender != COINBASE && c.verifies(tx)
  }

  lemma SignedIsNoCoinbase(c: Crypto, tx: Transaction)
    requires HasValidSignature(c, tx)
    ensures tx.sender != COINBASE
  {}

  // A coinbase carries no signature; anything else in a block must.
  predicate Authentic(c: Crypto, tx: Transaction) {
    tx.sender == COINBASE || HasValidSignature(c, tx)
  }

  predicate AllAuthentic(c: Crypto, txs: seq<Transaction>) {
    forall tx :: tx in txs ==> Authentic(c, tx)
  }

  // No two transactions among `txs` share a hash without sharing a body.
  ghost predicate BodiesCollisionFree(c: Crypto, txs: seq<Transaction>) {
    forall s, t :: s in txs && t in txs && TxHash(c, s) == TxHash(c, t) ==> Body(s) == Body(t)
  }

  /** What the model asks of the block hash, and only on the blocks `known`
      that take part: no two of them collide, and none hashes to the all-zero
      value that genesis names as its parent. */
  ghost predicate BlocksCollisionFree(c: Crypto, known: iset<Wire>) {
    && (forall v, w :: v in known && w in known && c.blockHash(v) == c.blockHash(w) ==> v == w)
    && (forall w :: w in known ==> c.blockHash(w) != ZERO_HASH)
  }
}
