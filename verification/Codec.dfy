/**
 The wire format of transactions, blocks and block locators
 (src/core/Transaction.cpp, src/core/Block.cpp, src/network/GetBlocks.cpp).
 Integers are written as the bytes of a little-endian machine word.
 */
module Codec {
  import opened Types

  // ---- Machine words ----

  function Pow256(n: nat): nat {
    if n == 0 then 1 else 256 * Pow256(n - 1)
  }

  function LittleEndian(x: nat, n: nat): (r: Bytes)
    ensures |r| == n
  {
    if n == 0 then [] else [x % 256] + LittleEndian(x / 256, n - 1)
  }

  function FromLittleEndian(bytes: Bytes): (x: nat)
    ensures x < Pow256(|bytes|)
  {
    if bytes == [] then 0 else bytes[0] + 256 * FromLittleEndian(bytes[1..])
  }

  lemma {:induction false} WordRoundTrip(x: nat, n: nat)
    requires x < Pow256(n)
    ensures FromLittleEndian(LittleEndian(x, n)) == x
  {
    if n > 0 {
      WordRoundTrip(x / 256, n - 1);
    }
  }

  lemma {:induction false} WordCanonical(bytes: Bytes)
    ensures LittleEndian(FromLittleEndian(bytes), |bytes|) == bytes
  {
    if bytes != [] {
      WordCanonical(bytes[1..]);
      var low, high := bytes[0], FromLittleEndian(bytes[1..]);
      assert (low + 256 * high) % 256 == low && (low + 256 * high) / 256 == high;
      assert bytes == [low] + bytes[1..];
    }
  }

  function U32(x: u32): Bytes { LittleEndian(x, 4) }
  function U64(x: u64): Bytes { LittleEndian(x, 8) }

  // A value read from the front of a payload, and what follows it.
  datatype Taken<+T> = Taken(value: T, rest: Bytes)

  function TakeU32(p: Bytes): Option<Taken<u32>> {
    if |p| < 4 then None
    else
      assert Pow256(4) == LIMIT32;
      Some(Taken(FromLittleEndian(p[..4]), p[4..]))
  }

  function TakeU64(p: Bytes): Option<Taken<u64>> {
    if |p| < 8 then None
    else
      assert Pow256(8) == LIMIT64;
      Some(Taken(FromLittleEndian(p[..8]), p[8..]))
  }

  function TakeBytes(p: Bytes, n: nat): Option<Taken<Bytes>> {
    if |p| < n then None else Some(Taken(p[..n], p[n..]))
  }

  // A 32-bit length and that many bytes.
  function Prefixed(s: Bytes): Bytes {
    U32(|s| % LIMIT32) + s
  }

  function TakePrefixed(p: Bytes): Option<Taken<Bytes>> {
    var length :- TakeU32(p);
    TakeBytes(length.rest, length.value)
  }

  lemma TakeU32RoundTrip(x: u32, rest: Bytes)
    ensures TakeU32(U32(x) + rest) == Some(Taken(x, rest))
  {
    var p := U32(x) + rest;
    assert p[..4] == U32(x) && p[4..] == rest;
    assert Pow256(4) == LIMIT32;
    WordRoundTrip(x, 4);
  }

  lemma TakeU64RoundTrip(x: u64, rest: Bytes)
    ensures TakeU64(U64(x) + rest) == Some(Taken(x, rest))
  {
    var p := U64(x) + rest;
    assert p[..8] == U64(x) && p[8..] == rest;
    assert Pow256(8) == LIMIT64;
    WordRoundTrip(x, 8);
  }

  lemma TakeU32Canonical(p: Bytes)
    requires TakeU32(p).Some?
    ensures p == U32(TakeU32(p).value.value) + TakeU32(p).value.rest
  {
    WordCanonical(p[..4]);
  }

  lemma TakeU64Canonical(p: Bytes)
    requires TakeU64(p).Some?
    ensures p == U64(TakeU64(p).value.value) + TakeU64(p).value.rest
  {
    WordCanonical(p[..8]);
  }

  lemma TakePrefixedShape(p: Bytes)
    ensures TakePrefixed(p).Some? ==>
              var t := TakePrefixed(p).value; 4 + |t.value| <= |p| && t.rest == p[4 + |t.value|..]
  {}

  lemma TakePrefixedRoundTrip(s: Bytes, rest: Bytes)
    requires |s| < LIMIT32
    ensures TakePrefixed(Prefixed(s) + rest) == Some(Taken(s, rest))
  {
    hide TakeU32, U32;
    assert Prefixed(s) + rest == U32(|s|) + (s + rest);
    TakeU32RoundTrip(|s|, s + rest);
  }

  lemma TakePrefixedCanonical(p: Bytes)
    requires TakePrefixed(p).Some?
    ensures var t := TakePrefixed(p).value; |t.value| < LIMIT32 && p == Prefixed(t.value) + t.rest
  {
    hide TakeU32, LittleEndian;
    TakeU32Canonical(p);
  }

  // ---- Transactions ----

  predicate TxFits(tx: Transaction) {
    |tx.sender| < LIMIT32 && |tx.recipient| < LIMIT32 && |tx.publicKey| < LIMIT32 && |tx.signature| < LIMIT32
  }

  // The signing bytes of `tx`, followed by `tail`.
  function EncodeBodyThen(tx: Transaction, tail: Bytes): Bytes {
    U64(tx.amount) + (Prefixed(tx.sender) + (Prefixed(tx.recipient) + (Prefixed(tx.publicKey)
    + (U64(tx.fee) + (U64(tx.nonce) + tail)))))
  }

  // `serialize_for_signing`
  function EncodeBody(tx: Transaction): Bytes {
    EncodeBodyThen(tx, [])
  }

  // `serialize`
  function EncodeTx(tx: Transaction): Bytes {
    EncodeBodyThen(tx, Prefixed(tx.signature))
  }

  function TakeBody(p: Bytes): Option<Taken<Transaction>> {
    var amount :- TakeU64(p);
    var sender :- TakePrefixed(amount.rest);
    var recipient :- TakePrefixed(sender.rest);
    var publicKey :- TakePrefixed(recipient.rest);
    var fee :- TakeU64(publicKey.rest);
    var nonce :- TakeU64(fee.rest);
    Some(Taken(Transaction(sender.value, recipient.value, publicKey.value, amount.value, [], fee.value, nonce.value),
               nonce.rest))
  }

  // `deserialize`: refuses a payload that is too short anywhere or too long at the end.
  function DecodeTx(p: Bytes): Option<Transaction> {
    var body :- TakeBody(p);
    var signature :- TakePrefixed(body.rest);
    if signature.rest != [] then None else Some(body.value.(signature := signature.value))
  }

  lemma BodyRoundTrip(tx: Transaction, tail: Bytes)
    requires TxFits(tx)
    ensures TakeBody(EncodeBodyThen(tx, tail)) == Some(Taken(Body(tx), tail))
  {
    hide TakeU64, TakePrefixed, U64, Prefixed;
    var p5 := U64(tx.nonce) + tail;
    var p4 := U64(tx.fee) + p5;
    var p3 := Prefixed(tx.publicKey) + p4;
    var p2 := Prefixed(tx.recipient) + p3;
    var p1 := Prefixed(tx.sender) + p2;
    TakeU64RoundTrip(tx.amount, p1);
    TakePrefixedRoundTrip(tx.sender, p2);
    TakePrefixedRoundTrip(tx.recipient, p3);
    TakePrefixedRoundTrip(tx.publicKey, p4);
    TakeU64RoundTrip(tx.fee, p5);
    TakeU64RoundTrip(tx.nonce, tail);
  }

  lemma BodyCanonical(p: Bytes)
    requires TakeBody(p).Some?
    ensures var t := TakeBody(p).value;
      TxFits(t.value) && t.value.signature == [] && p == EncodeBodyThen(t.value, t.rest)
  {
    hide TakeU64, TakePrefixed, U64, Prefixed;
    var amount := TakeU64(p).value;
    var sender := TakePrefixed(amount.rest).value;
    var recipient := TakePrefixed(sender.rest).value;
    var publicKey := TakePrefixed(recipient.rest).value;
    var fee := TakeU64(publicKey.rest).value;
    TakeU64Canonical(p);
    TakePrefixedCanonical(amount.rest);
    TakePrefixedCanonical(sender.rest);
    TakePrefixedCanonical(recipient.rest);
    TakeU64Canonical(publicKey.rest);
    TakeU64Canonical(fee.rest);
  }

  // Every transaction whose fields fit survives the wire unchanged.
  lemma TxRoundTrip(tx: Transaction)
    requires TxFits(tx)
    ensures DecodeTx(EncodeTx(tx)) == Some(tx)
  {
    hide TakeBody, EncodeBodyThen, TakePrefixed, Prefixed;
    BodyRoundTrip(tx, Prefixed(tx.signature));
    assert Prefixed(tx.signature) + [] == Prefixed(tx.signature);
    TakePrefixedRoundTrip(tx.signature, []);
  }

  // A payload that decodes is the encoding of what it decodes to.
  lemma TxCanonical(p: Bytes)
    requires DecodeTx(p).Some?
    ensures TxFits(DecodeTx(p).value) && EncodeTx(DecodeTx(p).value) == p
  {
    hide TakeBody, TakePrefixed, Prefixed;
    var body := TakeBody(p).value;
    BodyCanonical(p);
    TakePrefixedCanonical(body.rest);
    var signature := TakePrefixed(body.rest).value.value;
    assert Prefixed(signature) + [] == Prefixed(signature);
  }

  // Signing bytes determine every field except the signature.
  lemma SigningBytesInjective(s: Transaction, t: Transaction)
    requires TxFits(s) && TxFits(t)
    requires EncodeBody(s) == EncodeBody(t)
    ensures Body(s) == Body(t)
  {
    hide TakeBody, EncodeBodyThen;
    BodyRoundTrip(s, []);
    BodyRoundTrip(t, []);
  }

  // ---- Blocks ----

  const HASH_SIZE: nat := 32

  predicate WireFits(w: Wire) {
    && |w.prevHash.bytes| == HASH_SIZE && |w.merkleRoot.bytes| == HASH_SIZE
    && |w.transactions| < LIMIT32
    && forall i :: 0 <= i < |w.transactions| ==> TxFits(w.transactions[i]) && |EncodeTx(w.transactions[i])| < LIMIT32
  }

  function EncodeTxs(txs: seq<Transaction>): Bytes {
    if txs == [] then [] else Prefixed(EncodeTx(txs[0])) + EncodeTxs(txs[1..])
  }

  function EncodeHeaderThen(w: Wire, tail: Bytes): Bytes {
    U32(w.version) + (w.prevHash.bytes + (w.merkleRoot.bytes + (U64(w.timestamp) + (U32(w.difficulty)
    + (U32(w.nonce) + tail)))))
  }

  // `serialize`
  function EncodeWire(w: Wire): Bytes {
    EncodeHeaderThen(w, U32(|w.transactions| % LIMIT32) + EncodeTxs(w.transactions))
  }

  function TakeHeader(p: Bytes): Option<Taken<Wire>> {
    var version :- TakeU32(p);
    var prevHash :- TakeBytes(version.rest, HASH_SIZE);
    var merkleRoot :- TakeBytes(prevHash.rest, HASH_SIZE);
    var timestamp :- TakeU64(merkleRoot.rest);
    var difficulty :- TakeU32(timestamp.rest);
    var nonce :- TakeU32(difficulty.rest);
    Some(Taken(Wire(version.value, Hash(prevHash.value), Hash(merkleRoot.value), timestamp.value,
                    difficulty.value, nonce.value, []), nonce.rest))
  }

  // `n` transactions, each under its length, and nothing after them.
  function DecodeTxs(p: Bytes, n: nat): Option<seq<Transaction>>
    decreases n
  {
    if n == 0 then (if p == [] then Some([]) else None)
    else
      var field :- TakePrefixed(p);
      var tx :- DecodeTx(field.value);
      var others :- DecodeTxs(field.rest, n - 1);
      Some([tx] + others)
  }

  // `deserialize`, up to the fields it recomputes.
  function DecodeWire(p: Bytes): Option<Wire> {
    var header :- TakeHeader(p);
    var count :- TakeU32(header.rest);
    var txs :- DecodeTxs(count.rest, count.value);
    Some(header.value.(transactions := txs))
  }

  // The block as the receiver holds it: hash recomputed, cumulative work not yet known.
  function Received(c: Crypto, w: Wire): Block {
    Block(w, 0, c.blockHash(w))
  }

  function DecodeBlock(c: Crypto, p: Bytes): Option<Block> {
    var w :- DecodeWire(p);
    Some(Received(c, w))
  }

  lemma TakeBytesRoundTrip(s: Bytes, rest: Bytes)
    ensures TakeBytes(s + rest, |s|) == Some(Taken(s, rest))
  {}

  lemma HeaderRoundTrip(w: Wire, tail: Bytes)
    requires |w.prevHash.bytes| == HASH_SIZE && |w.merkleRoot.bytes| == HASH_SIZE
    ensures TakeHeader(EncodeHeaderThen(w, tail)) == Some(Taken(w.(transactions := []), tail))
  {
    hide TakeU32, TakeU64, TakeBytes, U32, U64;
    var p5 := U32(w.nonce) + tail;
    var p4 := U32(w.difficulty) + p5;
    var p3 := U64(w.timestamp) + p4;
    var p2 := w.merkleRoot.bytes + p3;
    var p1 := w.prevHash.bytes + p2;
    TakeU32RoundTrip(w.version, p1);
    TakeBytesRoundTrip(w.prevHash.bytes, p2);
    TakeBytesRoundTrip(w.merkleRoot.bytes, p3);
    TakeU64RoundTrip(w.timestamp, p4);
    TakeU32RoundTrip(w.difficulty, p5);
    TakeU32RoundTrip(w.nonce, tail);
  }

  lemma HeaderCanonical(p: Bytes)
    requires TakeHeader(p).Some?
    ensures var t := TakeHeader(p).value;
      && |t.value.prevHash.bytes| == HASH_SIZE && |t.value.merkleRoot.bytes| == HASH_SIZE
      && t.value.transactions == [] && p == EncodeHeaderThen(t.value, t.rest)
  {
    hide TakeU32, TakeU64, U32, U64;
    var version := TakeU32(p).value;
    var prevHash := TakeBytes(version.rest, HASH_SIZE).value;
    var merkleRoot := TakeBytes(prevHash.rest, HASH_SIZE).value;
    var timestamp := TakeU64(merkleRoot.rest).value;
    var difficulty := TakeU32(timestamp.rest).value;
    TakeU32Canonical(p);
    assert version.rest == prevHash.value + prevHash.rest && prevHash.rest == merkleRoot.value + merkleRoot.rest;
    TakeU64Canonical(merkleRoot.rest);
    TakeU32Canonical(timestamp.rest);
    TakeU32Canonical(difficulty.rest);
  }

  lemma {:induction false} TxsRoundTrip(txs: seq<Transaction>)
    requires forall i :: 0 <= i < |txs| ==> TxFits(txs[i]) && |EncodeTx(txs[i])| < LIMIT32
    ensures DecodeTxs(EncodeTxs(txs), |txs|) == Some(txs)
    decreases |txs|
  {
    hide TakePrefixed, Prefixed, EncodeTx, DecodeTx;
    if txs != [] {
      TakePrefixedRoundTrip(EncodeTx(txs[0]), EncodeTxs(txs[1..]));
      TxRoundTrip(txs[0]);
      TxsRoundTrip(txs[1..]);
      assert [txs[0]] + txs[1..] == txs;
    }
  }

  lemma {:induction false} TxsCanonical(p: Bytes, n: nat)
    requires DecodeTxs(p, n).Some?
    ensures var txs := DecodeTxs(p, n).value;
      && |txs| == n && EncodeTxs(txs) == p
      && forall i :: 0 <= i < |txs| ==> TxFits(txs[i]) && |EncodeTx(txs[i])| < LIMIT32
    decreases n
  {
    hide TakePrefixed, Prefixed, EncodeTx, DecodeTx, TxFits;
    if n > 0 {
      var field := TakePrefixed(p).value;
      TakePrefixedCanonical(p);
      TxCanonical(field.value);
      TxsCanonical(field.rest, n - 1);
      var txs := DecodeTxs(p, n).value;
      assert txs[1..] == DecodeTxs(field.rest, n - 1).value;
    }
  }

  /** Every block whose lengths fit 32 bits survives the wire: the receiver holds the
      same wire fields and recomputes the same hash. */
  lemma BlockRoundTrip(c: Crypto, w: Wire)
    requires WireFits(w)
    ensures DecodeBlock(c, EncodeWire(w)) == Some(Received(c, w))
  {
    hide TakeHeader, EncodeHeaderThen, TakeU32, U32, DecodeTxs, EncodeTxs, TxFits, EncodeTx;
    HeaderRoundTrip(w, U32(|w.transactions|) + EncodeTxs(w.transactions));
    TakeU32RoundTrip(|w.transactions|, EncodeTxs(w.transactions));
    TxsRoundTrip(w.transactions);
  }

  // Any payload that decodes as a block re-encodes to the same bytes.
  lemma BlockCanonical(c: Crypto, p: Bytes)
    requires DecodeBlock(c, p).Some?
    ensures var b := DecodeBlock(c, p).value;
      WireFits(b.wire) && EncodeWire(b.wire) == p && b.hash == c.blockHash(b.wire)
  {
    hide TakeHeader, TakeU32, U32, DecodeTxs, EncodeTxs, TxFits, EncodeTx, U64;
    var header := TakeHeader(p).value;
    var count := TakeU32(header.rest).value;
    HeaderCanonical(p);
    TakeU32Canonical(header.rest);
    TxsCanonical(count.rest, count.value);
  }

  lemma WireInjective(v: Wire, w: Wire)
    requires WireFits(v) && WireFits(w) && EncodeWire(v) == EncodeWire(w)
    ensures v == w
  {
    hide EncodeWire, DecodeWire, WireFits;
    var c := Crypto(_ => ZERO_HASH, _ => ZERO_HASH, _ => false, ZERO_HASH);
    BlockRoundTrip(c, v);
    BlockRoundTrip(c, w);
  }

  // The serializer's loop: each transaction appended under its length.
  method SerializeBlock(w: Wire) returns (out: Bytes)
    ensures out == EncodeWire(w)
  {
    hide Prefixed, EncodeTx, U32, EncodeHeaderThen;
    var txOut: Bytes := [];
    for i := 0 to |w.transactions|
      invariant txOut + EncodeTxs(w.transactions[i..]) == EncodeTxs(w.transactions)
    {
      var field := Prefixed(EncodeTx(w.transactions[i]));
      assert w.transactions[i..][1..] == w.transactions[i + 1..];
      assert txOut + (field + EncodeTxs(w.transactions[i + 1..]))
             == (txOut + field) + EncodeTxs(w.transactions[i + 1..]);
      txOut := txOut + field;
    }
    assert w.transactions[|w.transactions|..] == [];
    assert txOut + [] == txOut;
    out := EncodeHeaderThen(w, U32(|w.transactions| % LIMIT32) + txOut);
  }

  // The deserializer's loop: an offset advanced past one transaction at a time.
  method DeserializeBlock(c: Crypto, payload: Bytes) returns (r: Option<Block>)
    ensures r == DecodeBlock(c, payload)
  {
    hide TakeHeader, TakeU32, TakePrefixed, DecodeTx, Prepend;
    var header := TakeHeader(payload);
    if header == None {
      return None;
    }
    var count := TakeU32(header.value.rest);
    if count == None {
      return None;
    }
    var body, n := count.value.rest, count.value.value;
    var txs, offset := [], 0;
    PrependNothing(DecodeTxs(body, n));
    assert body[0..] == body;
    for i := 0 to n
      invariant 0 <= offset <= |body|
      invariant DecodeTxs(body, n) == Prepend(txs, DecodeTxs(body[offset..], n - i))
    {
      var field := TakePrefixed(body[offset..]);
      PrependEnd(txs);
      if field == None {
        return None;
      }
      var tx := DecodeTx(field.value.value);
      if tx == None {
        return None;
      }
      PrependOne(tx.value, DecodeTxs(field.value.rest, n - i - 1));
      var next := offset + 4 + |field.value.value|;
      TakePrefixedShape(body[offset..]);
      assert body[next..] == field.value.rest;
      PrependTwice(txs, tx.value, DecodeTxs(field.value.rest, n - i - 1));
      txs, offset := txs + [tx.value], next;
    }
    PrependEnd(txs);
    if offset != |body| {
      return None;
    }
    assert body[offset..] == [];
    return Some(Received(c, header.value.value.(transactions := txs)));
  }

  function Prepend(front: seq<Transaction>, r: Option<seq<Transaction>>): Option<seq<Transaction>> {
    if r.None? then None else Some(front + r.value)
  }

  lemma PrependNothing(r: Option<seq<Transaction>>)
    ensures Prepend([], r) == r
  {
    if r.Some? {
      assert [] + r.value == r.value;
    }
  }

  lemma PrependEnd(front: seq<Transaction>)
    ensures Prepend(front, Some([])) == Some(front) && Prepend(front, None) == None
  {
    assert front + [] == front;
  }

  lemma PrependOne(tx: Transaction, r: Option<seq<Transaction>>)
    ensures Prepend([tx], r) == if r.None? then None else Some([tx] + r.value)
  {}

  lemma PrependTwice(front: seq<Transaction>, tx: Transaction, r: Option<seq<Transaction>>)
    ensures Prepend(front, Prepend([tx], r)) == Prepend(front + [tx], r)
  {
    if r.Some? {
      assert front + ([tx] + r.value) == front + [tx] + r.value;
    }
  }

  // ---- Block locators ----

  const MAX_LOCATOR_HASHES: nat := 1028

  function ConcatHashes(hashes: seq<Hash>): Bytes {
    if hashes == [] then [] else hashes[0].bytes + ConcatHashes(hashes[1..])
  }

  function SplitHashes(p: Bytes, n: nat): seq<Hash>
    requires |p| == HASH_SIZE * n
  {
    if n == 0 then [] else [Hash(p[..HASH_SIZE])] + SplitHashes(p[HASH_SIZE..], n - 1)
  }

  function EncodeLocator(hashes: seq<Hash>): Bytes {
    U32(|hashes| % LIMIT32) + ConcatHashes(hashes)
  }

  function DecodeLocator(p: Bytes): Option<seq<Hash>> {
    var count :- TakeU32(p);
    if count.value > MAX_LOCATOR_HASHES || |count.rest| != HASH_SIZE * count.value then None
    else Some(SplitHashes(count.rest, count.value))
  }

  predicate LocatorFits(hashes: seq<Hash>) {
    |hashes| <= 1028 && forall i :: 0 <= i < |hashes| ==> |hashes[i].bytes| == HASH_SIZE
  }

  lemma {:induction false} HashesRoundTrip(hashes: seq<Hash>)
    requires forall i :: 0 <= i < |hashes| ==> |hashes[i].bytes| == HASH_SIZE
    ensures |ConcatHashes(hashes)| == HASH_SIZE * |hashes|
    ensures SplitHashes(ConcatHashes(hashes), |hashes|) == hashes
    decreases |hashes|
  {
    if hashes != [] {
      HashesRoundTrip(hashes[1..]);
      var p := ConcatHashes(hashes);
      assert p[..HASH_SIZE] == hashes[0].bytes && p[HASH_SIZE..] == ConcatHashes(hashes[1..]);
    }
  }

  lemma {:induction false} HashesCanonical(p: Bytes, n: nat)
    requires |p| == HASH_SIZE * n
    ensures var hashes := SplitHashes(p, n);
      && |hashes| == n && ConcatHashes(hashes) == p
      && forall i :: 0 <= i < n ==> |hashes[i].bytes| == HASH_SIZE
    decreases n
  {
    if n > 0 {
      HashesCanonical(p[HASH_SIZE..], n - 1);
      var hashes := SplitHashes(p, n);
      assert hashes[1..] == SplitHashes(p[HASH_SIZE..], n - 1);
      assert p == p[..HASH_SIZE] + p[HASH_SIZE..];
    }
  }

  /** A locator within the cap survives the wire, and what decodes is within the cap and
      re-encodes to the same bytes. */
  lemma LocatorRoundTrip(hashes: seq<Hash>, p: Bytes)
    ensures LocatorFits(hashes) ==> DecodeLocator(EncodeLocator(hashes)) == Some(hashes)
    ensures DecodeLocator(p).Some? ==>
              LocatorFits(DecodeLocator(p).value) && EncodeLocator(DecodeLocator(p).value) == p
  {
    hide TakeU32, U32;
    if LocatorFits(hashes) {
      TakeU32RoundTrip(|hashes|, ConcatHashes(hashes));
      HashesRoundTrip(hashes);
    }
    if DecodeLocator(p).Some? {
      TakeU32Canonical(p);
      HashesCanonical(TakeU32(p).value.rest, TakeU32(p).value.value);
    }
  }

  method SerializeGetBlocks(locator: seq<Hash>) returns (payload: Bytes)
    ensures payload == EncodeLocator(locator)
  {
    hide U32;
    payload := U32(|locator| % LIMIT32);
    for i := 0 to |locator|
      invariant payload + ConcatHashes(locator[i..]) == EncodeLocator(locator)
    {
      assert locator[i..][1..] == locator[i + 1..];
      assert payload + (locator[i].bytes + ConcatHashes(locator[i + 1..]))
             == (payload + locator[i].bytes) + ConcatHashes(locator[i + 1..]);
      payload := payload + locator[i].bytes;
    }
    assert locator[|locator|..] == [];
  }

  method DeserializeGetBlocks(payload: Bytes) returns (r: Option<seq<Hash>>)
    ensures r == DecodeLocator(payload)
  {
    hide TakeU32;
    var count := TakeU32(payload);
    if count == None {
      return None;
    }
    var body, n := count.value.rest, count.value.value;
    if n > MAX_LOCATOR_HASHES || |body| != HASH_SIZE * n {
      return None;
    }
    var hashes, offset := [], 0;
    for i := 0 to n
      invariant offset == HASH_SIZE * i
      invariant hashes + SplitHashes(body[offset..], n - i) == SplitHashes(body, n)
    {
      var hash := Hash(body[offset..offset + HASH_SIZE]);
      assert body[offset..][..HASH_SIZE] == hash.bytes && body[offset..][HASH_SIZE..] == body[offset + HASH_SIZE..];
      hashes, offset := hashes + [hash], offset + HASH_SIZE;
    }
    assert hashes + [] == hashes;
    return Some(hashes);
  }

  // ---- From a digest of bytes to the hashes of the node ----

  // The node's hashes: a digest of the serialized block and of the signing bytes.
  function DigestCrypto(digest: Bytes -> Hash, verifies: Transaction -> bool): Crypto {
    Crypto(w => digest(EncodeWire(w)), tx => digest(EncodeBody(tx)), verifies, digest([]))
  }

  // `digest` tells the byte strings in `inputs` apart.
  ghost predicate CollisionFreeOn(digest: Bytes -> Hash, inputs: iset<Bytes>) {
    forall p, q :: p in inputs && q in inputs && digest(p) == digest(q) ==> p == q
  }

  /** The serialization loses nothing: if the digest has no collision on the blocks'
      bytes and never yields zero there, block hashes are collision-free. */
  lemma BlockHashesCollisionFree(digest: Bytes -> Hash, verifies: Transaction -> bool, known: iset<Wire>)
    requires forall w :: w in known ==> WireFits(w) && digest(EncodeWire(w)) != ZERO_HASH
    requires CollisionFreeOn(digest, iset w | w in known :: EncodeWire(w))
    ensures BlocksCollisionFree(DigestCrypto(digest, verifies), known)
  {
    hide EncodeWire, WireFits;
    var c := DigestCrypto(digest, verifies);
    forall v, w | v in known && w in known && c.blockHash(v) == c.blockHash(w) ensures v == w {
      assert EncodeWire(v) in iset u | u in known :: EncodeWire(u);
      assert EncodeWire(w) in iset u | u in known :: EncodeWire(u);
      WireInjective(v, w);
    }
  }

  // Likewise for the bodies of transactions.
  lemma TxHashesCollisionFree(digest: Bytes -> Hash, verifies: Transaction -> bool, txs: seq<Transaction>)
    requires forall tx :: tx in txs ==> TxFits(tx)
    requires CollisionFreeOn(digest, iset tx | tx in txs :: EncodeBody(Body(tx)))
    ensures BodiesCollisionFree(DigestCrypto(digest, verifies), txs)
  {
    hide EncodeBody;
    var c := DigestCrypto(digest, verifies);
    forall s, t | s in txs && t in txs && TxHash(c, s) == TxHash(c, t) ensures Body(s) == Body(t) {
      assert EncodeBody(Body(s)) in iset u | u in txs :: EncodeBody(Body(u));
      assert EncodeBody(Body(t)) in iset u | u in txs :: EncodeBody(Body(u));
      SigningBytesInjective(Body(s), Body(t));
    }
  }
}
