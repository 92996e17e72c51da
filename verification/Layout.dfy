/**
 Where each field lies in the bytes of a transaction, a block and a locator
 (src/core/Transaction.cpp, src/core/Block.cpp, src/network/GetBlocks.cpp).
 */
module Layout {
  import opened Types
  import opened Codec

  // The first `k` bytes, each weighed by 256 to the power of its position.
  function Weighed(bytes: Bytes, k: nat): nat
    requires k <= |bytes|
  {
    if k == 0 then 0 else Weighed(bytes, k - 1) + bytes[k - 1] * Pow256(k - 1)
  }

  lemma {:induction false} WeighedTail(bytes: Bytes, k: nat)
    requires 1 <= k <= |bytes|
    ensures Weighed(bytes, k) == bytes[0] + 256 * Weighed(bytes[1..], k - 1)
  {
    if k > 1 {
      WeighedTail(bytes, k - 1);
      assert bytes[k - 1] * (256 * Pow256(k - 2)) == 256 * (bytes[k - 1] * Pow256(k - 2));
    } else {
      assert Pow256(0) == 1;
    }
  }

  // Words lie in the bytes with the lowest byte first.
  lemma {:induction false} LowestByteFirst(x: nat, n: nat)
    requires x < Pow256(n)
    ensures Weighed(LittleEndian(x, n), n) == x
  {
    if n > 0 {
      LowestByteFirst(x / 256, n - 1);
      WeighedTail(LittleEndian(x, n), n);
    }
  }

  // The bytes `f` lie in `p` from position `at` on.
  predicate FieldAt(p: Bytes, at: nat, f: Bytes) {
    at + |f| <= |p| && p[at..at + |f|] == f
  }

  function Concat(fields: seq<Bytes>): Bytes {
    if fields == [] then [] else fields[0] + Concat(fields[1..])
  }

  // Where field `i` starts: behind those before it.
  function Start(fields: seq<Bytes>, i: nat): nat
    requires i <= |fields|
  {
    if i == 0 then 0 else Start(fields, i - 1) + |fields[i - 1]|
  }

  lemma {:induction false} StartTail(fields: seq<Bytes>, i: nat)
    requires 1 <= i <= |fields|
    ensures Start(fields, i) == |fields[0]| + Start(fields[1..], i - 1)
  {
    if i > 1 {
      StartTail(fields, i - 1);
    }
  }

  lemma {:induction false} FieldOf(fields: seq<Bytes>, i: nat)
    requires i <= |fields|
    ensures |Concat(fields)| == Start(fields, |fields|)
    ensures i < |fields| ==> FieldAt(Concat(fields), Start(fields, i), fields[i])
    decreases |fields|
  {
    hide Start;
    if fields == [] {
      assert Start(fields, 0) == 0 by { NothingBefore(fields); }
    } else {
      var front, rest := fields[0], Concat(fields[1..]);
      NothingBefore(fields);
      StartTail(fields, |fields|);
      FieldOf(fields[1..], if i > 0 then i - 1 else 0);
      if 0 < i < |fields| {
        StartTail(fields, i);
        var at, f := Start(fields[1..], i - 1), fields[i];
        assert (front + rest)[|front| + at..|front| + at + |f|] == rest[at..at + |f|];
      }
    }
  }

  lemma NothingBefore(fields: seq<Bytes>)
    ensures Start(fields, 0) == 0
  {}

  lemma ConcatCons(f: Bytes, fields: seq<Bytes>)
    ensures Concat([f] + fields) == f + Concat(fields)
  {
    assert ([f] + fields)[1..] == fields;
  }

  lemma {:induction false} ConcatJoins(s: seq<Bytes>, t: seq<Bytes>)
    ensures Concat(s + t) == Concat(s) + Concat(t)
    decreases |s|
  {
    if s == [] {
      assert s + t == t;
    } else {
      assert s + t == [s[0]] + (s[1..] + t);
      ConcatCons(s[0], s[1..] + t);
      ConcatJoins(s[1..], t);
      assert s[0] + (Concat(s[1..]) + Concat(t)) == (s[0] + Concat(s[1..])) + Concat(t);
    }
  }

  lemma FiveFields(a: Bytes, b: Bytes, c: Bytes, d: Bytes, e: Bytes)
    ensures Concat([a, b, c, d, e]) == a + (b + (c + (d + e)))
  {
    assert [e] == [e] + [] && e + [] == e;
    ConcatCons(e, []);
    assert [d, e] == [d] + [e] && [c, d, e] == [c] + [d, e];
    ConcatCons(d, [e]);
    ConcatCons(c, [d, e]);
    assert [b, c, d, e] == [b] + [c, d, e] && [a, b, c, d, e] == [a] + [b, c, d, e];
    ConcatCons(b, [c, d, e]);
    ConcatCons(a, [b, c, d, e]);
  }

  lemma FiveStarts(fields: seq<Bytes>, i: nat)
    requires i + 5 <= |fields|
    ensures var s := Start(fields, i);
      && Start(fields, i + 1) == s + |fields[i]|
      && Start(fields, i + 2) == s + |fields[i]| + |fields[i + 1]|
      && Start(fields, i + 3) == s + |fields[i]| + |fields[i + 1]| + |fields[i + 2]|
      && Start(fields, i + 4) == s + |fields[i]| + |fields[i + 1]| + |fields[i + 2]| + |fields[i + 3]|
      && Start(fields, i + 5)
         == s + |fields[i]| + |fields[i + 1]| + |fields[i + 2]| + |fields[i + 3]| + |fields[i + 4]|
  {
    assert Start(fields, i + 1) == Start(fields, i) + |fields[i]|;
    assert Start(fields, i + 2) == Start(fields, i + 1) + |fields[i + 1]|;
    assert Start(fields, i + 3) == Start(fields, i + 2) + |fields[i + 2]|;
    assert Start(fields, i + 4) == Start(fields, i + 3) + |fields[i + 3]|;
    assert Start(fields, i + 5) == Start(fields, i + 4) + |fields[i + 4]|;
  }

  // The signing bytes of a transaction as a row of fields, `tail` behind them.
  function BodyFields(tx: Transaction, tail: Bytes): seq<Bytes> {
    [U64(tx.amount), U32(|tx.sender| % LIMIT32), tx.sender, U32(|tx.recipient| % LIMIT32), tx.recipient]
    + [U32(|tx.publicKey| % LIMIT32), tx.publicKey, U64(tx.fee), U64(tx.nonce), tail]
  }

  lemma BodyIsRow(tx: Transaction, tail: Bytes)
    ensures EncodeBodyThen(tx, tail) == Concat(BodyFields(tx, tail))
  {
    hide U64, U32, LittleEndian, Concat;
    var amount, fee, nonce := U64(tx.amount), U64(tx.fee), U64(tx.nonce);
    var s, r, k := U32(|tx.sender| % LIMIT32), U32(|tx.recipient| % LIMIT32), U32(|tx.publicKey| % LIMIT32);
    var back := k + (tx.publicKey + (fee + (nonce + tail)));
    ConcatJoins([amount, s, tx.sender, r, tx.recipient], [k, tx.publicKey, fee, nonce, tail]);
    FiveFields(amount, s, tx.sender, r, tx.recipient);
    FiveFields(k, tx.publicKey, fee, nonce, tail);
    assert Prefixed(tx.publicKey) + (fee + (nonce + tail)) == back;
    assert Prefixed(tx.recipient) + back == r + (tx.recipient + back);
    assert Prefixed(tx.sender) + (r + (tx.recipient + back)) == s + (tx.sender + (r + (tx.recipient + back)));
    assert amount + (s + (tx.sender + (r + (tx.recipient + back))))
        == (amount + (s + (tx.sender + (r + tx.recipient)))) + back;
  }

  /** The signing bytes, field by field: amount, sender, recipient and public key under their
      lengths, fee, nonce, and then whatever follows. */
  lemma BodyLayout(tx: Transaction, tail: Bytes)
    ensures var p, s, r, k := EncodeBodyThen(tx, tail), |tx.sender|, |tx.recipient|, |tx.publicKey|;
      && |p| == 36 + s + r + k + |tail|
      && FieldAt(p, 0, U64(tx.amount))
      && FieldAt(p, 8, U32(s % LIMIT32)) && FieldAt(p, 12, tx.sender)
      && FieldAt(p, 12 + s, U32(r % LIMIT32)) && FieldAt(p, 16 + s, tx.recipient)
      && FieldAt(p, 16 + s + r, U32(k % LIMIT32)) && FieldAt(p, 20 + s + r, tx.publicKey)
      && FieldAt(p, 20 + s + r + k, U64(tx.fee)) && FieldAt(p, 28 + s + r + k, U64(tx.nonce))
      && FieldAt(p, 36 + s + r + k, tail)
  {
    BodyIsRow(tx, tail);
    hide Concat, FieldAt, EncodeBodyThen, LittleEndian;
    var fields := BodyFields(tx, tail);
    assert |fields| == 10 && Start(fields, 0) == 0;
    FiveStarts(fields, 0);
    FiveStarts(fields, 5);
    hide Start;
    forall i | 0 <= i < 10
      ensures FieldAt(Concat(fields), Start(fields, i), fields[i]) && |Concat(fields)| == Start(fields, 10)
    {
      FieldOf(fields, i);
    }
    assert FieldAt(Concat(fields), Start(fields, 0), fields[0]) && FieldAt(Concat(fields), Start(fields, 1), fields[1]);
    assert FieldAt(Concat(fields), Start(fields, 2), fields[2]) && FieldAt(Concat(fields), Start(fields, 3), fields[3]);
    assert FieldAt(Concat(fields), Start(fields, 4), fields[4]) && FieldAt(Concat(fields), Start(fields, 5), fields[5]);
    assert FieldAt(Concat(fields), Start(fields, 6), fields[6]) && FieldAt(Concat(fields), Start(fields, 7), fields[7]);
    assert FieldAt(Concat(fields), Start(fields, 8), fields[8]) && FieldAt(Concat(fields), Start(fields, 9), fields[9]);
  }

  // A whole transaction is its signing bytes with the signature under its length behind them.
  lemma TxLayout(tx: Transaction)
    ensures var p, n := EncodeTx(tx), 36 + |tx.sender| + |tx.recipient| + |tx.publicKey|;
      && |p| == n + 4 + |tx.signature| && p[..n] == EncodeBody(tx)
      && FieldAt(p, n, U32(|tx.signature| % LIMIT32)) && FieldAt(p, n + 4, tx.signature)
  {
    hide U64, U32, LittleEndian;
    var tail := Prefixed(tx.signature);
    LengthSize(|tx.signature| % LIMIT32);
    BodyLayout(tx, tail);
    BodyLayout(tx, []);
    BodyThen(tx, tail);
  }

  lemma LengthSize(x: u32)
    ensures |U32(x)| == 4
  {}

  lemma BodyThen(tx: Transaction, tail: Bytes)
    ensures EncodeBodyThen(tx, tail) == EncodeBody(tx) + tail
  {
    hide U64, Prefixed;
    assert U64(tx.nonce) + tail == (U64(tx.nonce) + []) + tail;
  }

  lemma Behind(front: Bytes, rest: Bytes, at: nat, f: Bytes)
    requires FieldAt(rest, at, f)
    ensures FieldAt(front + rest, |front| + at, f)
  {
    assert (front + rest)[|front| + at..|front| + at + |f|] == rest[at..at + |f|];
  }

  // Version, parent, Merkle root, time, difficulty and nonce, and then whatever follows.
  lemma HeaderLayout(w: Wire, tail: Bytes)
    requires |w.prevHash.bytes| == HASH_SIZE && |w.merkleRoot.bytes| == HASH_SIZE
    ensures var p := EncodeHeaderThen(w, tail);
      && |p| == 84 + |tail|
      && FieldAt(p, 0, U32(w.version)) && FieldAt(p, 4, w.prevHash.bytes) && FieldAt(p, 36, w.merkleRoot.bytes)
      && FieldAt(p, 68, U64(w.timestamp)) && FieldAt(p, 76, U32(w.difficulty)) && FieldAt(p, 80, U32(w.nonce))
      && FieldAt(p, 84, tail)
  {
    var last := U32(w.nonce) + tail;
    var fields := [U32(w.version), w.prevHash.bytes, w.merkleRoot.bytes, U64(w.timestamp), U32(w.difficulty)];
    var front := Concat(fields);
    hide FieldAt, LittleEndian, Concat;
    FiveFields(fields[0], fields[1], fields[2], fields[3], fields[4]);
    assert EncodeHeaderThen(w, tail) == front + last;
    assert Start(fields, 0) == 0;
    FiveStarts(fields, 0);
    hide Start;
    FieldOf(fields, 5);
    forall i | 0 <= i < 5 ensures FieldAt(front + last, Start(fields, i), fields[i]) {
      FieldOf(fields, i);
      Ahead(front, last, Start(fields, i), fields[i]);
    }
    var p := front + last;
    assert FieldAt(p, Start(fields, 0), fields[0]) && FieldAt(p, Start(fields, 1), fields[1]);
    assert FieldAt(p, Start(fields, 2), fields[2]) && FieldAt(p, Start(fields, 3), fields[3]);
    assert FieldAt(p, Start(fields, 4), fields[4]);
    TwoFields(U32(w.nonce), tail);
    Behind(front, last, 0, U32(w.nonce));
    Behind(front, last, 4, tail);
  }

  lemma Ahead(front: Bytes, rest: Bytes, at: nat, f: Bytes)
    requires FieldAt(front, at, f)
    ensures FieldAt(front + rest, at, f)
  {
    assert (front + rest)[at..at + |f|] == front[at..at + |f|];
  }

  lemma TwoFields(f: Bytes, tail: Bytes)
    ensures FieldAt(f + tail, 0, f) && FieldAt(f + tail, |f|, tail)
  {}

  // The transactions of a block, each under its length.
  function TxRows(txs: seq<Transaction>): (r: seq<Bytes>)
    ensures |r| == |txs| && forall i :: 0 <= i < |r| ==> r[i] == Prefixed(EncodeTx(txs[i]))
  {
    seq(|txs|, i requires 0 <= i < |txs| => Prefixed(EncodeTx(txs[i])))
  }

  lemma {:induction false} TxsAreRows(txs: seq<Transaction>)
    ensures EncodeTxs(txs) == Concat(TxRows(txs))
    decreases |txs|
  {
    hide Prefixed, EncodeTx;
    if txs != [] {
      TxsAreRows(txs[1..]);
      assert TxRows(txs) == [TxRows(txs)[0]] + TxRows(txs[1..]);
      ConcatCons(TxRows(txs)[0], TxRows(txs[1..]));
    }
  }

  // A serialized block: the header, the number of transactions, and the transactions one behind the other.
  lemma BlockLayout(w: Wire)
    requires |w.prevHash.bytes| == HASH_SIZE && |w.merkleRoot.bytes| == HASH_SIZE
    ensures var p, rows := EncodeWire(w), TxRows(w.transactions);
      && |p| == 88 + Start(rows, |rows|)
      && FieldAt(p, 0, U32(w.version)) && FieldAt(p, 4, w.prevHash.bytes) && FieldAt(p, 36, w.merkleRoot.bytes)
      && FieldAt(p, 68, U64(w.timestamp)) && FieldAt(p, 76, U32(w.difficulty)) && FieldAt(p, 80, U32(w.nonce))
      && FieldAt(p, 84, U32(|w.transactions| % LIMIT32))
      && forall k: nat :: k < |w.transactions| ==> FieldAt(p, 88 + Start(rows, k), rows[k])
  {
    hide FieldAt, LittleEndian, Concat, EncodeHeaderThen, EncodeTxs, TxRows, Start;
    var rows, count := TxRows(w.transactions), U32(|w.transactions| % LIMIT32);
    var body := EncodeTxs(w.transactions);
    HeaderLayout(w, count + body);
    TxsAreRows(w.transactions);
    FieldOf(rows, 0);
    var p := EncodeWire(w);
    TwoFields(count, body);
    Within(p, 84, count + body, 0, count);
    forall k: nat | k < |w.transactions| ensures FieldAt(p, 88 + Start(rows, k), rows[k]) {
      FieldOf(rows, k);
      Within(p, 84, count + body, 4, body);
      Within(p, 88, body, Start(rows, k), rows[k]);
    }
  }

  // A field of a field.
  lemma Within(p: Bytes, at: nat, f: Bytes, inner: nat, g: Bytes)
    requires FieldAt(p, at, f) && FieldAt(f, inner, g)
    ensures FieldAt(p, at + inner, g)
  {
    forall i | 0 <= i < |g| ensures p[at + inner + i] == g[i] {
      assert p[at..at + |f|][inner + i] == f[inner + i] && f[inner..inner + |g|][i] == g[i];
    }
  }

  // A serialized locator: the number of hashes, and hash `k` at 4 + 32 k.
  lemma LocatorLayout(hashes: seq<Hash>)
    requires forall i :: 0 <= i < |hashes| ==> |hashes[i].bytes| == HASH_SIZE
    ensures var p := EncodeLocator(hashes);
      && |p| == 4 + HASH_SIZE * |hashes| && FieldAt(p, 0, U32(|hashes| % LIMIT32))
      && forall k: nat :: k < |hashes| ==> FieldAt(p, 4 + HASH_SIZE * k, hashes[k].bytes)
  {
    hide FieldAt, LittleEndian;
    var count := U32(|hashes| % LIMIT32);
    HashesRoundTrip(hashes);
    TwoFields(count, ConcatHashes(hashes));
    forall k: nat | k < |hashes| ensures FieldAt(EncodeLocator(hashes), 4 + HASH_SIZE * k, hashes[k].bytes) {
      HashAt(hashes, k);
      Behind(count, ConcatHashes(hashes), HASH_SIZE * k, hashes[k].bytes);
    }
  }

  lemma {:induction false} HashAt(hashes: seq<Hash>, k: nat)
    requires k < |hashes| && forall i :: 0 <= i < |hashes| ==> |hashes[i].bytes| == HASH_SIZE
    ensures FieldAt(ConcatHashes(hashes), HASH_SIZE * k, hashes[k].bytes)
    decreases k
  {
    hide FieldAt;
    if k == 0 {
      TwoFields(hashes[0].bytes, ConcatHashes(hashes[1..]));
    } else {
      HashAt(hashes[1..], k - 1);
      Behind(hashes[0].bytes, ConcatHashes(hashes[1..]), HASH_SIZE * (k - 1), hashes[k].bytes);
    }
  }
}
