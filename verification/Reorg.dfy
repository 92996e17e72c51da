/**
 What a reorganisation does to the ledger (the ledger half of `try_reorg`,
 src/chain/ChainManager.cpp).

 The node undoes the discarded branch and applies the new one, leaving alone
 every transaction found in both and ignoring every refusal. The drift law
 below says, for every address, by exactly how much the result differs from
 replaying the new branch: by what the refused calls would have done. All sums
 are taken modulo 2^64, so no hypothesis about wrap-around is needed.
 */
module LedgerReorg {
  import opened Types
  import opened Accounting

  // What an address owns and how many transactions it has sent, or a change of both.
  datatype Effect = Effect(funds: int, sent: int) {
    function Plus(e: Effect): Effect { Effect(funds + e.funds, sent + e.sent) }
    function Minus(e: Effect): Effect { Effect(funds - e.funds, sent - e.sent) }
  }

  const NOTHING: Effect := Effect(0, 0)

  predicate Congruent(e: Effect, f: Effect) {
    (e.funds - f.funds) % LIMIT64 == 0 && (e.sent - f.sent) % LIMIT64 == 0
  }

  function Standing(a: Accounts, x: Str): Effect {
    Effect(Balance(a, x), NextNonce(a, x))
  }

  function EffectOf(tx: Transaction, x: Str): Effect {
    Effect((if tx.sender != COINBASE && x == tx.sender then -(tx.amount + tx.fee) else 0)
           + (if x == tx.recipient then tx.amount else 0),
           if tx.sender != COINBASE && x == tx.sender then 1 else 0)
  }

  function Sum(txs: seq<Transaction>, x: Str): Effect {
    if txs == [] then NOTHING else EffectOf(txs[0], x).Plus(Sum(txs[1..], x))
  }

  // `k` and `m` whole turns of 2^64.
  function Turns(k: int, m: int): Effect {
    Effect(k * LIMIT64, m * LIMIT64)
  }

  lemma TurnsAreCongruent(e: Effect, f: Effect, k: int, m: int)
    requires e == f.Plus(Turns(k, m))
    ensures Congruent(e, f)
  {}

  lemma SenderDebit(a: Accounts, tx: Transaction, x: Str) returns (k: int, m: int)
    requires CanApply(a, tx)
    ensures tx.sender != COINBASE && x == tx.sender ==>
              && Balance(Debit(a, tx), x) == Balance(a, x) - (tx.amount + tx.fee) + k * LIMIT64
              && NextNonce(Debit(a, tx), x) == NextNonce(a, x) + 1 + m * LIMIT64
    ensures !(tx.sender != COINBASE && x == tx.sender) ==>
              k == m == 0 && Balance(Debit(a, tx), x) == Balance(a, x) && NextNonce(Debit(a, tx), x) == NextNonce(a, x)
  {
    k, m := 0, 0;
    if tx.sender != COINBASE && x == tx.sender {
      k := if tx.amount + tx.fee >= LIMIT64 then 1 else 0;
      m := if tx.nonce + 1 >= LIMIT64 then -1 else 0;
    }
  }

  lemma RecipientCredit(a: Accounts, tx: Transaction, x: Str) returns (k: int)
    requires CanApply(a, tx)
    ensures NextNonce(Apply(a, tx).value, x) == NextNonce(Debit(a, tx), x)
    ensures Balance(Apply(a, tx).value, x)
            == Balance(Debit(a, tx), x) + (if x == tx.recipient then tx.amount else 0) + k * LIMIT64
  {
    hide Debit;
    k := if x == tx.recipient && Balance(Debit(a, tx), x) + tx.amount >= LIMIT64 then -1 else 0;
  }

  // Applying `tx` changes `x` by its effect, up to whole turns.
  lemma ApplyEffect(a: Accounts, tx: Transaction, x: Str) returns (k: int, m: int)
    requires CanApply(a, tx)
    ensures Standing(Apply(a, tx).value, x) == Standing(a, x).Plus(EffectOf(tx, x)).Plus(Turns(k, m))
  {
    hide Debit, Apply, CanApply, Balance, NextNonce;
    k, m := SenderDebit(a, tx, x);
    var k0 := RecipientCredit(a, tx, x);
    k := k + k0;
  }

  lemma CreditEffect(a: Accounts, tx: Transaction, x: Str) returns (k: int, m: int)
    requires CanReverse(a, tx)
    ensures tx.sender != COINBASE && x == tx.sender ==>
              && Balance(Credit(a, tx), x) == Balance(a, x) + tx.amount + tx.fee + k * LIMIT64
              && NextNonce(Credit(a, tx), x) == NextNonce(a, x) - 1 + m * LIMIT64
    ensures !(tx.sender != COINBASE && x == tx.sender) ==>
              && k == m == 0
              && Balance(Credit(a, tx), x) == Balance(a, x) && NextNonce(Credit(a, tx), x) == NextNonce(a, x)
  {
    k, m := 0, 0;
    if tx.sender != COINBASE && x == tx.sender {
      k := (if tx.amount + tx.fee >= LIMIT64 then -1 else 0)
           + (if Balance(a, x) + Add64(tx.amount, tx.fee) >= LIMIT64 then -1 else 0);
      m := if tx.nonce + 1 >= LIMIT64 then 1 else 0;
    }
  }

  lemma RecipientDebit(a: Accounts, tx: Transaction, x: Str) returns (k: int)
    requires CanReverse(a, tx)
    ensures NextNonce(Reverse(a, tx).value, x) == NextNonce(Credit(a, tx), x)
    ensures Balance(Reverse(a, tx).value, x)
            == Balance(Credit(a, tx), x) - (if x == tx.recipient then tx.amount else 0) + k * LIMIT64
  {
    hide Credit;
    k := if x == tx.recipient && Balance(Credit(a, tx), x) < tx.amount then 1 else 0;
  }

  // Reversing `tx` takes its effect back, up to whole turns.
  lemma ReverseEffect(a: Accounts, tx: Transaction, x: Str) returns (k: int, m: int)
    requires CanReverse(a, tx)
    ensures Standing(Reverse(a, tx).value, x) == Standing(a, x).Minus(EffectOf(tx, x)).Plus(Turns(k, m))
  {
    hide Credit, Reverse, CanReverse, Balance, NextNonce;
    k, m := CreditEffect(a, tx, x);
    var k0 := RecipientDebit(a, tx, x);
    k := k + k0;
  }

  lemma {:induction false} SumConcat(s: seq<Transaction>, t: seq<Transaction>, x: Str)
    ensures Sum(s + t, x) == Sum(s, x).Plus(Sum(t, x))
  {
    if s == [] {
      assert s + t == t;
    } else {
      assert (s + t)[0] == s[0] && (s + t)[1..] == s[1..] + t;
      SumConcat(s[1..], t, x);
    }
  }

  lemma {:induction false} ReplayEffect(a: Accounts, txs: seq<Transaction>, x: Str) returns (k: int, m: int)
    requires Replay(a, txs).Some?
    ensures Standing(Replay(a, txs).value, x) == Standing(a, x).Plus(Sum(txs, x)).Plus(Turns(k, m))
    decreases |txs|
  {
    hide EffectOf, Apply, Standing;
    k, m := 0, 0;
    if txs != [] {
      var k0, m0 := ApplyEffect(a, txs[0], x);
      k, m := ReplayEffect(Apply(a, txs[0]).value, txs[1..], x);
      k, m := k + k0, m + m0;
    }
  }

  // ---- Refusals ----

  // The transactions whose reversal is refused while `ReverseAll` runs.
  function RefusedReversals(a: Accounts, txs: seq<Transaction>): seq<Transaction>
    decreases |txs|
  {
    if txs == [] then []
    else
      var last := txs[|txs| - 1];
      var others := RefusedReversals(ReverseOrKeep(a, last), txs[..|txs| - 1]);
      if CanReverse(a, last) then others else [last] + others
  }

  // The transactions whose application is refused while `ApplyAll` runs.
  function RefusedApplications(a: Accounts, txs: seq<Transaction>): seq<Transaction>
    decreases |txs|
  {
    if txs == [] then []
    else
      var others := RefusedApplications(ApplyOrKeep(a, txs[0]), txs[1..]);
      if CanApply(a, txs[0]) then others else [txs[0]] + others
  }

  lemma SumCons(tx: Transaction, rest: seq<Transaction>, x: Str)
    ensures Sum([tx] + rest, x) == EffectOf(tx, x).Plus(Sum(rest, x))
  {
    assert ([tx] + rest)[1..] == rest;
  }

  lemma {:induction false} ReverseAllEffect(a: Accounts, txs: seq<Transaction>, x: Str) returns (k: int, m: int)
    ensures Standing(ReverseAll(a, txs), x)
            == Standing(a, x).Minus(Sum(txs, x)).Plus(Sum(RefusedReversals(a, txs), x)).Plus(Turns(k, m))
    decreases |txs|
  {
    hide EffectOf, Reverse, CanReverse, Standing;
    k, m := 0, 0;
    if txs != [] {
      var init, last := txs[..|txs| - 1], txs[|txs| - 1];
      assert txs == init + [last];
      SumConcat(init, [last], x);
      var next := ReverseOrKeep(a, last);
      k, m := ReverseAllEffect(next, init, x);
      SumCons(last, RefusedReversals(next, init), x);
      if CanReverse(a, last) {
        var k0, m0 := ReverseEffect(a, last, x);
        k, m := k + k0, m + m0;
      }
    }
  }

  lemma {:induction false} ApplyAllEffect(a: Accounts, txs: seq<Transaction>, x: Str) returns (k: int, m: int)
    ensures Standing(ApplyAll(a, txs), x)
            == Standing(a, x).Plus(Sum(txs, x)).Minus(Sum(RefusedApplications(a, txs), x)).Plus(Turns(k, m))
    decreases |txs|
  {
    hide EffectOf, Apply, CanApply, Standing;
    k, m := 0, 0;
    if txs != [] {
      var next := ApplyOrKeep(a, txs[0]);
      k, m := ApplyAllEffect(next, txs[1..], x);
      SumCons(txs[0], RefusedApplications(next, txs[1..]), x);
      if CanApply(a, txs[0]) {
        var k0, m0 := ApplyEffect(a, txs[0], x);
        k, m := k + k0, m + m0;
      }
    }
  }

  // ---- Shared transactions ----

  // The hashes by which a branch recognises its transactions; coinbases have none.
  function Hashes(c: Crypto, txs: seq<Transaction>): set<Hash> {
    set tx | tx in txs && tx.sender != COINBASE :: TxHash(c, tx)
  }

  function Without(c: Crypto, txs: seq<Transaction>, hashes: set<Hash>): seq<Transaction> {
    if txs == [] then []
    else if TxHash(c, txs[0]) in hashes then Without(c, txs[1..], hashes)
    else [txs[0]] + Without(c, txs[1..], hashes)
  }

  // The bodies of the transactions that `Without` leaves out.
  function Only(c: Crypto, txs: seq<Transaction>, hashes: set<Hash>): seq<Transaction> {
    if txs == [] then []
    else if TxHash(c, txs[0]) in hashes then [Body(txs[0])] + Only(c, txs[1..], hashes)
    else Only(c, txs[1..], hashes)
  }

  /** The ledger after a reorganisation from the branch `oldTxs` to the branch `newTxs`,
      each given as its transactions in order. */
  function Reorganised(c: Crypto, a: Accounts, oldTxs: seq<Transaction>, newTxs: seq<Transaction>): Accounts {
    ApplyAll(ReverseAll(a, Without(c, oldTxs, Hashes(c, newTxs))), Without(c, newTxs, Hashes(c, oldTxs)))
  }

  lemma BodyEffect(tx: Transaction, x: Str)
    ensures EffectOf(Body(tx), x) == EffectOf(tx, x)
  {}

  lemma SplitEmpty(c: Crypto, hashes: set<Hash>, x: Str)
    ensures Sum([], x) == Sum(Without(c, [], hashes), x).Plus(Sum(Only(c, [], hashes), x))
  {}

  lemma SplitHead(c: Crypto, txs: seq<Transaction>, hashes: set<Hash>, x: Str)
    requires txs != []
    ensures Sum(Without(c, txs, hashes), x).Plus(Sum(Only(c, txs, hashes), x))
            == EffectOf(txs[0], x).Plus(Sum(Without(c, txs[1..], hashes), x).Plus(Sum(Only(c, txs[1..], hashes), x)))
  {
    hide EffectOf, TxHash, Body, Sum;
    var kept, dropped := Without(c, txs[1..], hashes), Only(c, txs[1..], hashes);
    SumCons(Body(txs[0]), dropped, x);
    SumCons(txs[0], kept, x);
    BodyEffect(txs[0], x);
  }

  lemma {:induction false} SumSplit(c: Crypto, txs: seq<Transaction>, hashes: set<Hash>, x: Str)
    ensures Sum(txs, x) == Sum(Without(c, txs, hashes), x).Plus(Sum(Only(c, txs, hashes), x))
    decreases |txs|
  {
    hide Sum, Without, Only, EffectOf;
    if txs == [] {
      SplitEmpty(c, hashes, x);
    } else {
      SumSplit(c, txs[1..], hashes, x);
      SplitHead(c, txs, hashes, x);
      assert txs == [txs[0]] + txs[1..];
      SumCons(txs[0], txs[1..], x);
    }
  }

  // Bodies occurring in `txs` under one of `hashes`.
  ghost predicate Occurs(c: Crypto, b: Transaction, txs: seq<Transaction>, hashes: set<Hash>) {
    exists tx :: tx in txs && Body(tx) == b && TxHash(c, tx) in hashes
  }

  lemma {:induction false} OnlyMembers(c: Crypto, txs: seq<Transaction>, hashes: set<Hash>, b: Transaction)
    ensures b in Only(c, txs, hashes) <==> Occurs(c, b, txs, hashes)
    decreases |txs|
  {
    if txs != [] {
      OnlyMembers(c, txs[1..], hashes, b);
      if Occurs(c, b, txs[1..], hashes) {
        var tx :| tx in txs[1..] && Body(tx) == b && TxHash(c, tx) in hashes;
        assert tx in txs;
      }
      if Occurs(c, b, txs, hashes) {
        var tx :| tx in txs && Body(tx) == b && TxHash(c, tx) in hashes;
        assert tx == txs[0] || tx in txs[1..];
      }
    }
  }

  ghost predicate Distinct(bodies: seq<Transaction>) {
    forall i, j :: 0 <= i < j < |bodies| ==> bodies[i] != bodies[j]
  }

  // Coinbases may repeat; nothing else does.
  ghost predicate NoReplays(txs: seq<Transaction>) {
    forall i, j :: 0 <= i < j < |txs| && txs[i].sender != COINBASE ==> Body(txs[i]) != Body(txs[j])
  }

  lemma {:induction false} OnlyDistinct(c: Crypto, txs: seq<Transaction>, hashes: set<Hash>)
    requires NoReplays(txs)
    requires forall tx :: tx in txs && TxHash(c, tx) in hashes ==> tx.sender != COINBASE
    ensures Distinct(Only(c, txs, hashes))
    decreases |txs|
  {
    if txs != [] {
      OnlyDistinct(c, txs[1..], hashes);
      OnlyMembers(c, txs[1..], hashes, Body(txs[0]));
      var rest := Only(c, txs[1..], hashes);
      if TxHash(c, txs[0]) in hashes {
        assert !Occurs(c, Body(txs[0]), txs[1..], hashes);
      }
    }
  }

  lemma SomeMember<T>(s: seq<T>)
    ensures s != [] ==> exists b :: b in s
  {
    if s != [] {
      assert s[0] in s;
    }
  }

  lemma SumExtract(t: seq<Transaction>, j: nat, x: Str)
    requires j < |t|
    ensures Sum(t, x) == EffectOf(t[j], x).Plus(Sum(t[..j] + t[j + 1..], x))
  {
    hide EffectOf, Sum;
    assert t == t[..j] + ([t[j]] + t[j + 1..]);
    SumConcat(t[..j], [t[j]] + t[j + 1..], x);
    SumCons(t[j], t[j + 1..], x);
    SumConcat(t[..j], t[j + 1..], x);
  }

  // The sum of distinct bodies does not depend on their order.
  lemma {:induction false} SumOfSameBodies(s: seq<Transaction>, t: seq<Transaction>, x: Str)
    requires Distinct(s) && Distinct(t)
    requires forall b :: b in s <==> b in t
    ensures Sum(s, x) == Sum(t, x)
    decreases |s|
  {
    hide EffectOf, Sum;
    if s == [] {
      SomeMember(t);
    } else {
      assert s == [s[0]] + s[1..];
      SumCons(s[0], s[1..], x);
      assert s[0] in s;
      var j :| 0 <= j < |t| && t[j] == s[0];
      SumExtract(t, j, x);
      RemoveBody(s, t, j);
      SumOfSameBodies(s[1..], t[..j] + t[j + 1..], x);
    }
  }

  lemma RemoveBody(s: seq<Transaction>, t: seq<Transaction>, j: nat)
    requires Distinct(s) && Distinct(t)
    requires forall b :: b in s <==> b in t
    requires s != [] && j < |t| && t[j] == s[0]
    ensures Distinct(s[1..]) && Distinct(t[..j] + t[j + 1..])
    ensures forall b :: b in s[1..] <==> b in t[..j] + t[j + 1..]
  {
    var rest := t[..j] + t[j + 1..];
    forall b ensures b in s[1..] <==> b in rest {
      assert b in s <==> b == s[0] || b in s[1..];
      assert s[0] !in s[1..];
      assert b in t <==> b == t[j] || b in rest;
      assert t[j] !in rest;
    }
  }

  // ---- A clean branch never repeats a transaction ----

  /** Nonces make a transaction valid at one point of its sender's history: in a
      list that replays cleanly from any ledger no transaction occurs twice. */
  lemma {:induction false} CleanBranchNoReplays(a: Accounts, txs: seq<Transaction>)
    requires Replay(a, txs).Some?
    requires |txs| < LIMIT64
    ensures NoReplays(txs)
  {
    forall i, j | 0 <= i < j < |txs| && txs[i].sender != COINBASE
      ensures Body(txs[i]) != Body(txs[j])
    {
      LaterNonceDiffers(a, txs, i, j);
    }
  }

  lemma LaterNonceDiffers(a: Accounts, txs: seq<Transaction>, i: nat, j: nat)
    requires Replay(a, txs).Some?
    requires i < j < |txs| < LIMIT64 && txs[i].sender != COINBASE
    ensures txs[i].sender == txs[j].sender ==> txs[i].nonce != txs[j].nonce
  {
    hide EffectOf, Replay, NextNonce;
    if txs[i].sender == txs[j].sender {
      var x := txs[i].sender;
      var m := NonceAt(a, txs, i);
      var n := NonceAt(a, txs, j);
      assert txs[..j] == txs[..i] + ([txs[i]] + txs[i + 1..j]);
      SumConcat(txs[..i], [txs[i]] + txs[i + 1..j], x);
      SumCons(txs[i], txs[i + 1..j], x);
      SentBounds(txs[i + 1..j], x);
      SenderEffect(txs[i]);
    }
  }

  lemma SenderEffect(tx: Transaction)
    requires tx.sender != COINBASE
    ensures EffectOf(tx, tx.sender).sent == 1
  {}

  // The nonce of the i-th transaction counts what its sender sent before.
  lemma NonceAt(a: Accounts, txs: seq<Transaction>, i: nat) returns (m: int)
    requires Replay(a, txs).Some?
    requires i < |txs| && txs[i].sender != COINBASE
    ensures txs[i].nonce == NextNonce(a, txs[i].sender) + Sum(txs[..i], txs[i].sender).sent + m * LIMIT64
  {
    assert txs == txs[..i] + txs[i..];
    ReplayConcat(a, txs[..i], txs[i..]);
    var k;
    k, m := ReplayEffect(a, txs[..i], txs[i].sender);
  }

  lemma {:induction false} SentBounds(txs: seq<Transaction>, x: Str)
    ensures 0 <= Sum(txs, x).sent <= |txs|
  {
    if txs != [] {
      SentBounds(txs[1..], x);
    }
  }

  // ---- The drift law ----

  // Two branches replayed from the same ledger, seen from the end of the old one.
  ghost predicate CompetingBranches(c: Crypto, base: Accounts, a: Accounts,
                                    oldTxs: seq<Transaction>, newTxs: seq<Transaction>) {
    && Replay(base, oldTxs).Some? && Same(a, Replay(base, oldTxs).value)
    && Replay(base, newTxs).Some?
    && |oldTxs| < LIMIT64 && |newTxs| < LIMIT64
    && BodiesCollisionFree(c, oldTxs + newTxs)
  }

  lemma SharedSums(c: Crypto, oldTxs: seq<Transaction>, newTxs: seq<Transaction>, x: Str)
    requires NoReplays(oldTxs) && NoReplays(newTxs)
    requires BodiesCollisionFree(c, oldTxs + newTxs)
    ensures Sum(Only(c, oldTxs, Hashes(c, newTxs)), x) == Sum(Only(c, newTxs, Hashes(c, oldTxs)), x)
  {
    SharedWithin(c, oldTxs, newTxs);
    SharedWithin(c, newTxs, oldTxs);
    SumOfSameBodies(Only(c, oldTxs, Hashes(c, newTxs)), Only(c, newTxs, Hashes(c, oldTxs)), x);
  }

  // A shared transaction is no coinbase, and its body occurs in both branches.
  lemma SharedWithin(c: Crypto, s: seq<Transaction>, t: seq<Transaction>)
    requires NoReplays(s)
    requires forall a, b :: a in s && b in t && TxHash(c, a) == TxHash(c, b) ==> Body(a) == Body(b)
    ensures Distinct(Only(c, s, Hashes(c, t)))
    ensures forall b :: b in Only(c, s, Hashes(c, t)) ==> b in Only(c, t, Hashes(c, s))
  {
    forall tx | tx in s && TxHash(c, tx) in Hashes(c, t) ensures tx.sender != COINBASE {
      var other := Partner(c, s, t, tx);
    }
    OnlyDistinct(c, s, Hashes(c, t));
    forall b | b in Only(c, s, Hashes(c, t)) ensures b in Only(c, t, Hashes(c, s)) {
      OnlyMembers(c, s, Hashes(c, t), b);
      var tx :| tx in s && Body(tx) == b && TxHash(c, tx) in Hashes(c, t);
      var other := Partner(c, s, t, tx);
      OnlyMembers(c, t, Hashes(c, s), b);
    }
  }

  lemma Partner(c: Crypto, s: seq<Transaction>, t: seq<Transaction>, tx: Transaction) returns (other: Transaction)
    requires forall a, b :: a in s && b in t && TxHash(c, a) == TxHash(c, b) ==> Body(a) == Body(b)
    requires tx in s && TxHash(c, tx) in Hashes(c, t)
    ensures other in t && Body(other) == Body(tx) && TxHash(c, other) in Hashes(c, s)
    ensures tx.sender != COINBASE
  {
    other :| other in t && other.sender != COINBASE && TxHash(c, other) == TxHash(c, tx);
    assert Body(tx).sender == Body(other).sender;
    assert TxHash(c, tx) in Hashes(c, s);
  }

  lemma SameStandings(a: Accounts, b: Accounts, x: Str)
    requires Same(a, b)
    ensures Standing(a, x) == Standing(b, x)
  {
    assert Balance(a, x) == Balance(b, x);
  }

  /** The drift law. After a reorganisation every address stands where replaying
      the new branch would put it, plus what the refused reversals failed to take
      back, minus what the refused applications failed to give. */
  lemma ReorgDrift(c: Crypto, base: Accounts, a: Accounts,
                   oldTxs: seq<Transaction>, newTxs: seq<Transaction>, x: Str)
    requires CompetingBranches(c, base, a, oldTxs, newTxs)
    ensures
      var undo, redo := Without(c, oldTxs, Hashes(c, newTxs)), Without(c, newTxs, Hashes(c, oldTxs));
      Congruent(Standing(Reorganised(c, a, oldTxs, newTxs), x),
                Standing(Replay(base, newTxs).value, x)
                .Plus(Sum(RefusedReversals(a, undo), x))
                .Minus(Sum(RefusedApplications(ReverseAll(a, undo), redo), x)))
  {
    hide Sum, Without, Only, Hashes, Replay, ReverseAll, ApplyAll, RefusedReversals, RefusedApplications;
    hide Standing, Balance, NextNonce, Congruent;
    var undo, redo := Without(c, oldTxs, Hashes(c, newTxs)), Without(c, newTxs, Hashes(c, oldTxs));
    CleanBranchNoReplays(base, oldTxs);
    CleanBranchNoReplays(base, newTxs);
    SharedSums(c, oldTxs, newTxs, x);
    SumSplit(c, oldTxs, Hashes(c, newTxs), x);
    SumSplit(c, newTxs, Hashes(c, oldTxs), x);
    var k0, m0 := ReplayEffect(base, oldTxs, x);
    var k1, m1 := ReplayEffect(base, newTxs, x);
    SameStandings(a, Replay(base, oldTxs).value, x);
    var k2, m2 := ReverseAllEffect(a, undo, x);
    var k3, m3 := ApplyAllEffect(ReverseAll(a, undo), redo, x);
    TurnsAreCongruent(Standing(Reorganised(c, a, oldTxs, newTxs), x),
                      Standing(Replay(base, newTxs).value, x)
                      .Plus(Sum(RefusedReversals(a, undo), x))
                      .Minus(Sum(RefusedApplications(ReverseAll(a, undo), redo), x)),
                      k0 - k1 + k2 + k3, m0 - m1 + m2 + m3);
  }

  // What the refused calls leave behind cancels out at every address.
  ghost predicate RefusalsCancel(c: Crypto, a: Accounts, oldTxs: seq<Transaction>, newTxs: seq<Transaction>) {
    var undo, redo := Without(c, oldTxs, Hashes(c, newTxs)), Without(c, newTxs, Hashes(c, oldTxs));
    forall x: Str :: Congruent(Sum(RefusedReversals(a, undo), x),
                               Sum(RefusedApplications(ReverseAll(a, undo), redo), x))
  }

  lemma WordsEqual(g: u64, w: u64, r: int, p: int)
    requires (g - (w + r - p)) % LIMIT64 == 0
    ensures g == w <==> (r - p) % LIMIT64 == 0
  {}

  /** The reorganised ledger agrees with a replay of the new branch exactly when
      the refused calls cancel out; in particular when none is refused. */
  lemma ReorgMatchesReplay(c: Crypto, base: Accounts, a: Accounts,
                           oldTxs: seq<Transaction>, newTxs: seq<Transaction>)
    requires CompetingBranches(c, base, a, oldTxs, newTxs)
    ensures Same(Reorganised(c, a, oldTxs, newTxs), Replay(base, newTxs).value)
            <==> RefusalsCancel(c, a, oldTxs, newTxs)
  {
    var undo, redo := Without(c, oldTxs, Hashes(c, newTxs)), Without(c, newTxs, Hashes(c, oldTxs));
    hide Sum, Without, Hashes, Replay, ReverseAll, ApplyAll, RefusedReversals, RefusedApplications, Reorganised;
    hide Balance, NextNonce;
    var got, want := Reorganised(c, a, oldTxs, newTxs), Replay(base, newTxs).value;
    var kept, lost := RefusedReversals(a, undo), RefusedApplications(ReverseAll(a, undo), redo);
    forall x: Str
      ensures Balance(got, x) == Balance(want, x) && NextNonce(got, x) == NextNonce(want, x)
              <==> Congruent(Sum(kept, x), Sum(lost, x))
    {
      ReorgDrift(c, base, a, oldTxs, newTxs, x);
      WordsEqual(Balance(got, x), Balance(want, x), Sum(kept, x).funds, Sum(lost, x).funds);
      WordsEqual(NextNonce(got, x), NextNonce(want, x), Sum(kept, x).sent, Sum(lost, x).sent);
    }
  }

  lemma {:induction false} NoneRefused(a: Accounts, txs: seq<Transaction>)
    ensures AllReverse(a, txs) ==> RefusedReversals(a, txs) == []
    ensures Replay(a, txs).Some? ==> RefusedApplications(a, txs) == []
    decreases |txs|
  {
    hide CanReverse, Reverse, CanApply, Apply;
    if txs != [] {
      NoneRefused(ReverseOrKeep(a, txs[|txs| - 1]), txs[..|txs| - 1]);
      NoneRefused(ApplyOrKeep(a, txs[0]), txs[1..]);
    }
  }

  // When every reversal and every application succeeds, there is nothing to cancel.
  lemma NothingRefusedCancels(c: Crypto, a: Accounts, oldTxs: seq<Transaction>, newTxs: seq<Transaction>)
    requires var undo, redo := Without(c, oldTxs, Hashes(c, newTxs)), Without(c, newTxs, Hashes(c, oldTxs));
      AllReverse(a, undo) && Replay(ReverseAll(a, undo), redo).Some?
    ensures RefusalsCancel(c, a, oldTxs, newTxs)
  {
    hide Without, Hashes, Replay, ReverseAll, AllReverse, RefusedReversals, RefusedApplications, Sum;
    var undo, redo := Without(c, oldTxs, Hashes(c, newTxs)), Without(c, newTxs, Hashes(c, oldTxs));
    NoneRefused(a, undo);
    NoneRefused(ReverseAll(a, undo), redo);
  }

  // ---- A refused block ----

  // What the refused reversals of the rollback leave behind comes to nothing at every address.
  ghost predicate RollbackCancels(c: Crypto, a: Accounts, txs: seq<Transaction>) {
    var done := txs[..FirstRefused(c, a, txs)];
    Replay(a, done).Some?
    && forall x: Str :: Congruent(Sum(RefusedReversals(Replay(a, done).value, done), x), NOTHING)
  }

  /** A refused block leaves every balance and next nonce as it was exactly when what the
      rollback failed to take back comes to nothing; in particular when no credit among
      the transactions applied had wrapped. */
  lemma RollbackMatches(c: Crypto, a: Accounts, txs: seq<Transaction>)
    requires !ApplyBlock(c, a, txs).0
    ensures Same(ApplyBlock(c, a, txs).1, a) <==> RollbackCancels(c, a, txs)
    ensures CreditsFit(a, txs[..FirstRefused(c, a, txs)]) ==> RollbackCancels(c, a, txs)
  {
    hide Sum, Replay, ReverseAll, RefusedReversals, ApplyBlock, FirstRefused, CreditsFit, AllReverse, Covers;
    hide Balance, NextNonce;
    BlockAtomicity(c, a, txs);
    var done, got := txs[..FirstRefused(c, a, txs)], ApplyBlock(c, a, txs).1;
    var reached := Replay(a, done).value;
    var kept := RefusedReversals(reached, done);
    NoneRefused(reached, done);
    forall x: Str
      ensures Balance(got, x) == Balance(a, x) && NextNonce(got, x) == NextNonce(a, x)
              <==> Congruent(Sum(kept, x), NOTHING)
    {
      var k0, m0 := ReplayEffect(a, done, x);
      var k1, m1 := ReverseAllEffect(reached, done, x);
      TurnsAreCongruent(Standing(got, x), Standing(a, x).Plus(Sum(kept, x)), k0 + k1, m0 + m1);
      WordsEqual(Balance(got, x), Balance(a, x), Sum(kept, x).funds, 0);
      WordsEqual(NextNonce(got, x), NextNonce(a, x), Sum(kept, x).sent, 0);
    }
    SumOfNothing(kept);
  }

  lemma SumOfNothing(txs: seq<Transaction>)
    ensures txs == [] ==> forall x: Str :: Congruent(Sum(txs, x), NOTHING)
  {}

  // No transaction other than a coinbase occurs in both branches.
  predicate NothingShared(c: Crypto, oldTxs: seq<Transaction>, newTxs: seq<Transaction>) {
    && (forall tx :: tx in oldTxs ==> TxHash(c, tx) !in Hashes(c, newTxs))
    && (forall tx :: tx in newTxs ==> TxHash(c, tx) !in Hashes(c, oldTxs))
  }

  lemma {:induction false} WithoutNothing(c: Crypto, txs: seq<Transaction>, hashes: set<Hash>)
    requires forall tx :: tx in txs ==> TxHash(c, tx) !in hashes
    ensures Without(c, txs, hashes) == txs
    decreases |txs|
  {
    if txs != [] {
      assert txs[0] in txs;
      assert forall tx :: tx in txs[1..] ==> tx in txs;
      WithoutNothing(c, txs[1..], hashes);
      assert txs == [txs[0]] + txs[1..];
    }
  }

  /** When the branches share nothing and both replay cleanly, no reversal and no
      application is refused and the ledger is that of the new branch. */
  lemma DisjointReorgClean(c: Crypto, base: Accounts, a: Accounts,
                           oldTxs: seq<Transaction>, newTxs: seq<Transaction>)
    requires NothingShared(c, oldTxs, newTxs)
    requires Replay(base, oldTxs).Some? && CreditsFit(base, oldTxs) && Covers(a, Replay(base, oldTxs).value)
    requires Replay(base, newTxs).Some?
    ensures AllReverse(a, oldTxs) && Replay(ReverseAll(a, oldTxs), newTxs).Some?
    ensures Covers(Reorganised(c, a, oldTxs, newTxs), Replay(base, newTxs).value)
  {
    WithoutNothing(c, oldTxs, Hashes(c, newTxs));
    WithoutNothing(c, newTxs, Hashes(c, oldTxs));
    hide Replay, ReverseAll, ApplyAll, Covers, CreditsFit, AllReverse, Without, Hashes;
    UndoIsExact(base, a, oldTxs);
    ReplayRespectsCovers(ReverseAll(a, oldTxs), base, newTxs);
  }
}
