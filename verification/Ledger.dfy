/**
 The ledger: balances and next nonces per address, moved forward by
 `Apply` and back by `Reverse` (src/core/Ledger.cpp).
 */
module Accounting {
  import opened Types

  datatype Accounts = Accounts(balances: map<Str, u64>, nonces: map<Str, u64>)

  const EMPTY: Accounts := Accounts(map[], map[])

  function Balance(a: Accounts, x: Str): u64 {
    if x in a.balances then a.balances[x] else 0
  }

  function NextNonce(a: Accounts, x: Str): u64 {
    if x in a.nonces then a.nonces[x] else 0
  }

  // The sender charged for `tx`, before the recipient is credited.
  function Debit(a: Accounts, tx: Transaction): Accounts {
    if tx.sender == COINBASE then a
    else Accounts(a.balances[tx.sender := Sub64(Balance(a, tx.sender), Add64(tx.amount, tx.fee))],
                  a.nonces[tx.sender := Add64(tx.nonce, 1)])
  }

  predicate CanApply(a: Accounts, tx: Transaction) {
    tx.sender == COINBASE
    || (&& tx.sender in a.balances
        && Add64(tx.amount, tx.fee) <= a.balances[tx.sender]
        && tx.nonce == NextNonce(a, tx.sender))
  }

  // None: refused, and nothing changes.
  function Apply(a: Accounts, tx: Transaction): (r: Option<Accounts>)
    ensures r.Some? <==> CanApply(a, tx)
  {
    if !CanApply(a, tx) then None
    else
      var d := Debit(a, tx);
      Some(d.(balances := d.balances[tx.recipient := Add64(Balance(d, tx.recipient), tx.amount)]))
  }

  predicate CanReverse(a: Accounts, tx: Transaction) {
    && tx.recipient in a.balances
    && tx.amount <= a.balances[tx.recipient]
    && (tx.sender != COINBASE ==> NextNonce(a, tx.sender) == Add64(tx.nonce, 1))
  }

  // The sender given back what `tx` cost, before the recipient is debited.
  function Credit(a: Accounts, tx: Transaction): Accounts {
    if tx.sender == COINBASE then a
    else Accounts(a.balances[tx.sender := Add64(Balance(a, tx.sender), Add64(tx.amount, tx.fee))],
                  a.nonces[tx.sender := tx.nonce])
  }

  function Reverse(a: Accounts, tx: Transaction): (r: Option<Accounts>)
    ensures r.Some? <==> CanReverse(a, tx)
  {
    if !CanReverse(a, tx) then None
    else
      var d := Credit(a, tx);
      Some(d.(balances := d.balances[tx.recipient := Sub64(Balance(d, tx.recipient), tx.amount)]))
  }

  // Absent counts as zero: what a ledger says about every address.
  ghost predicate Same(a: Accounts, b: Accounts) {
    forall x: Str :: Balance(a, x) == Balance(b, x) && NextNonce(a, x) == NextNonce(b, x)
  }

  // `b` says the same as `a` but may list more addresses, at zero.
  ghost predicate Covers(b: Accounts, a: Accounts) {
    Same(b, a) && a.balances.Keys <= b.balances.Keys
  }

  // Crediting the recipient of `tx` stays below 2^64.
  predicate CreditFits(a: Accounts, tx: Transaction) {
    Balance(Debit(a, tx), tx.recipient) + tx.amount < LIMIT64
  }

  /** Undoing an applied transaction is refused exactly when the credit wrapped,
      and otherwise gives back every balance and nonce. */
  lemma ReverseUndoesApply(a: Accounts, tx: Transaction)
    requires CanApply(a, tx)
    ensures CanReverse(Apply(a, tx).value, tx) <==> CreditFits(a, tx)
    ensures CreditFits(a, tx) ==> Covers(Reverse(Apply(a, tx).value, tx).value, a)
  {
  }

  /** The other way round: a transaction that was reversed applies again exactly when giving
      the sender back what it cost did not wrap, and then every entry is as before, the
      sender's being there even if it was not. */
  lemma ApplyUndoesReverse(b: Accounts, tx: Transaction)
    requires CanReverse(b, tx)
    ensures var a, cost := Reverse(b, tx).value, Add64(tx.amount, tx.fee);
      var left := Balance(b, tx.sender) - if tx.recipient == tx.sender then tx.amount else 0;
      && (CanApply(a, tx) <==> tx.sender == COINBASE || left + cost < LIMIT64)
      && (CanApply(a, tx) ==>
            Apply(a, tx).value == if tx.sender == COINBASE then b
                                  else Accounts(b.balances[tx.sender := Balance(b, tx.sender)],
                                                b.nonces[tx.sender := NextNonce(b, tx.sender)]))
  {
    var a := Reverse(b, tx).value;
    if CanApply(a, tx) {
      var after := Apply(a, tx).value;
      assert after.balances.Keys == b.balances.Keys + if tx.sender == COINBASE then {} else {tx.sender};
    }
  }

  // ---- Whole lists of transactions ----

  // The ledger after `txs`, if none of them is refused.
  function Replay(a: Accounts, txs: seq<Transaction>): Option<Accounts>
    decreases |txs|
  {
    if txs == [] then Some(a)
    else match Apply(a, txs[0])
      case None => None
      case Some(b) => Replay(b, txs[1..])
  }

  lemma {:induction false} ReplayConcat(a: Accounts, s: seq<Transaction>, t: seq<Transaction>)
    ensures Replay(a, s + t) == match Replay(a, s) case None => None case Some(b) => Replay(b, t)
    decreases |s|
  {
    if s == [] {
      assert s + t == t;
    } else {
      assert (s + t)[0] == s[0] && (s + t)[1..] == s[1..] + t;
      if CanApply(a, s[0]) {
        ReplayConcat(Apply(a, s[0]).value, s[1..], t);
      }
    }
  }

  // The transactions of consecutive blocks, in order.
  function Transactions(blocks: seq<Block>): seq<Transaction> {
    if blocks == [] then []
    else Transactions(blocks[..|blocks| - 1]) + blocks[|blocks| - 1].wire.transactions
  }

  // No credit wraps while `txs` are applied, up to the first one refused.
  predicate CreditsFit(a: Accounts, txs: seq<Transaction>)
    decreases |txs|
  {
    txs != [] && CanApply(a, txs[0]) ==>
      CreditFits(a, txs[0]) && CreditsFit(Apply(a, txs[0]).value, txs[1..])
  }

  function ReverseOrKeep(a: Accounts, tx: Transaction): Accounts {
    if CanReverse(a, tx) then Reverse(a, tx).value else a
  }

  function ApplyOrKeep(a: Accounts, tx: Transaction): Accounts {
    if CanApply(a, tx) then Apply(a, tx).value else a
  }

  // Reverse `txs` from the last to the first, ignoring refusals.
  function ReverseAll(a: Accounts, txs: seq<Transaction>): Accounts
    decreases |txs|
  {
    if txs == [] then a
    else ReverseAll(ReverseOrKeep(a, txs[|txs| - 1]), txs[..|txs| - 1])
  }

  // Apply `txs` in order, ignoring refusals.
  function ApplyAll(a: Accounts, txs: seq<Transaction>): Accounts
    decreases |txs|
  {
    if txs == [] then a else ApplyAll(ApplyOrKeep(a, txs[0]), txs[1..])
  }

  predicate AllReverse(a: Accounts, txs: seq<Transaction>)
    decreases |txs|
  {
    txs != [] ==>
      CanReverse(a, txs[|txs| - 1]) && AllReverse(ReverseOrKeep(a, txs[|txs| - 1]), txs[..|txs| - 1])
  }

  /** The ledger step for one block: all of its transactions are applied, or the
      ones already applied are reversed again, newest first. */
  function ApplyBlock(c: Crypto, a: Accounts, txs: seq<Transaction>): (bool, Accounts)
    decreases |txs|
  {
    if txs == [] then (true, a)
    else if !Authentic(c, txs[0]) || !CanApply(a, txs[0]) then (false, a)
    else
      var (ok, b) := ApplyBlock(c, Apply(a, txs[0]).value, txs[1..]);
      if ok then (true, b) else (false, ReverseOrKeep(b, txs[0]))
  }

  lemma {:induction false} ReverseRespectsCovers(b: Accounts, a: Accounts, tx: Transaction)
    requires Covers(b, a)
    requires CanReverse(a, tx)
    ensures CanReverse(b, tx) && Covers(Reverse(b, tx).value, Reverse(a, tx).value)
  {
    assert Balance(a, tx.recipient) == Balance(b, tx.recipient);
    assert Balance(a, tx.sender) == Balance(b, tx.sender);
    assert NextNonce(a, tx.sender) == NextNonce(b, tx.sender);
    forall x: Str
      ensures Balance(Reverse(b, tx).value, x) == Balance(Reverse(a, tx).value, x)
      ensures NextNonce(Reverse(b, tx).value, x) == NextNonce(Reverse(a, tx).value, x)
    {
      assert Balance(a, x) == Balance(b, x) && NextNonce(a, x) == NextNonce(b, x);
    }
  }

  // Listing more addresses never makes a transaction fail.
  lemma {:induction false} ApplyRespectsCovers(b: Accounts, a: Accounts, tx: Transaction)
    requires Covers(b, a)
    requires CanApply(a, tx)
    ensures CanApply(b, tx) && Covers(Apply(b, tx).value, Apply(a, tx).value)
  {
    assert Balance(a, tx.recipient) == Balance(b, tx.recipient);
    assert Balance(a, tx.sender) == Balance(b, tx.sender);
    assert NextNonce(a, tx.sender) == NextNonce(b, tx.sender);
    forall x: Str
      ensures Balance(Apply(b, tx).value, x) == Balance(Apply(a, tx).value, x)
      ensures NextNonce(Apply(b, tx).value, x) == NextNonce(Apply(a, tx).value, x)
    {
      assert Balance(a, x) == Balance(b, x) && NextNonce(a, x) == NextNonce(b, x);
    }
  }

  // How many of `txs` the node applies before the first it refuses.
  function FirstRefused(c: Crypto, a: Accounts, txs: seq<Transaction>): (i: nat)
    ensures i <= |txs|
    decreases |txs|
  {
    if txs == [] || !Authentic(c, txs[0]) || !CanApply(a, txs[0]) then 0
    else 1 + FirstRefused(c, Apply(a, txs[0]).value, txs[1..])
  }

  // The position of the first refusal, seen from the whole list.
  lemma {:induction false} FirstRefusedIs(c: Crypto, a: Accounts, txs: seq<Transaction>)
    ensures var i := FirstRefused(c, a, txs);
      && AllAuthentic(c, txs[..i]) && Replay(a, txs[..i]).Some?
      && (i < |txs| ==> !Authentic(c, txs[i]) || !CanApply(Replay(a, txs[..i]).value, txs[i]))
    decreases |txs|
  {
    hide CanApply, Apply, Authentic;
    if txs != [] && Authentic(c, txs[0]) && CanApply(a, txs[0]) {
      FirstRefusedIs(c, Apply(a, txs[0]).value, txs[1..]);
      var i := FirstRefused(c, a, txs);
      assert txs[..i] == [txs[0]] + txs[1..][..i - 1];
      assert txs[..i][0] == txs[0] && txs[..i][1..] == txs[1..][..i - 1];
    }
  }

  // Nothing refused is the same as authentic and replayed.
  lemma {:induction false} AllApplied(c: Crypto, a: Accounts, txs: seq<Transaction>)
    ensures FirstRefused(c, a, txs) == |txs| <==> AllAuthentic(c, txs) && Replay(a, txs).Some?
    ensures ApplyBlock(c, a, txs).0 <==> FirstRefused(c, a, txs) == |txs|
    ensures ApplyBlock(c, a, txs).0 ==> ApplyBlock(c, a, txs).1 == Replay(a, txs).value
    decreases |txs|
  {
    hide CanApply, Apply, Authentic;
    if txs != [] {
      assert txs[0] in txs;
      if Authentic(c, txs[0]) && CanApply(a, txs[0]) {
        AllApplied(c, Apply(a, txs[0]).value, txs[1..]);
        assert txs == [txs[0]] + txs[1..];
      }
    }
  }

  /** A block is taken whole or not at all. It is accepted exactly when every transaction
      is authentic and all apply in order. When it is refused, after however many, the
      ones applied are reversed; no reversal is refused if and only if no credit among
      them wrapped, and then every balance and next nonce is what it was. */
  lemma BlockAtomicity(c: Crypto, a: Accounts, txs: seq<Transaction>)
    ensures ApplyBlock(c, a, txs).0 <==> AllAuthentic(c, txs) && Replay(a, txs).Some?
    ensures ApplyBlock(c, a, txs).0 ==> ApplyBlock(c, a, txs).1 == Replay(a, txs).value
    ensures !ApplyBlock(c, a, txs).0 ==>
              var done := txs[..FirstRefused(c, a, txs)];
              && Replay(a, done).Some?
              && ApplyBlock(c, a, txs).1 == ReverseAll(Replay(a, done).value, done)
              && (AllReverse(Replay(a, done).value, done) <==> CreditsFit(a, done))
              && (CreditsFit(a, done) ==> Covers(ApplyBlock(c, a, txs).1, a))
  {
    hide ApplyBlock, FirstRefused, Replay, ReverseAll, AllReverse, CreditsFit, Covers, CanApply, AllAuthentic;
    AllApplied(c, a, txs);
    if !ApplyBlock(c, a, txs).0 {
      var i := FirstRefused(c, a, txs);
      FirstRefusedIs(c, a, txs);
      RefusedAt(c, a, txs, i);
      SelfCovers(Replay(a, txs[..i]).value);
      UndoIsExact(a, Replay(a, txs[..i]).value, txs[..i]);
    }
  }

  lemma SelfCovers(a: Accounts)
    ensures Covers(a, a)
  {}

  // Right after `tx`, more addresses make no difference to whether it can be reversed.
  lemma ReverseSeesCovers(b: Accounts, a: Accounts, tx: Transaction)
    requires CanApply(a, tx) && Covers(b, Apply(a, tx).value)
    ensures CanReverse(b, tx) <==> CreditFits(a, tx)
    ensures CanReverse(b, tx) ==> Covers(Reverse(b, tx).value, a)
  {
    var next := Apply(a, tx).value;
    ReverseUndoesApply(a, tx);
    assert Balance(next, tx.recipient) == Balance(b, tx.recipient);
    assert NextNonce(next, tx.sender) == NextNonce(b, tx.sender);
    assert CanReverse(b, tx) <==> CanReverse(next, tx);
    hide Apply, CanApply, CanReverse, Reverse, CreditFits, Covers;
    if CanReverse(b, tx) {
      ReverseRespectsCovers(b, next, tx);
      CoversTransitive(Reverse(b, tx).value, Reverse(next, tx).value, a);
    }
  }

  lemma CoversTransitive(c: Accounts, b: Accounts, a: Accounts)
    requires Covers(c, b) && Covers(b, a)
    ensures Covers(c, a)
  {
    forall x: Str ensures Balance(c, x) == Balance(a, x) && NextNonce(c, x) == NextNonce(a, x) {
      assert Balance(c, x) == Balance(b, x) && Balance(b, x) == Balance(a, x);
    }
  }

  /** Undoing a cleanly applied list, newest first: no reversal is refused if and only if
      no credit had wrapped, and then the ledger is restored. */
  lemma {:induction false} UndoIsExact(a: Accounts, b: Accounts, txs: seq<Transaction>)
    requires Replay(a, txs).Some? && Covers(b, Replay(a, txs).value)
    ensures AllReverse(b, txs) <==> CreditsFit(a, txs)
    ensures CreditsFit(a, txs) ==> Covers(ReverseAll(b, txs), a)
    decreases |txs|
  {
    hide Covers, CanApply, Apply, CanReverse, Reverse, CreditFits;
    if txs != [] {
      var init, last := txs[..|txs| - 1], txs[|txs| - 1];
      assert txs == init + [last];
      ReplayConcat(a, init, [last]);
      var before := Replay(a, init).value;
      CreditsFitSnoc(a, init, last);
      ReverseSeesCovers(b, before, last);
      if CanReverse(b, last) {
        UndoIsExact(a, Reverse(b, last).value, init);
      }
    }
  }

  lemma {:induction false} CreditsFitSnoc(a: Accounts, init: seq<Transaction>, last: Transaction)
    requires Replay(a, init).Some? && CanApply(Replay(a, init).value, last)
    ensures CreditsFit(a, init + [last]) <==> CreditsFit(a, init) && CreditFits(Replay(a, init).value, last)
    decreases |init|
  {
    hide CanApply, Apply, CreditFits;
    if init == [] {
      assert init + [last] == [last];
    } else {
      assert (init + [last])[0] == init[0] && (init + [last])[1..] == init[1..] + [last];
      CreditsFitSnoc(Apply(a, init[0]).value, init[1..], last);
    }
  }

  // A list that replays cleanly still does from a ledger listing more addresses.
  lemma {:induction false} ReplayRespectsCovers(b: Accounts, a: Accounts, txs: seq<Transaction>)
    requires Covers(b, a)
    requires Replay(a, txs).Some?
    ensures Replay(b, txs).Some? && Covers(Replay(b, txs).value, Replay(a, txs).value)
    ensures ApplyAll(b, txs) == Replay(b, txs).value
    decreases |txs|
  {
    if txs != [] {
      ApplyRespectsCovers(b, a, txs[0]);
      ReplayRespectsCovers(Apply(b, txs[0]).value, Apply(a, txs[0]).value, txs[1..]);
    }
  }

  class Ledger {
    var balances: map<Str, u64>
    var nonces: map<Str, u64>

    function View(): Accounts
      reads this
    {
      Accounts(balances, nonces)
    }

    constructor ()
      ensures View() == EMPTY
    {
      balances, nonces := map[], map[];
    }

    method Nonce(address: Str) returns (r: u64)
      ensures r == NextNonce(View(), address)
    {
      if address in nonces {
        r := nonces[address];
      } else {
        r := 0;
      }
    }

    method ApplyTransaction(tx: Transaction) returns (ok: bool)
      modifies this
      ensures ok == CanApply(old(View()), tx)
      ensures View() == ApplyOrKeep(old(View()), tx)
    {
      if tx.sender != COINBASE {
        if tx.sender !in balances {
          return false;
        }
        if Add64(tx.amount, tx.fee) > balances[tx.sender] {
          return false;
        }
        var expected := Nonce(tx.sender);
        if tx.nonce != expected {
          return false;
        }
        balances := balances[tx.sender := Sub64(balances[tx.sender], Add64(tx.amount, tx.fee))];
        nonces := nonces[tx.sender := Add64(tx.nonce, 1)];
      }
      var credited: u64 := if tx.recipient in balances then balances[tx.recipient] else 0;
      balances := balances[tx.recipient := Add64(credited, tx.amount)];
      return true;
    }

    method ReverseTransaction(tx: Transaction) returns (ok: bool)
      modifies this
      ensures ok == CanReverse(old(View()), tx)
      ensures View() == ReverseOrKeep(old(View()), tx)
    {
      if tx.recipient !in balances {
        return false;
      }
      if tx.amount > balances[tx.recipient] {
        return false;
      }
      if tx.sender != COINBASE {
        var next := Nonce(tx.sender);
        if next != Add64(tx.nonce, 1) {
          return false;
        }
        var funds: u64 := if tx.sender in balances then balances[tx.sender] else 0;
        balances := balances[tx.sender := Add64(funds, Add64(tx.amount, tx.fee))];
        nonces := nonces[tx.sender := tx.nonce];
      }
      balances := balances[tx.recipient := Sub64(balances[tx.recipient], tx.amount)];
      return true;
    }

    /** `apply_block_to_ledger`: the two loops of the node, apply forward and, on
        the first refusal, reverse what was applied. */
    method ApplyTransactions(c: Crypto, txs: seq<Transaction>) returns (ok: bool)
      modifies this
      ensures (ok, View()) == ApplyBlock(c, old(View()), txs)
    {
      hide CanReverse, Reverse, CreditsFit, AllReverse, FirstRefused, Covers, ApplyBlock;
      ghost var start := View();
      for i := 0 to |txs|
        invariant Replay(start, txs[..i]) == Some(View())
        invariant AllAuthentic(c, txs[..i])
      {
        var tx := txs[i];
        assert txs[..i + 1] == txs[..i] + [tx];
        ReplayConcat(start, txs[..i], [tx]);
        ghost var before := View();
        var authentic := tx.sender == COINBASE || HasValidSignature(c, tx);
        var applied := false;
        if authentic {
          applied := ApplyTransaction(tx);
        }
        if !applied {
          assert View() == before;
          RefusedAt(c, start, txs, i);
          var j := i;
          while j > 0
            invariant 0 <= j <= i
            invariant ReverseAll(View(), txs[..j]) == ReverseAll(before, txs[..i])
          {
            assert txs[..j][..j - 1] == txs[..j - 1];
            var _ := ReverseTransaction(txs[j - 1]);
            j := j - 1;
          }
          return false;
        }
      }
      assert txs[..|txs|] == txs;
      BlockAtomicity(c, start, txs);
      return true;
    }
  }

  // A refusal at position `i` reverses exactly the first `i` transactions.
  lemma {:induction false} RefusedAt(c: Crypto, a: Accounts, txs: seq<Transaction>, i: nat)
    requires i < |txs|
    requires AllAuthentic(c, txs[..i]) && Replay(a, txs[..i]).Some?
    requires !Authentic(c, txs[i]) || !CanApply(Replay(a, txs[..i]).value, txs[i])
    ensures ApplyBlock(c, a, txs) == (false, ReverseAll(Replay(a, txs[..i]).value, txs[..i]))
    decreases i
  {
    if i > 0 {
      assert txs[..i][0] == txs[0] && txs[..i][1..] == txs[1..][..i - 1];
      assert txs[0] in txs[..i];
      forall tx | tx in txs[1..][..i - 1] ensures Authentic(c, tx) {
        assert tx in txs[..i];
      }
      RefusedAt(c, Apply(a, txs[0]).value, txs[1..], i - 1);
      ReverseAllHead(Replay(a, txs[..i]).value, txs[0], txs[1..][..i - 1]);
      assert txs[..i] == [txs[0]] + txs[1..][..i - 1];
    }
  }

  lemma {:induction false} ReverseAllHead(a: Accounts, tx: Transaction, rest: seq<Transaction>)
    ensures ReverseAll(a, [tx] + rest) == ReverseOrKeep(ReverseAll(a, rest), tx)
    decreases |rest|
  {
    var all := [tx] + rest;
    if rest == [] {
      assert all == [tx] && all[..0] == [];
    } else {
      assert all[|all| - 1] == rest[|rest| - 1] && all[..|all| - 1] == [tx] + rest[..|rest| - 1];
      ReverseAllHead(ReverseOrKeep(a, rest[|rest| - 1]), tx, rest[..|rest| - 1]);
    }
  }
}
