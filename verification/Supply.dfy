/**
 Laws of a whole chain replayed from the empty ledger: how much money there is,
 and how each sender's nonces run.
 */
module ChainLaws {
  import opened Types
  import opened Accounting
  import opened Consensus
  import opened LedgerReorg

  // ---- The sum of all balances ----

  ghost function Total(m: map<Str, u64>): nat
    decreases |m|
  {
    if m == map[] then 0
    else
      var k :| k in m;
      m[k] + Total(m - {k})
  }

  lemma {:induction false} TotalRemove(m: map<Str, u64>, k: Str)
    requires k in m
    ensures Total(m) == m[k] + Total(m - {k})
    decreases |m|
  {
    var j :| j in m && Total(m) == m[j] + Total(m - {j});
    if j != k {
      TotalRemove(m - {j}, k);
      TotalRemove(m - {k}, j);
      assert m - {j} - {k} == m - {k} - {j};
    }
  }

  lemma TotalUpdate(m: map<Str, u64>, k: Str, v: u64)
    ensures Total(m[k := v]) == Total(m) - (if k in m then m[k] else 0) + v
  {
    TotalRemove(m[k := v], k);
    assert m[k := v] - {k} == m - {k};
    if k in m {
      TotalRemove(m, k);
    } else {
      assert m - {k} == m;
    }
  }

  lemma BalanceWithinTotal(a: Accounts, x: Str)
    ensures Balance(a, x) <= Total(a.balances)
  {
    if x in a.balances {
      TotalRemove(a.balances, x);
    }
  }

  // ---- Money created and fees destroyed ----

  function Minted(txs: seq<Transaction>): nat {
    if txs == [] then 0
    else (if txs[0].sender == COINBASE then txs[0].amount else 0) + Minted(txs[1..])
  }

  function Paid(txs: seq<Transaction>): nat {
    if txs == [] then 0
    else (if txs[0].sender == COINBASE then 0 else txs[0].fee) + Paid(txs[1..])
  }

  // No transaction's amount and fee add up to 2^64 or more.
  predicate CostsFit(txs: seq<Transaction>) {
    forall tx :: tx in txs ==> tx.amount + tx.fee < LIMIT64
  }

  lemma {:induction false} FlowConcat(s: seq<Transaction>, t: seq<Transaction>)
    ensures Minted(s + t) == Minted(s) + Minted(t) && Paid(s + t) == Paid(s) + Paid(t)
  {
    if s == [] {
      assert s + t == t;
    } else {
      assert (s + t)[0] == s[0] && (s + t)[1..] == s[1..] + t;
      FlowConcat(s[1..], t);
    }
  }

  lemma DebitTotal(a: Accounts, tx: Transaction)
    requires CanApply(a, tx) && tx.amount + tx.fee < LIMIT64
    ensures Total(Debit(a, tx).balances)
            == Total(a.balances) - if tx.sender == COINBASE then 0 else tx.amount + tx.fee
  {
    if tx.sender != COINBASE {
      TotalUpdate(a.balances, tx.sender, Sub64(Balance(a, tx.sender), Add64(tx.amount, tx.fee)));
    }
  }

  // One transaction: a coinbase creates its amount, anything else destroys its fee.
  lemma ApplyTotal(a: Accounts, tx: Transaction)
    requires CanApply(a, tx) && tx.amount + tx.fee < LIMIT64
    requires Total(a.balances) + (if tx.sender == COINBASE then tx.amount else 0) < LIMIT64
    ensures CreditFits(a, tx)
    ensures Total(Apply(a, tx).value.balances)
            == Total(a.balances) + Minted([tx]) - Paid([tx])
  {
    var d := Debit(a, tx);
    DebitTotal(a, tx);
    BalanceWithinTotal(d, tx.recipient);
    TotalUpdate(d.balances, tx.recipient, Add64(Balance(d, tx.recipient), tx.amount));
  }

  /** While what exists and what is about to be minted fit 64 bits, no credit wraps,
      whether or not the list replays to its end; if it does, the total changes by
      exactly what was minted less the fees. */
  lemma {:induction false} ReplayTotal(a: Accounts, txs: seq<Transaction>)
    requires CostsFit(txs)
    requires Total(a.balances) + Minted(txs) < LIMIT64
    ensures CreditsFit(a, txs)
    ensures Replay(a, txs).Some? ==>
              Total(Replay(a, txs).value.balances) == Total(a.balances) + Minted(txs) - Paid(txs)
    decreases |txs|
  {
    hide Apply, CanApply, CreditFits, Total;
    if txs != [] && CanApply(a, txs[0]) {
      assert txs[0] in txs;
      ApplyTotal(a, txs[0]);
      assert forall tx :: tx in txs[1..] ==> tx in txs;
      ReplayTotal(Apply(a, txs[0]).value, txs[1..]);
    }
  }

  // ---- The coinbase rule bounds what a block mints ----

  lemma {:induction false} FeesWithinPaid(txs: seq<Transaction>)
    requires forall tx :: tx in txs ==> tx.sender != COINBASE
    ensures Fees64(txs) <= Paid(txs) && Minted(txs) == 0
    decreases |txs|
  {
    if txs != [] {
      var init, last := txs[..|txs| - 1], txs[|txs| - 1];
      assert last in txs && forall tx :: tx in init ==> tx in txs;
      FeesWithinPaid(init);
      assert txs == init + [last];
      FlowConcat(init, [last]);
    }
  }

  lemma CoinbaseBoundsMinted(txs: seq<Transaction>)
    requires CoinbaseAmountOk(txs)
    ensures Minted(txs) <= 50 + Paid(txs)
  {
    if forall i :: 0 <= i < |txs| ==> txs[i].sender != COINBASE {
      FeesWithinPaid(txs);
    } else {
      var k: nat :| OnlyCoinbase(txs, k)
                    && txs[k].amount <= Add64(MINING_REWARD, Fees64(txs[..k] + txs[k + 1..]));
      CoinbaseAt(txs, k);
    }
  }

  lemma CoinbaseAt(txs: seq<Transaction>, k: nat)
    requires OnlyCoinbase(txs, k)
    ensures Minted(txs) == txs[k].amount
    ensures Fees64(txs[..k] + txs[k + 1..]) <= Paid(txs)
  {
    var before, after := txs[..k], txs[k + 1..];
    assert txs == before + ([txs[k]] + after);
    FlowConcat(before, [txs[k]] + after);
    FlowConcat([txs[k]], after);
    FlowConcat(before, after);
    FeesWithinPaid(before + after);
  }

  // At most one transaction is a coinbase.
  ghost predicate OneCoinbase(txs: seq<Transaction>) {
    forall i, j :: 0 <= i < j < |txs| && txs[i].sender == COINBASE ==> txs[j].sender != COINBASE
  }

  lemma {:induction false} FeesArePaid(txs: seq<Transaction>)
    requires (forall tx :: tx in txs ==> tx.sender != COINBASE) && Paid(txs) < LIMIT64
    ensures Fees64(txs) == Paid(txs)
    decreases |txs|
  {
    if txs != [] {
      var init, last := txs[..|txs| - 1], txs[|txs| - 1];
      assert last in txs && forall tx :: tx in init ==> tx in txs;
      assert txs == init + [last];
      FlowConcat(init, [last]);
      FeesArePaid(init);
    }
  }

  /** Where nothing wraps, the coinbase rule says no more and no less than this: at most one
      coinbase, and the block mints at most 50 and the fees paid in it. */
  lemma CoinbaseExact(txs: seq<Transaction>)
    requires 50 + Paid(txs) < LIMIT64
    ensures CoinbaseAmountOk(txs) <==> OneCoinbase(txs) && Minted(txs) <= 50 + Paid(txs)
  {
    hide Fees64, Minted, Paid;
    if forall i :: 0 <= i < |txs| ==> txs[i].sender != COINBASE {
      FeesWithinPaid(txs);
    } else if OneCoinbase(txs) {
      var k :| 0 <= k < |txs| && txs[k].sender == COINBASE;
      assert forall n: nat :: OnlyCoinbase(txs, n) <==> n == k;
      OthersPay(txs, k);
    } else {
      var i, j :| 0 <= i < j < |txs| && txs[i].sender == COINBASE && txs[j].sender == COINBASE;
      assert forall n: nat :: !OnlyCoinbase(txs, n);
    }
  }

  lemma OthersPay(txs: seq<Transaction>, k: nat)
    requires OnlyCoinbase(txs, k) && Paid(txs) < LIMIT64
    ensures Minted(txs) == txs[k].amount && Fees64(txs[..k] + txs[k + 1..]) == Paid(txs)
  {
    var before, after := txs[..k], txs[k + 1..];
    CoinbaseAt(txs, k);
    assert txs == before + ([txs[k]] + after);
    FlowConcat(before, [txs[k]] + after);
    FlowConcat([txs[k]], after);
    FlowConcat(before, after);
    FeesArePaid(before + after);
  }

  // ---- The supply law ----

  // `blocks` are the blocks above genesis.
  ghost predicate SoundMoney(blocks: seq<Block>) {
    forall i :: 0 <= i < |blocks| ==>
      var txs := blocks[i].wire.transactions;
      CoinbaseAmountOk(txs) && CostsFit(txs) && MINING_REWARD * |blocks| + Paid(txs) < LIMIT64
  }

  /** The supply law. On a chain whose blocks pass the coinbase rule and replay
      cleanly, all balances together are what was minted less the fees, and never
      more than the reward times the number of blocks: fees only return to the
      miner, even when a coinbase funds fees paid in its own block. */
  lemma {:induction false} SupplyLaw(blocks: seq<Block>)
    requires SoundMoney(blocks)
    requires Replay(EMPTY, Transactions(blocks)).Some?
    ensures
      var txs := Transactions(blocks);
      var total := Total(Replay(EMPTY, txs).value.balances);
      total == Minted(txs) - Paid(txs) && total <= 50 * |blocks|
    ensures CreditsFit(EMPTY, Transactions(blocks))
    decreases |blocks|
  {
    if blocks != [] {
      var init, txs := blocks[..|blocks| - 1], blocks[|blocks| - 1].wire.transactions;
      var earlier := Transactions(init);
      ReplayConcat(EMPTY, earlier, txs);
      SupplyLaw(init);
      var before := Replay(EMPTY, earlier).value;
      CoinbaseBoundsMinted(txs);
      ReplayTotal(before, txs);
      FlowConcat(earlier, txs);
      CreditsFitConcat(EMPTY, earlier, txs);
    }
  }

  lemma {:induction false} CreditsFitConcat(a: Accounts, s: seq<Transaction>, t: seq<Transaction>)
    requires Replay(a, s).Some? && CreditsFit(a, s) && CreditsFit(Replay(a, s).value, t)
    ensures CreditsFit(a, s + t)
    decreases |s|
  {
    if s == [] {
      assert s + t == t;
    } else {
      assert (s + t)[0] == s[0] && (s + t)[1..] == s[1..] + t;
      CreditsFitConcat(Apply(a, s[0]).value, s[1..], t);
    }
  }

  // ---- Nonces ----

  /** Along any cleanly replayed chain each sender's transactions carry the nonces
      0, 1, 2, ... in order, the next nonce counts what was applied, and no
      transaction other than a coinbase ever occurs twice. */
  lemma NonceLaw(txs: seq<Transaction>)
    requires Replay(EMPTY, txs).Some? && |txs| < LIMIT64
    ensures forall i :: 0 <= i < |txs| && txs[i].sender != COINBASE ==>
              txs[i].nonce == Sum(txs[..i], txs[i].sender).sent
    ensures forall x: Str :: NextNonce(Replay(EMPTY, txs).value, x) == Sum(txs, x).sent
    ensures NoReplays(txs)
  {
    hide Replay, Sum;
    forall i | 0 <= i < |txs| && txs[i].sender != COINBASE
      ensures txs[i].nonce == Sum(txs[..i], txs[i].sender).sent
    {
      var m := NonceAt(EMPTY, txs, i);
      SentBounds(txs[..i], txs[i].sender);
    }
    forall x: Str ensures NextNonce(Replay(EMPTY, txs).value, x) == Sum(txs, x).sent {
      var k, m := ReplayEffect(EMPTY, txs, x);
      SentBounds(txs, x);
    }
    CleanBranchNoReplays(EMPTY, txs);
  }
}
