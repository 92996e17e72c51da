/**
 What the laws of the ledger and of the chain come to for a running node: money,
 nonces and restarts, in every state of every run whose ledger stays in step.
 */
module Guarantees {
  import opened Types
  import opened Accounting
  import opened LedgerReorg
  import opened Consensus
  import opened Chain
  import opened Disk
  import opened Codec
  import opened ChainLaws
  import opened NodeModel
  import opened NodeInvariant
  import opened Manager
  import opened Runs
  import opened Tracking
  import opened Restart
  import opened Sync

  lemma {:induction false} TotalOfZeros(n: map<Str, u64>)
    requires forall k :: k in n ==> n[k] == 0
    ensures Total(n) == 0
    decreases |n|
  {
    if n != map[] {
      var k :| k in n;
      TotalRemove(n, k);
      TotalOfZeros(n - {k});
    }
  }

  // Absent counts as zero on both sides.
  ghost predicate SameAmounts(m: map<Str, u64>, n: map<Str, u64>) {
    && (forall k :: k in m ==> m[k] == if k in n then n[k] else 0)
    && (forall k :: k in n && k !in m ==> n[k] == 0)
  }

  // Accounts that say the same hold the same money.
  lemma {:induction false} TotalAgrees(m: map<Str, u64>, n: map<Str, u64>)
    requires SameAmounts(m, n)
    ensures Total(m) == Total(n)
    decreases |m|
  {
    if m == map[] {
      TotalOfZeros(n);
    } else {
      hide Total;
      var k :| k in m;
      TotalRemove(m, k);
      if k in n {
        TotalRemove(n, k);
      }
      assert SameAmounts(m - {k}, n - {k});
      hide SameAmounts;
      TotalAgrees(m - {k}, n - {k});
      assert k !in n ==> n - {k} == n;
    }
  }

  lemma SameTotal(b: Accounts, a: Accounts)
    requires Same(b, a)
    ensures Total(b.balances) == Total(a.balances)
  {
    forall k | k in b.balances ensures b.balances[k] == if k in a.balances then a.balances[k] else 0 {
      assert Balance(b, k) == Balance(a, k);
    }
    forall k | k in a.balances && k !in b.balances ensures a.balances[k] == 0 {
      assert Balance(b, k) == Balance(a, k);
    }
    TotalAgrees(b.balances, a.balances);
  }

  // No sum of money on the chain reaches 2^64.
  ghost predicate MoneyFits(blocks: seq<Block>) {
    forall i :: 0 <= i < |blocks| ==>
      var txs := blocks[i].wire.transactions;
      CostsFit(txs) && MINING_REWARD * |blocks| + Paid(txs) < LIMIT64
  }

  lemma CheckedIsSound(s: Node)
    requires s.blocks != [] && Checked(CoinbaseWithinRule, s) && MoneyFits(s.blocks[1..])
    ensures SoundMoney(s.blocks[1..])
  {
    hide CoinbaseAmountOk, CostsFit, Paid;
    forall i | 0 <= i < |s.blocks[1..]| ensures CoinbaseAmountOk(s.blocks[1..][i].wire.transactions) {
      assert Passes(CoinbaseWithinRule, s.blocks[i + 1]);
    }
  }

  /** Every step up to state `n` meets the condition under which the ledger stays in step,
      and the transactions around it can be told apart. */
  ghost predicate InStep(cfg: Config, states: seq<Node>, events: seq<Event>, n: nat)
    requires n < |states| == |events| + 1
  {
    && (forall k :: 0 <= k < n ==> Comparable(cfg, states[k], states[k + 1]))
    && (forall k :: 0 <= k < n ==> KeepsLedger(cfg, states[k], events[k], states[k + 1]))
  }

  lemma InStepTracks(cfg: Config, known: iset<Wire>, states: seq<Node>, events: seq<Event>, n: nat)
    requires Run(cfg, known, states, events) && n < |states| && InStep(cfg, states, events, n)
    ensures LedgerTracks(states[n])
  {
    hide LedgerTracks, Comparable, KeepsLedger, Next, EventKnown, BlocksCollisionFree, Genesis;
    RunTracks(cfg, known, states, events, n);
  }

  /** Supply. In every state of a run that stays in step and adopts only blocks within the coinbase rule,
      the balances on the node's ledger add up to what the coinbases on its chain minted
      less the fees, and to at most the reward times the number of blocks above genesis. */
  lemma RunSupply(cfg: Config, known: iset<Wire>, states: seq<Node>, events: seq<Event>, i: nat)
    requires Run(cfg, known, states, events) && i < |states|
    requires InStep(cfg, states, events, i)
    requires forall k :: 0 <= k < i ==> EventChecked(CoinbaseWithinRule, cfg, states[k], events[k])
    requires states[i].blocks != [] && MoneyFits(states[i].blocks[1..])
    ensures var total, txs := Total(states[i].accounts.balances), Transactions(states[i].blocks);
      total == Minted(txs) - Paid(txs) && total <= 50 * (|states[i].blocks| - 1)
  {
    hide Run, EventChecked, Transactions, Replay, Total, Minted, Paid, MoneyFits, SoundMoney, Same;
    hide RulesOk, PoolSound, BlocksCollisionFree, ProperChain, MirrorOf, Checked, InStep;
    var s := states[i];
    InStepTracks(cfg, known, states, events, i);
    RunChecked(CoinbaseWithinRule, cfg, known, states, events, i);
    RunInvariant(cfg, known, states, events, i);
    CheckedIsSound(s);
    AboveGenesis(cfg.crypto, known, s.blocks);
    SupplyLaw(s.blocks[1..]);
    SameTotal(s.accounts, Replay(EMPTY, Transactions(s.blocks)).value);
  }

  /** Nonces. In every state of a run that stays in step the next nonce the node reports
      for an address is the number of transactions that address has sent on the chain, and
      no transaction other than a coinbase is on the chain twice. */
  lemma RunNonces(cfg: Config, known: iset<Wire>, states: seq<Node>, events: seq<Event>, i: nat, x: Str)
    requires Run(cfg, known, states, events) && i < |states| && InStep(cfg, states, events, i)
    requires |Transactions(states[i].blocks)| < LIMIT64
    ensures NextNonce(states[i].accounts, x) == Sum(Transactions(states[i].blocks), x).sent
    ensures NoReplays(Transactions(states[i].blocks))
  {
    hide Run, InStep, Transactions, Replay, Sum, NoReplays;
    var s := states[i];
    InStepTracks(cfg, known, states, events, i);
    NonceLaw(Transactions(s.blocks));
    assert Balance(s.accounts, x) == Balance(Replay(EMPTY, Transactions(s.blocks)).value, x);
  }

  /** Restarts. Stopping a node in any state of a run that stays in step and starting it on
      its database gives the same chain, cumulative work included, and a ledger that says
      the same. */
  lemma RunRestarts(cfg: Config, known: iset<Wire>, states: seq<Node>, events: seq<Event>, i: nat) returns (t: Node)
    requires Run(cfg, known, states, events) && i < |states| && InStep(cfg, states, events, i)
    requires states[i].disk.Some?
    requires forall k :: 0 <= k < |states[i].blocks| ==> WireFits(states[i].blocks[k].wire)
    ensures var disk := states[i].disk;
      LoadFrom(cfg.crypto, disk.value, 1, |disk.value|, Opened(cfg, disk)) == Some(t)
    ensures NodeOk(cfg, known, t)
    ensures t.blocks == states[i].blocks && Same(states[i].accounts, t.accounts) && t.disk == states[i].disk
  {
    hide Run, InStep, Transactions, Replay, NodeOk, WireFits, LoadFrom, Opened, Same;
    var s := states[i];
    InStepTracks(cfg, known, states, events, i);
    RunInvariant(cfg, known, states, events, i);
    RestartRebuilds(cfg, known, s);
    var accounts := Replay(EMPTY, Transactions(s.blocks)).value;
    t := Rebuilt(s, accounts);
    RebuiltOk(cfg, known, s, accounts);
  }

  // ---- Two nodes ----

  lemma RestIsKnown(cfg: Config, known: iset<Wire>, b: Node, m: nat)
    requires NodeOk(cfg, known, b) && m < |b.blocks|
    ensures AllSelfHashed(cfg.crypto, known, ReceivedAll(cfg.crypto, b.blocks[m + 1..]))
  {
    hide RulesOk, PoolSound, BlocksCollisionFree, Linked, WorkExact, Genesis;
    var rest := b.blocks[m + 1..];
    forall i | 0 <= i < |rest| ensures rest[i].wire in known {
      assert SelfHashed(cfg.crypto, known, b.blocks[m + 1 + i]);
    }
  }

  /** Ledgers converge with chains. Two nodes whose ledgers track their chains, and `a` adopts
      `b`'s answer from height `m` on. Their chains are then equal; their ledgers say the same
      if and only if the adoption met the condition under which `a`'s ledger stays in step. */
  lemma LedgersConverge(cfg: Config, known: iset<Wire>, a: Node, b: Node, m: nat, now: u64) returns (r: Node)
    requires NodeOk(cfg, known, a) && NodeOk(cfg, known, b) && m < |b.blocks|
    requires TotalWork(a.blocks) < LIMIT64 && TipWork(b.blocks) > TipWork(a.blocks)
    requires HeightOf(a.blocks, b.blocks[m].hash).Some? && WithinDrift(cfg.params, b.blocks, m, now)
    requires LedgerTracks(a) && LedgerTracks(b) && Comparable(cfg, a, b)
    ensures AdoptStep(cfg, a, ReceivedAll(cfg.crypto, b.blocks[m + 1..]), now) == Some(r) && r.blocks == b.blocks
    ensures Same(r.accounts, b.accounts) <==>
            KeepsLedger(cfg, a, Adopt(ReceivedAll(cfg.crypto, b.blocks[m + 1..]), now), r)
  {
    hide NodeOk, TotalWork, TipWork, HeightOf, WithinDrift, AdoptStep, ReceivedAll, Replay, Transactions, KeepsLedger;
    hide Same, AllSelfHashed, BodiesCollisionFree;
    var answer := ReceivedAll(cfg.crypto, b.blocks[m + 1..]);
    LateAdoption(cfg, known, a, b, m, now);
    r := AdoptStep(cfg, a, answer, now).value;
    RestIsKnown(cfg, known, b, m);
    StepTracks(cfg, known, a, Adopt(answer, now), r);
    var replayed := Replay(EMPTY, Transactions(b.blocks)).value;
    SameBack(b.accounts, replayed);
    if Same(r.accounts, replayed) {
      SameTransitive(r.accounts, replayed, b.accounts);
    }
    if Same(r.accounts, b.accounts) {
      SameTransitive(r.accounts, b.accounts, replayed);
    }
  }
}
