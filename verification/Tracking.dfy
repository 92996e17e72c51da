/**
 How the ledger keeps up with the chain. A ledger tracks its chain when it says what
 replaying that chain from nothing says. For every kind of step there is an exact
 condition under which it still does afterwards, and for whole runs their conjunction.
 */
module Tracking {
  import opened Types
  import opened Accounting
  import opened LedgerReorg
  import opened Chain
  import opened Forks
  import opened Consensus
  import opened Pending
  import opened Disk
  import opened Orphans
  import opened NodeModel
  import opened NodeInvariant
  import opened Runs

  // The ledger says what replaying the whole chain from nothing says.
  ghost predicate LedgerTracks(s: Node) {
    var txs := Transactions(s.blocks);
    Replay(EMPTY, txs).Some? && Same(s.accounts, Replay(EMPTY, txs).value)
  }

  // ---- Ledgers that say the same ----

  lemma SameTransitive(c: Accounts, b: Accounts, a: Accounts)
    requires Same(c, b) && Same(b, a)
    ensures Same(c, a)
  {
    forall x: Str ensures Balance(c, x) == Balance(a, x) && NextNonce(c, x) == NextNonce(a, x) {
      assert Balance(c, x) == Balance(b, x) && Balance(b, x) == Balance(a, x);
    }
  }

  lemma SameBack(b: Accounts, a: Accounts)
    requires Same(b, a)
    ensures Same(a, b)
  {
    forall x: Str ensures Balance(a, x) == Balance(b, x) && NextNonce(a, x) == NextNonce(b, x) {
      assert Balance(b, x) == Balance(a, x);
    }
  }

  /** Every sender has an entry when its turn comes. Only a transaction that costs nothing
      can tell an address without an entry from one at zero. */
  predicate SendersListed(a: Accounts, txs: seq<Transaction>)
    decreases |txs|
  {
    txs != [] ==>
      && (txs[0].sender == COINBASE || txs[0].sender in a.balances)
      && (CanApply(a, txs[0]) ==> SendersListed(Apply(a, txs[0]).value, txs[1..]))
  }

  lemma ApplyRespectsSame(b: Accounts, a: Accounts, tx: Transaction)
    requires Same(b, a) && CanApply(b, tx)
    ensures CanApply(a, tx) <==> tx.sender == COINBASE || tx.sender in a.balances
    ensures Add64(tx.amount, tx.fee) > 0 ==> CanApply(a, tx)
    ensures CanApply(a, tx) ==> Same(Apply(b, tx).value, Apply(a, tx).value)
  {
    assert Balance(a, tx.recipient) == Balance(b, tx.recipient);
    assert Balance(a, tx.sender) == Balance(b, tx.sender);
    assert NextNonce(a, tx.sender) == NextNonce(b, tx.sender);
    if CanApply(a, tx) {
      forall x: Str
        ensures Balance(Apply(b, tx).value, x) == Balance(Apply(a, tx).value, x)
        ensures NextNonce(Apply(b, tx).value, x) == NextNonce(Apply(a, tx).value, x)
      {
        assert Balance(a, x) == Balance(b, x) && NextNonce(a, x) == NextNonce(b, x);
      }
    }
  }

  /** A list that replays on one ledger replays on another that says the same if and only
      if that one lists every sender in time; in particular if no transaction is free. */
  lemma {:induction false} ReplayRespectsSame(b: Accounts, a: Accounts, txs: seq<Transaction>)
    requires Same(b, a) && Replay(b, txs).Some?
    ensures Replay(a, txs).Some? <==> SendersListed(a, txs)
    ensures (forall tx :: tx in txs ==> tx.sender == COINBASE || Add64(tx.amount, tx.fee) > 0) ==> Replay(a, txs).Some?
    ensures Replay(a, txs).Some? ==> Same(Replay(b, txs).value, Replay(a, txs).value)
    decreases |txs|
  {
    hide Same, Apply, CanApply;
    if txs != [] {
      assert txs[0] in txs && forall tx :: tx in txs[1..] ==> tx in txs;
      ApplyRespectsSame(b, a, txs[0]);
      if CanApply(a, txs[0]) {
        ReplayRespectsSame(Apply(b, txs[0]).value, Apply(a, txs[0]).value, txs[1..]);
      }
    }
  }

  // ---- One step ----

  // The submitted block was refused by the ledger.
  ghost predicate Refuses(cfg: Config, s: Node, e: Event, s': Node) {
    && e.SubmitBlock?
    && var (ok, accounts) := ApplyBlock(cfg.crypto, s.accounts, e.block.wire.transactions);
       !ok && s' == s.(accounts := accounts)
  }

  // It was added on top of the tip.
  ghost predicate Extends(cfg: Config, s: Node, e: Event, s': Node) {
    && e.SubmitBlock?
    && var (ok, accounts) := ApplyBlock(cfg.crypto, s.accounts, e.block.wire.transactions);
       ok && s' == Extended(cfg, s, e.block, accounts)
  }

  // The chain switched to `fork` above height `h`; the orphan pool is not looked at.
  ghost predicate Switches(cfg: Config, s: Node, s': Node, fork: ForkChain, h: nat) {
    h < |s.blocks| && s' == Switched(cfg, s, fork, h).(pool := s'.pool)
  }

  // Nothing happened to chain and ledger, and only a submitted transaction to the mempool.
  ghost predicate Stays(cfg: Config, s: Node, e: Event, s': Node) {
    && s'.blocks == s.blocks && s'.accounts == s.accounts
    && s'.pending == if e.SubmitTransaction? then Offer(cfg.crypto, cfg.mempoolCapacity, s.pending, e.tx) else s.pending
  }

  lemma NextKinds(cfg: Config, s: Node, e: Event, s': Node)
    requires Next(cfg, s, e, s') && !e.Reload?
    ensures || Stays(cfg, s, e, s')
            || Refuses(cfg, s, e, s') || Extends(cfg, s, e, s')
            || exists fork, h :: Switches(cfg, s, s', fork, h)
    ensures e.SubmitTransaction? ==> Stays(cfg, s, e, s')
  {
    hide TimestampOk, NextDifficulty, ApplyBlock, ContextFree, TraceFork, ForkTips, IsBest, WithOrphan, Offer;
    hide Switched, Extended, Prevails, AdoptCandidate, WithoutOrphans, BlockHashes, HeightOf;
    match e {
      case SubmitBlock(b, now) =>
        var out :| SubmitStep(cfg, s, b, now, out, s');
        if ContextFree(b) && Classify(cfg.crypto, s.blocks, b) == ForkCandidate {
          ForkKinds(cfg, s, b, now, out, s');
        }
      case SubmitTransaction(tx) =>
      case Adopt(answer, now) =>
        if AdoptStep(cfg, s, answer, now).Some? {
          var fork := AdoptCandidate(cfg.params, s.blocks, answer, now).value;
          assert Switches(cfg, s, s', fork, HeightOf(s.blocks, fork.ancestor.hash).value) by {
            SwitchPool(cfg, s, fork);
          }
        }
    }
  }

  lemma ForkKinds(cfg: Config, s: Node, b: Block, now: u64, out: Outcome, s': Node)
    requires ForkStep(cfg, s, b, now, out, s')
    ensures || (s'.blocks == s.blocks && s'.accounts == s.accounts && s'.pending == s.pending)
            || exists fork, h :: Switches(cfg, s, s', fork, h)
  {
    hide TraceFork, ForkTips, IsBest, WithOrphan, Prevails, WithoutOrphans, BlockHashes, HeightOf;
    hide Reorganised, Reoffer, ReplaceFrom, AppendAll;
    var held := s.(pool := WithOrphan(s.pool, cfg.orphanCapacity, b));
    var entries := held.pool.entries;
    if TraceFork(s.blocks, entries, b, MAX_FORK_DEPTH).Some? {
      var tips, best :| ForkTips(entries, b, tips) && IsBest(cfg.params, s.blocks, entries, tips, now, best)
                        && ChooseStep(cfg, held, best, out, s');
      if best.Some? && TryReorg(cfg, held, best.value).Some? {
        var h := HeightOf(s.blocks, best.value.ancestor.hash).value;
        assert Switches(cfg, s, s', best.value, h);
      }
    }
  }

  // A block accepted on top of the tip keeps the ledger in step exactly when the replay knows its senders.
  lemma ExtendTracks(cfg: Config, s: Node, e: Event, s': Node)
    requires LedgerTracks(s) && Extends(cfg, s, e, s')
    ensures LedgerTracks(s') <==>
            SendersListed(Replay(EMPTY, Transactions(s.blocks)).value, e.block.wire.transactions)
  {
    hide ApplyBlock, Replay, AllAuthentic, BlockWork, RemoveAll, Save, Same, SendersListed, FirstRefused;
    var txs, before := e.block.wire.transactions, Transactions(s.blocks);
    BlockAtomicity(cfg.crypto, s.accounts, txs);
    assert s'.blocks[..|s.blocks|] == s.blocks;
    assert Transactions(s'.blocks) == before + txs;
    ReplayRespectsSame(s.accounts, Replay(EMPTY, before).value, txs);
    ReplayConcat(EMPTY, before, txs);
  }

  // A refused block, exactly when its rollback comes to nothing.
  lemma RefusalTracks(cfg: Config, s: Node, e: Event, s': Node)
    requires LedgerTracks(s) && Refuses(cfg, s, e, s')
    ensures LedgerTracks(s') <==> RollbackCancels(cfg.crypto, s.accounts, e.block.wire.transactions)
  {
    hide ApplyBlock, Replay, Transactions, Same, RollbackCancels, CreditsFit, FirstRefused;
    RollbackMatches(cfg.crypto, s.accounts, e.block.wire.transactions);
    var replayed := Replay(EMPTY, Transactions(s.blocks)).value;
    if Same(s'.accounts, s.accounts) {
      SameTransitive(s'.accounts, s.accounts, replayed);
    }
    if Same(s'.accounts, replayed) {
      SameBack(s.accounts, replayed);
      SameTransitive(s'.accounts, replayed, s.accounts);
    }
  }

  // The new chain replays, and what the switch had refused cancels out.
  ghost predicate SwitchAgrees(cfg: Config, s: Node, branch: seq<Block>, h: nat)
    requires h < |s.blocks|
  {
    && Replay(EMPTY, Transactions(s.blocks[..h + 1]) + Transactions(branch)).Some?
    && RefusalsCancel(cfg.crypto, s.accounts, Transactions(s.blocks[h + 1..]), Transactions(branch))
  }

  /** A switch keeps the ledger in step with the chain exactly when the new chain replays
      and the reversals and applications refused on the way cancel out. Transactions that
      both branches contain are no exception. */
  lemma SwitchTracks(cfg: Config, s: Node, fork: ForkChain, h: nat)
    requires LedgerTracks(s) && h < |s.blocks|
    requires var undone, done := Transactions(s.blocks[h + 1..]), Transactions(fork.blocks);
      && |undone| < LIMIT64 && |done| < LIMIT64
      && BodiesCollisionFree(cfg.crypto, undone + done)
    ensures LedgerTracks(Switched(cfg, s, fork, h)) <==> SwitchAgrees(cfg, s, fork.blocks, h)
  {
    hide Replay, Transactions, BodiesCollisionFree, RefusalsCancel, Reorganised, Same, Reoffer, ReplaceFrom, AppendAll;
    var base, done := Transactions(s.blocks[..h + 1]), Transactions(fork.blocks);
    var undone := Transactions(s.blocks[h + 1..]);
    BranchTransactions(s.blocks, h, fork.blocks);
    ReplayConcat(EMPTY, base, undone);
    ReplayConcat(EMPTY, base, done);
    if Replay(EMPTY, base + done).Some? {
      ReorgMatchesReplay(cfg.crypto, Replay(EMPTY, base).value, s.accounts, undone, done);
    }
  }

  // The chain before and after a switch share what lies below, and part above.
  lemma BranchTransactions(blocks: seq<Block>, h: nat, branch: seq<Block>)
    requires h < |blocks|
    ensures Transactions(blocks) == Transactions(blocks[..h + 1]) + Transactions(blocks[h + 1..])
    ensures Transactions(AppendAll(blocks[..h + 1], branch)) == Transactions(blocks[..h + 1]) + Transactions(branch)
  {
    hide Transactions, AppendAll;
    assert blocks == blocks[..h + 1] + blocks[h + 1..];
    TransactionsConcat(blocks[..h + 1], blocks[h + 1..]);
    ForkViewAgrees(blocks, h, branch);
    TransactionsOfWires(AppendAll(blocks[..h + 1], branch), blocks[..h + 1] + branch);
    TransactionsConcat(blocks[..h + 1], branch);
  }

  /** In particular when the branches share no transaction, the new one replays and no
      credit had wrapped: then nothing is refused. */
  lemma DisjointSwitchAgrees(cfg: Config, s: Node, branch: seq<Block>, h: nat)
    requires LedgerTracks(s) && h < |s.blocks|
    requires Covers(s.accounts, Replay(EMPTY, Transactions(s.blocks)).value)
    requires var kept := Transactions(s.blocks[..h + 1]);
      && Replay(EMPTY, kept).Some?
      && CreditsFit(Replay(EMPTY, kept).value, Transactions(s.blocks[h + 1..]))
      && Replay(EMPTY, kept + Transactions(branch)).Some?
    requires NothingShared(cfg.crypto, Transactions(s.blocks[h + 1..]), Transactions(branch))
    ensures SwitchAgrees(cfg, s, branch, h)
  {
    hide Replay, Transactions, CreditsFit, AppendAll, Covers, AllReverse, ReverseAll, Reorganised, Same;
    var base, undone, done := Transactions(s.blocks[..h + 1]), Transactions(s.blocks[h + 1..]), Transactions(branch);
    BranchTransactions(s.blocks, h, branch);
    ReplayConcat(EMPTY, base, undone);
    ReplayConcat(EMPTY, base, done);
    DisjointReorgClean(cfg.crypto, Replay(EMPTY, base).value, s.accounts, undone, done);
    WithoutNothing(cfg.crypto, undone, Hashes(cfg.crypto, done));
    WithoutNothing(cfg.crypto, done, Hashes(cfg.crypto, undone));
    NothingRefusedCancels(cfg.crypto, s.accounts, undone, done);
  }

  // ---- Whole runs ----

  /** The exact condition, for each kind of step, under which the ledger stays in step: a
      refused block is rolled back completely, an accepted one has no free transaction of
      a sender the replay does not know, a switch is to a chain that replays and what it
      had refused cancels out. */
  ghost predicate KeepsLedger(cfg: Config, s: Node, e: Event, s': Node) {
    && (Refuses(cfg, s, e, s') ==> RollbackCancels(cfg.crypto, s.accounts, e.block.wire.transactions))
    && (Extends(cfg, s, e, s') ==>
          && Replay(EMPTY, Transactions(s.blocks)).Some?
          && SendersListed(Replay(EMPTY, Transactions(s.blocks)).value, e.block.wire.transactions))
    && (forall fork, h :: Switches(cfg, s, s', fork, h) ==> SwitchAgrees(cfg, s, fork.blocks, h))
  }

  // The transactions of both chains are fewer than 2^64, and no two of them collide.
  ghost predicate Comparable(cfg: Config, s: Node, s': Node) {
    var txs, txs' := Transactions(s.blocks), Transactions(s'.blocks);
    |txs| < LIMIT64 && |txs'| < LIMIT64 && BodiesCollisionFree(cfg.crypto, txs + txs')
  }

  lemma SwitchStepTracks(cfg: Config, s: Node, s': Node, fork: ForkChain, h: nat)
    requires LedgerTracks(s) && Comparable(cfg, s, s') && Switches(cfg, s, s', fork, h)
    ensures LedgerTracks(s') <==> SwitchAgrees(cfg, s, fork.blocks, h)
  {
    hide Replay, Transactions, TxHash, SwitchAgrees, Reorganised, Same, Reoffer, ReplaceFrom, AppendAll;
    BranchTransactions(s.blocks, h, fork.blocks);
    var undone, done := Transactions(s.blocks[h + 1..]), Transactions(fork.blocks);
    var txs, txs' := Transactions(s.blocks), Transactions(s'.blocks);
    assert BodiesCollisionFree(cfg.crypto, undone + done) by {
      assert forall tx :: tx in undone + done ==> tx in txs + txs';
    }
    hide BodiesCollisionFree;
    SwitchTracks(cfg, s, fork, h);
  }

  // A restart replays the chain.
  lemma ReloadTracks(cfg: Config, known: iset<Wire>, s: Node, s': Node)
    requires NodeOk(cfg, known, s) && EventKnown(cfg, known, Reload) && Next(cfg, s, Reload, s')
    ensures LedgerTracks(s')
  {
    hide NodeOk, EventKnown, Next, Replay, Transactions;
    ReloadIs(cfg, known, s, s');
  }

  lemma StepTracks(cfg: Config, known: iset<Wire>, s: Node, e: Event, s': Node)
    requires NodeOk(cfg, known, s) && EventKnown(cfg, known, e) && Next(cfg, s, e, s')
    requires LedgerTracks(s) && Comparable(cfg, s, s')
    ensures LedgerTracks(s') <==> KeepsLedger(cfg, s, e, s')
  {
    if e.Reload? {
      ReloadTracks(cfg, known, s, s');
      NotSubmitted(cfg, s, e, s');
    } else {
      NextKinds(cfg, s, e, s');
    }
    hide NodeOk, EventKnown, Next, Comparable, Refuses, Extends, Switches, SwitchAgrees, SendersListed;
    hide RollbackCancels, Replay;
    hide Transactions, Same;
    if Refuses(cfg, s, e, s') {
      RefusalTracks(cfg, s, e, s');
    }
    if Extends(cfg, s, e, s') {
      ExtendTracks(cfg, s, e, s');
    }
    forall fork, h | Switches(cfg, s, s', fork, h)
      ensures LedgerTracks(s') <==> SwitchAgrees(cfg, s, fork.blocks, h)
    {
      SwitchStepTracks(cfg, s, s', fork, h);
    }
  }

  lemma NotSubmitted(cfg: Config, s: Node, e: Event, s': Node)
    ensures !e.SubmitBlock? ==> !Refuses(cfg, s, e, s') && !Extends(cfg, s, e, s')
  {}

  /** Up to any state of a run, every ledger says exactly what replaying its chain from
      nothing says, if and only if every step so far met its condition. */
  lemma {:induction false} RunTracks(cfg: Config, known: iset<Wire>, states: seq<Node>, events: seq<Event>, n: nat)
    requires Run(cfg, known, states, events) && n < |states|
    requires forall k :: 0 <= k < n ==> Comparable(cfg, states[k], states[k + 1])
    ensures (forall i :: 0 <= i <= n ==> LedgerTracks(states[i])) <==>
            (forall k :: 0 <= k < n ==> KeepsLedger(cfg, states[k], events[k], states[k + 1]))
    decreases n
  {
    hide NodeOk, Next, EventKnown, BlocksCollisionFree, Comparable, KeepsLedger, LedgerTracks, Genesis;
    if n == 0 {
      StartTracks(cfg, states[0]);
    } else {
      RunTracks(cfg, known, states, events, n - 1);
      assert Comparable(cfg, states[n - 1], states[n - 1 + 1]);
      if LedgerTracks(states[n - 1]) {
        RunInvariant(cfg, known, states, events, n - 1);
        StepTracks(cfg, known, states[n - 1], events[n - 1], states[n]);
      }
    }
  }

  lemma StartTracks(cfg: Config, s: Node)
    requires exists withDisk :: s == Initial(cfg, withDisk)
    ensures LedgerTracks(s)
  {
    assert s.blocks[..0] == [];
    assert Transactions(s.blocks) == [];
  }
}
