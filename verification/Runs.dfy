/**
 Whole runs of the node: any sequence of submitted blocks, submitted
 transactions, catch-up answers and restarts on the node's own database, in any
 order, from a fresh node. A restart that is refused ends the run.
 */
module Runs {
  import opened Types
  import opened Accounting
  import opened LedgerReorg
  import opened Consensus
  import opened Chain
  import opened Orphans
  import opened Forks
  import opened Pending
  import opened Disk
  import Codec
  import opened NodeModel
  import opened NodeInvariant
  import opened Manager
  import opened Restart

  datatype Event =
    | SubmitBlock(block: Block, now: u64)
    | SubmitTransaction(tx: Transaction)
    | Adopt(answer: seq<Block>, now: u64)
    | Reload

  ghost predicate Next(cfg: Config, s: Node, e: Event, s': Node) {
    match e
    case SubmitBlock(b, now) => s.blocks != [] && exists out :: SubmitStep(cfg, s, b, now, out, s')
    case SubmitTransaction(tx) => s' == s.(pending := Offer(cfg.crypto, cfg.mempoolCapacity, s.pending, tx))
    case Adopt(answer, now) => s' == (match AdoptStep(cfg, s, answer, now) case None => s case Some(r) => r)
    case Reload =>
      && s.disk.Some?
      && LoadFrom(cfg.crypto, s.disk.value, 1, |s.disk.value|, Opened(cfg, s.disk)) == Some(s')
  }

  /** The blocks an event brings are among those the hash is assumed good on; to be read back
      from the database, they have to fit the serialized form. */
  ghost predicate EventKnown(cfg: Config, known: iset<Wire>, e: Event) {
    match e
    case SubmitBlock(b, _) => b.wire in known
    case SubmitTransaction(_) => true
    case Adopt(answer, _) => AllSelfHashed(cfg.crypto, known, answer)
    case Reload => forall w :: w in known ==> Codec.WireFits(w)
  }

  ghost predicate Run(cfg: Config, known: iset<Wire>, states: seq<Node>, events: seq<Event>) {
    && BlocksCollisionFree(cfg.crypto, known) && Genesis(cfg.crypto).wire in known
    && 1 <= cfg.orphanCapacity && 1 <= cfg.mempoolCapacity
    && |states| == |events| + 1
    && (exists withDisk :: states[0] == Initial(cfg, withDisk))
    && (forall i :: 0 <= i < |events| ==>
          EventKnown(cfg, known, events[i]) && Next(cfg, states[i], events[i], states[i + 1]))
  }

  // ---- The invariant ----

  // A restart that is not refused gives the same chain, with the ledger of its replay.
  lemma ReloadIs(cfg: Config, known: iset<Wire>, s: Node, s': Node)
    requires NodeOk(cfg, known, s) && EventKnown(cfg, known, Reload) && Next(cfg, s, Reload, s')
    ensures s.blocks != [] && Replay(EMPTY, Transactions(s.blocks)).Some?
    ensures s' == Rebuilt(s, Replay(EMPTY, Transactions(s.blocks)).value) && NodeOk(cfg, known, s')
  {
    hide RulesOk, PoolSound, MempoolOk, BlocksCollisionFree, Linked, WorkExact, Genesis, MirrorOf, LoadFrom, Opened;
    hide Replay, Transactions, Codec.WireFits;
    forall i | 0 <= i < |s.blocks| ensures Codec.WireFits(s.blocks[i].wire) {
      assert SelfHashed(cfg.crypto, known, s.blocks[i]);
    }
    hide NodeOk;
    RestartRebuilds(cfg, known, s);
    RebuiltOk(cfg, known, s, Replay(EMPTY, Transactions(s.blocks)).value);
  }

  lemma NextKeeps(cfg: Config, known: iset<Wire>, s: Node, e: Event, s': Node)
    requires NodeOk(cfg, known, s) && EventKnown(cfg, known, e) && Next(cfg, s, e, s')
    ensures NodeOk(cfg, known, s')
  {
    hide SubmitStep, AdoptStep, Offer, AllSelfHashed, LoadFrom, Opened, Replay, Transactions, Codec.WireFits;
    match e {
      case SubmitBlock(b, now) =>
        var out :| SubmitStep(cfg, s, b, now, out, s');
        SubmitKeeps(cfg, known, s, b, now, out, s');
      case SubmitTransaction(tx) =>
        OfferOk(cfg.crypto, cfg.mempoolCapacity, s.pending, tx);
      case Adopt(answer, now) =>
        if AdoptStep(cfg, s, answer, now).Some? {
          AdoptKeeps(cfg, known, s, answer, now);
        }
      case Reload =>
        ReloadIs(cfg, known, s, s');
    }
    hide NodeOk;
  }

  /** In every state of every run: the chain grows from genesis link by link, every
      block declares exactly the required difficulty, is later than the median of the
      chain actually below it and holds only authentic transactions; cumulative work is
      exact; pool and mempool are consistent; and the disk holds exactly the chain. */
  lemma {:induction false} RunInvariant(cfg: Config, known: iset<Wire>, states: seq<Node>, events: seq<Event>, i: nat)
    requires Run(cfg, known, states, events) && i < |states|
    ensures NodeOk(cfg, known, states[i])
    decreases i
  {
    hide NodeOk, Next, EventKnown, BlocksCollisionFree, Initial, Genesis;
    if i == 0 {
      var withDisk :| states[0] == Initial(cfg, withDisk);
      InitialOk(cfg, known, withDisk);
    } else {
      RunInvariant(cfg, known, states, events, i - 1);
      NextKeeps(cfg, known, states[i - 1], events[i - 1], states[i]);
    }
  }

  // Whatever happens, the first block is the one every node starts from.
  lemma RunGenesis(cfg: Config, known: iset<Wire>, states: seq<Node>, events: seq<Event>, i: nat)
    requires Run(cfg, known, states, events) && i < |states|
    ensures states[i].blocks != []
    ensures var b := states[i].blocks[0];
      && b.wire == Wire(1, ZERO_HASH, cfg.crypto.emptyMerkleRoot, 0, 0, 0, [])
      && b.hash == cfg.crypto.blockHash(b.wire) && b.cumulativeWork == 0
  {
    hide Run, NodeOk;
    RunInvariant(cfg, known, states, events, i);
    HasGenesis(cfg, known, states[i]);
  }

  // ---- Work only ever grows ----

  // `s` to `s'` leaves the tip alone, or moves it to a strictly heavier one.
  ghost predicate Progress(s: Node, s': Node) {
    || (s'.version == s.version && s'.blocks == s.blocks)
    || (s'.version == s.version + 1 && TipWork(s'.blocks) > TipWork(s.blocks))
  }

  lemma SwitchWork(cfg: Config, known: iset<Wire>, s: Node, fork: ForkChain)
    requires NodeOk(cfg, known, s) && TryReorg(cfg, s, fork).Some?
    requires exists h :: 0 <= h < |s.blocks| && s.blocks[h] == fork.ancestor
    ensures TipWork(TryReorg(cfg, s, fork).value.blocks) == Weight(fork)
    ensures Progress(s, TryReorg(cfg, s, fork).value)
  {
    hide PoolSound, RulesOk, MempoolOk, BlocksCollisionFree, Reorganised, Reoffer, ProperChain, DistinctHashes;
    var j :| 0 <= j < |s.blocks| && s.blocks[j] == fork.ancestor;
    ProperChainDistinct(cfg.crypto, known, s.blocks);
    SameHeight(s.blocks, HeightOf(s.blocks, fork.ancestor.hash).value, j);
    AppendAllWork(s.blocks[..j + 1], fork.blocks);
  }

  lemma SameHeight(blocks: seq<Block>, i: nat, j: nat)
    requires DistinctHashes(blocks) && i < |blocks| && j < |blocks| && blocks[i].hash == blocks[j].hash
    ensures i == j
  {}

  lemma CandidateAncestor(p: Params, blocks: seq<Block>, pool: Pool, tip: Block, now: u64)
    requires PoolOk(pool) && Candidate(p, blocks, pool.entries, tip, now).Some?
    ensures exists h :: 0 <= h < |blocks| && blocks[h] == Candidate(p, blocks, pool.entries, tip, now).value.ancestor
  {
    TraceForkShape(blocks, pool, tip, MAX_FORK_DEPTH);
  }

  // Tip work stays below 2^64, as a sum of the work of all blocks.
  predicate WorkFits(blocks: seq<Block>) {
    TotalWork(blocks) < LIMIT64
  }

  lemma TipIsSum(cfg: Config, known: iset<Wire>, s: Node)
    requires NodeOk(cfg, known, s) && WorkFits(s.blocks)
    ensures TipWork(s.blocks) == TotalWork(s.blocks)
  {
    hide PoolSound, RulesOk, MempoolOk, BlocksCollisionFree, AllSelfHashed, BlockWork, Linked;
    assert s.blocks[..|s.blocks|] == s.blocks;
    WorkIsSum(s.blocks, |s.blocks| - 1);
  }

  lemma ExtendProgress(cfg: Config, known: iset<Wire>, s: Node, b: Block, now: u64, out: Outcome, s': Node)
    requires NodeOk(cfg, known, s) && NodeOk(cfg, known, s') && ExtendStep(cfg, s, b, now, out, s')
    requires WorkFits(s.blocks) && WorkFits(s'.blocks)
    ensures Progress(s, s')
  {
    hide NodeOk, TimestampOk, NextDifficulty, ApplyBlock, RemoveAll, Save;
    if out.status == Accepted {
      TipIsSum(cfg, known, s);
      TipIsSum(cfg, known, s');
      HasGenesis(cfg, known, s);
      assert s'.blocks[..|s.blocks|] == s.blocks;
    }
  }

  /** Fork choice. Among the branches that end in `tips`, a cut of the tree of waiting
      blocks below `b`, each cut back to its valid prefix, the heaviest is tried. The chain
      switches exactly when that branch is strictly heavier than the tip and its signatures
      hold, and then no branch among them is heavier than the new tip. */
  lemma ForkChoice(cfg: Config, known: iset<Wire>, s: Node, b: Block, now: u64, out: Outcome, s': Node)
    returns (tips: seq<Block>, best: Option<ForkChain>)
    requires NodeOk(cfg, known, s) && SelfHashed(cfg.crypto, known, b) && ForkStep(cfg, s, b, now, out, s')
    requires TraceFork(s.blocks, WithOrphan(s.pool, cfg.orphanCapacity, b).entries, b, MAX_FORK_DEPTH).Some?
    ensures var entries := WithOrphan(s.pool, cfg.orphanCapacity, b).entries;
      && ForkTips(entries, b, tips)
      && IsBest(cfg.params, s.blocks, entries, tips, now, best)
      && (out.status == Reorged ==> forall t :: t in tips ==>
            var f := Candidate(cfg.params, s.blocks, entries, t, now);
            f.Some? ==> Weight(f.value) <= TipWork(s'.blocks))
    ensures out.status == Reorged <==> best.Some? && Prevails(cfg.crypto, s.blocks, best.value)
    ensures out.status == Reorged ==> TipWork(s'.blocks) == Weight(best.value) && Progress(s, s')
    ensures out.status != Reorged ==>
              out == REJECTED && s'.blocks == s.blocks && s'.accounts == s.accounts && s'.version == s.version
  {
    hide NodeOk, WithOrphan, TraceFork, ForkTips, Candidate, Switched, SelfHashed, BlockHashes, HeightOf, Prevails;
    hide Weight;
    HeldKeeps(cfg, known, s, b);
    var held := s.(pool := WithOrphan(s.pool, cfg.orphanCapacity, b));
    var entries := held.pool.entries;
    tips, best :| ForkTips(entries, b, tips) && IsBest(cfg.params, s.blocks, entries, tips, now, best)
                  && ChooseStep(cfg, held, best, out, s');
    if best.Some? {
      var t :| t in tips && Candidate(cfg.params, s.blocks, entries, t, now) == best;
      PoolIsOk(cfg, known, held);
      CandidateAncestor(cfg.params, s.blocks, held.pool, t, now);
      if TryReorg(cfg, held, best.value).Some? {
        SwitchWork(cfg, known, held, best.value);
      }
    }
  }

  lemma ForkProgress(cfg: Config, known: iset<Wire>, s: Node, b: Block, now: u64, out: Outcome, s': Node)
    requires NodeOk(cfg, known, s) && SelfHashed(cfg.crypto, known, b) && ForkStep(cfg, s, b, now, out, s')
    ensures Progress(s, s')
  {
    hide NodeOk, WithOrphan, TraceFork, ForkTips, IsBest, ChooseStep, SelfHashed, Prevails, Weight;
    if TraceFork(s.blocks, WithOrphan(s.pool, cfg.orphanCapacity, b).entries, b, MAX_FORK_DEPTH).Some? {
      var _, _ := ForkChoice(cfg, known, s, b, now, out, s');
    }
  }

  lemma PoolIsOk(cfg: Config, known: iset<Wire>, s: Node)
    requires NodeOk(cfg, known, s)
    ensures PoolOk(s.pool)
  {}

  lemma {:induction false} BlockHashesAre(blocks: seq<Block>)
    ensures |BlockHashes(blocks)| == |blocks|
    ensures forall i :: 0 <= i < |blocks| ==> BlockHashes(blocks)[i] == blocks[i].hash
  {
    if blocks != [] {
      BlockHashesAre(blocks[..|blocks| - 1]);
    }
  }

  /** After a reorganisation through the orphan pool the node announces exactly the blocks of
      the new chain above the ancestor, in order, and forgets them as orphans; every other
      orphan stays. */
  lemma ReorgAnnounces(cfg: Config, known: iset<Wire>, s: Node, b: Block, now: u64, out: Outcome, s': Node)
    returns (h: nat)
    requires NodeOk(cfg, known, s) && SelfHashed(cfg.crypto, known, b) && ForkStep(cfg, s, b, now, out, s')
    requires out.status == Reorged
    ensures h < |s.blocks| && h + 1 < |s'.blocks| && s'.blocks[..h + 1] == s.blocks[..h + 1]
    ensures |out.toBroadcast| == |s'.blocks| - h - 1 && out.missingParent == None
    ensures forall i :: 0 <= i < |out.toBroadcast| ==> out.toBroadcast[i] == s'.blocks[h + 1 + i].hash
    ensures var entries := WithOrphan(s.pool, cfg.orphanCapacity, b).entries;
      && (forall x :: x in s'.pool.entries <==> x in entries && x !in out.toBroadcast)
      && (forall x :: x in s'.pool.entries ==> s'.pool.entries[x] == entries[x])
  {
    hide NodeOk, WithOrphan, ForkStep, SelfHashed, BlockHashes, TryReorg, WithoutOrphans, PoolOk;
    HeldKeeps(cfg, known, s, b);
    var held := s.(pool := WithOrphan(s.pool, cfg.orphanCapacity, b));
    PoolIsOk(cfg, known, held);
    var fork := BranchTaken(cfg, s, b, now, out, s');
    h := ChainAfterSwitch(cfg, held, fork);
    BlockHashesAre(fork.blocks);
    WithoutOrphansOk(held.pool, BlockHashes(fork.blocks));
  }

  lemma ChainAfterSwitch(cfg: Config, s: Node, fork: ForkChain) returns (h: nat)
    requires TryReorg(cfg, s, fork).Some?
    ensures var after := TryReorg(cfg, s, fork).value.blocks;
      && h < |s.blocks| && |after| == h + 1 + |fork.blocks| && after[..h + 1] == s.blocks[..h + 1]
      && forall i :: 0 <= i < |fork.blocks| ==> after[h + 1 + i].hash == fork.blocks[i].hash
  {
    hide Prevails, AppendAll, Reorganised, Reoffer, ReplaceFrom, HeightOf, Transactions;
    h := HeightOf(s.blocks, fork.ancestor.hash).value;
    AppendAllShape(s.blocks[..h + 1], fork.blocks);
  }

  lemma BranchTaken(cfg: Config, s: Node, b: Block, now: u64, out: Outcome, s': Node) returns (fork: ForkChain)
    requires ForkStep(cfg, s, b, now, out, s') && out.status == Reorged
    ensures var held := s.(pool := WithOrphan(s.pool, cfg.orphanCapacity, b));
      && fork.blocks != [] && TryReorg(cfg, held, fork).Some?
      && out == Outcome(Reorged, BlockHashes(fork.blocks), None)
      && s' == TryReorg(cfg, held, fork).value.(pool := WithoutOrphans(held.pool, BlockHashes(fork.blocks)))
  {
    hide WithOrphan, TraceFork, ForkTips, BlockHashes, TryReorg, ValidPrefix, WithoutOrphans;
    var held := s.(pool := WithOrphan(s.pool, cfg.orphanCapacity, b));
    var entries := held.pool.entries;
    var tips, best :| ForkTips(entries, b, tips) && IsBest(cfg.params, s.blocks, entries, tips, now, best)
                      && ChooseStep(cfg, held, best, out, s');
    fork := best.value;
  }

  /** The parent is asked for exactly when no branch of at most 100 blocks leads from the
      block through the pool to the chain; the block is then kept, and nothing else changes. */
  lemma ParentAskedFor(cfg: Config, known: iset<Wire>, s: Node, b: Block, now: u64, out: Outcome, s': Node)
    requires NodeOk(cfg, known, s) && SelfHashed(cfg.crypto, known, b) && ForkStep(cfg, s, b, now, out, s')
    ensures var pool := WithOrphan(s.pool, cfg.orphanCapacity, b);
      && (out.status == NeedParent <==> !exists f :: Traces(s.blocks, pool.entries, b, 100, f))
      && (out.status == NeedParent ==> out == Outcome(NeedParent, [], Some(b.wire.prevHash)) && s' == s.(pool := pool))
  {
    hide NodeOk, WithOrphan, TraceFork, ForkTips, IsBest, TryReorg, SelfHashed, BlockHashes, WithoutOrphans, Traces;
    HeldKeeps(cfg, known, s, b);
    var held := s.(pool := WithOrphan(s.pool, cfg.orphanCapacity, b));
    PoolIsOk(cfg, known, held);
    ValidIsDistinct(cfg, known, s);
    if TraceFork(s.blocks, held.pool.entries, b, MAX_FORK_DEPTH).Some? {
      TraceForkShape(s.blocks, held.pool, b, MAX_FORK_DEPTH);
    } else {
      forall f | Traces(s.blocks, held.pool.entries, b, MAX_FORK_DEPTH, f) ensures false {
        TraceForkFinds(s.blocks, held.pool.entries, b, MAX_FORK_DEPTH, f);
      }
    }
  }

  lemma AdoptProgress(cfg: Config, known: iset<Wire>, s: Node, answer: seq<Block>, now: u64)
    requires NodeOk(cfg, known, s) && AdoptStep(cfg, s, answer, now).Some?
    ensures Progress(s, AdoptStep(cfg, s, answer, now).value)
  {
    hide NodeOk, TryReorg, ValidPrefix, Progress;
    var fork := AdoptCandidate(cfg.params, s.blocks, answer, now).value;
    SwitchWork(cfg, known, s, fork);
  }

  // Every step of a running node leaves the tip alone or moves it to a strictly heavier one.
  lemma NextProgress(cfg: Config, known: iset<Wire>, s: Node, e: Event, s': Node)
    requires NodeOk(cfg, known, s) && EventKnown(cfg, known, e) && Next(cfg, s, e, s') && !e.Reload?
    requires WorkFits(s.blocks) && WorkFits(s'.blocks)
    ensures Progress(s, s')
  {
    hide NodeOk, ExtendStep, ForkStep, AdoptStep, Offer, AllSelfHashed, ContextFree, WorkFits;
    match e {
      case SubmitBlock(b, now) =>
        var out :| SubmitStep(cfg, s, b, now, out, s');
        NextKeeps(cfg, known, s, e, s');
        if ContextFree(b) && Classify(cfg.crypto, s.blocks, b) == Valid {
          ExtendProgress(cfg, known, s, b, now, out, s');
        } else if ContextFree(b) && Classify(cfg.crypto, s.blocks, b) == ForkCandidate {
          ForkProgress(cfg, known, s, b, now, out, s');
        }
      case SubmitTransaction(tx) =>
      case Adopt(answer, now) =>
        if AdoptStep(cfg, s, answer, now).Some? {
          AdoptProgress(cfg, known, s, answer, now);
        }
    }
  }

  /** While a node is running tip work and tip version never fall, and the version tells
      everything: while it stands still the chain stands still, and once it has moved
      the tip is strictly heavier. A restart counts the version anew. */
  lemma {:induction false} RunProgress(cfg: Config, known: iset<Wire>, states: seq<Node>, events: seq<Event>,
                                       i: nat, j: nat)
    requires Run(cfg, known, states, events) && i <= j < |states|
    requires forall k :: 0 <= k < |states| ==> WorkFits(states[k].blocks)
    requires forall k :: i <= k < j ==> !events[k].Reload?
    ensures states[i].version == states[j].version ==> states[i].blocks == states[j].blocks
    ensures states[i].version != states[j].version ==>
              states[i].version < states[j].version && TipWork(states[i].blocks) < TipWork(states[j].blocks)
    decreases j - i
  {
    hide Next, EventKnown, BlocksCollisionFree, Initial, Genesis, WorkFits, NodeOk, TipWork;
    if i < j {
      RunProgress(cfg, known, states, events, i, j - 1);
      RunInvariant(cfg, known, states, events, j - 1);
      NextProgress(cfg, known, states[j - 1], events[j - 1], states[j]);
    }
  }

  /** Along every run, restarts included, the chain stays the same or its tip becomes
      strictly heavier. */
  lemma {:induction false} RunWork(cfg: Config, known: iset<Wire>, states: seq<Node>, events: seq<Event>,
                                   i: nat, j: nat)
    requires Run(cfg, known, states, events) && i <= j < |states|
    requires forall k :: 0 <= k < |states| ==> WorkFits(states[k].blocks)
    ensures states[i].blocks == states[j].blocks || TipWork(states[i].blocks) < TipWork(states[j].blocks)
    decreases j - i
  {
    hide Next, EventKnown, BlocksCollisionFree, Initial, Genesis, WorkFits, NodeOk, TipWork, Replay, Transactions;
    if i < j {
      RunWork(cfg, known, states, events, i, j - 1);
      RunInvariant(cfg, known, states, events, j - 1);
      var e := events[j - 1];
      assert EventKnown(cfg, known, e) && Next(cfg, states[j - 1], e, states[j - 1 + 1]);
      if e.Reload? {
        ReloadIs(cfg, known, states[j - 1], states[j]);
      } else {
        NextProgress(cfg, known, states[j - 1], e, states[j]);
      }
    }
  }

  // A tip once left is never returned to.
  lemma NeverReturns(cfg: Config, known: iset<Wire>, states: seq<Node>, events: seq<Event>, i: nat, k: nat, j: nat)
    requires Run(cfg, known, states, events) && i <= k <= j < |states|
    requires forall l :: 0 <= l < |states| ==> WorkFits(states[l].blocks)
    requires states[k].blocks != states[i].blocks
    ensures |states[i].blocks| > 0 && |states[j].blocks| > 0
    ensures states[i].blocks[|states[i].blocks| - 1].hash != states[j].blocks[|states[j].blocks| - 1].hash
  {
    hide Run, NodeOk, WorkFits, TipWork;
    RunWork(cfg, known, states, events, i, k);
    RunWork(cfg, known, states, events, k, j);
    RunInvariant(cfg, known, states, events, i);
    RunInvariant(cfg, known, states, events, j);
    HasGenesis(cfg, known, states[i]);
    HasGenesis(cfg, known, states[j]);
    TipDetermines(cfg, known, states[i], states[j]);
  }

  // Two nodes with the same tip hash have the same chain.
  lemma TipDetermines(cfg: Config, known: iset<Wire>, s: Node, t: Node)
    requires NodeOk(cfg, known, s) && NodeOk(cfg, known, t)
    requires s.blocks != [] && t.blocks != []
    ensures s.blocks[|s.blocks| - 1].hash == t.blocks[|t.blocks| - 1].hash ==> s.blocks == t.blocks
  {
    hide RulesOk, PoolSound, MempoolOk, BlocksCollisionFree, ProperChain, MirrorOf;
    var m, n := |s.blocks|, |t.blocks|;
    assert s.blocks[..m] == s.blocks && t.blocks[..n] == t.blocks;
    if s.blocks[m - 1].hash == t.blocks[n - 1].hash {
      CommonPrefix(cfg.crypto, known, s.blocks, t.blocks, m - 1, n - 1);
    }
  }

  // ---- Proof of work and coinbase, by entry path ----

  // What `submit_block` asks of a block alone, whatever the chain.
  datatype Check = TargetMet | CoinbaseWithinRule | CoinbaseInFront

  ghost predicate Passes(check: Check, b: Block) {
    match check
    case TargetMet => MeetsTarget(b.hash, b.wire.difficulty)
    case CoinbaseWithinRule => CoinbaseAmountOk(b.wire.transactions)
    case CoinbaseInFront => CoinbaseFirst(b.wire.transactions)
  }

  // A check looks at the hash and the wire fields alone.
  lemma PassesAgree(check: Check, b: Block, c: Block)
    requires b.wire == c.wire && b.hash == c.hash
    ensures Passes(check, b) <==> Passes(check, c)
  {}

  // Any block that gets beyond the first lines of `submit_block` passes all of them.
  lemma SubmittedPasses(check: Check, cfg: Config, s: Node, b: Block)
    requires s.blocks != [] && ContextFree(b) && Classify(cfg.crypto, s.blocks, b) != Invalid
    ensures Passes(check, b)
  {}

  ghost predicate AllPass(check: Check, blocks: seq<Block>) {
    forall i :: 0 <= i < |blocks| ==> Passes(check, blocks[i])
  }

  ghost predicate ChainChecked(check: Check, blocks: seq<Block>) {
    forall i :: 1 <= i < |blocks| ==> Passes(check, blocks[i])
  }

  // Every block above genesis, and every orphan, passes the check.
  ghost predicate Checked(check: Check, s: Node) {
    && ChainChecked(check, s.blocks)
    && (forall h :: h in s.pool.entries ==> Passes(check, s.pool.entries[h]))
  }

  lemma AppendAllChecked(check: Check, blocks: seq<Block>, h: nat, more: seq<Block>)
    requires h < |blocks| && ChainChecked(check, blocks)
    ensures ChainChecked(check, AppendAll(blocks[..h + 1], more)) <==> AllPass(check, more)
  {
    hide Passes, AppendAll;
    AppendAllShape(blocks[..h + 1], more);
    var after := AppendAll(blocks[..h + 1], more);
    forall i | 0 <= i < |more| ensures Passes(check, after[h + 1 + i]) <==> Passes(check, more[i]) {
      PassesAgree(check, after[h + 1 + i], more[i]);
    }
    forall i | 1 <= i <= h ensures Passes(check, after[i]) {
      assert after[i] == after[..h + 1][i] == blocks[i];
    }
    if AllPass(check, more) {
      forall i | h < i < |after| ensures Passes(check, after[i]) {
        assert Passes(check, after[h + 1 + (i - h - 1)]) <==> Passes(check, more[i - h - 1]);
      }
    }
  }

  // After a switch the chain is checked exactly when the branch was.
  lemma SwitchChecked(check: Check, cfg: Config, s: Node, fork: ForkChain)
    requires Checked(check, s) && TryReorg(cfg, s, fork).Some?
    ensures Checked(check, TryReorg(cfg, s, fork).value) <==> AllPass(check, fork.blocks)
  {
    hide Prevails, Reorganised, Reoffer, ReplaceFrom, AllPass, AppendAll, HeightOf, ChainChecked, Passes;
    AppendAllChecked(check, s.blocks, HeightOf(s.blocks, fork.ancestor.hash).value, fork.blocks);
  }

  lemma ForkChecked(check: Check, cfg: Config, known: iset<Wire>, s: Node, b: Block, now: u64, out: Outcome, s': Node)
    requires NodeOk(cfg, known, s) && Checked(check, s) && Passes(check, b)
    requires SelfHashed(cfg.crypto, known, b) && ForkStep(cfg, s, b, now, out, s')
    ensures Checked(check, s')
  {
    hide NodeOk, WithOrphan, TraceFork, TryReorg, SelfHashed, BlockHashes, Passes, Candidate;
    HeldKeeps(cfg, known, s, b);
    HeldChecked(check, cfg, known, s, b);
    var held := s.(pool := WithOrphan(s.pool, cfg.orphanCapacity, b));
    var entries := held.pool.entries;
    PoolIsOk(cfg, known, held);
    if TraceFork(s.blocks, entries, b, MAX_FORK_DEPTH).Some? {
      var tips, best :| ForkTips(entries, b, tips) && IsBest(cfg.params, s.blocks, entries, tips, now, best)
                        && ChooseStep(cfg, held, best, out, s');
      if best.Some? && TryReorg(cfg, held, best.value).Some? {
        var t :| t in tips && Candidate(cfg.params, s.blocks, entries, t, now) == best;
        TipIsHeld(entries, b, tips, t);
        CandidateHeld(cfg.params, s.blocks, held.pool, t, now);
        SwitchChecked(check, cfg, held, best.value);
        SwitchPool(cfg, held, best.value);
        WithoutOrphansOk(held.pool, BlockHashes(best.value.blocks));
      }
    }
  }

  lemma HeldChecked(check: Check, cfg: Config, known: iset<Wire>, s: Node, b: Block)
    requires NodeOk(cfg, known, s) && Checked(check, s) && Passes(check, b)
    ensures Checked(check, s.(pool := WithOrphan(s.pool, cfg.orphanCapacity, b)))
  {
    hide Passes, WithOrphan, ProperChain, RulesOk, MempoolOk;
    WithOrphanOk(s.pool, cfg.orphanCapacity, b);
  }

  lemma TipIsHeld(entries: map<Hash, Block>, b: Block, tips: seq<Block>, t: Block)
    requires Held(entries, b) && ForkTips(entries, b, tips) && t in tips
    ensures Held(entries, t)
  {
    hide Antichain, Tree, Leaf;
    assert t in Elements(tips);
    ReachedIsHeld(entries, b, t);
  }

  lemma CandidateHeld(p: Params, blocks: seq<Block>, pool: Pool, tip: Block, now: u64)
    requires PoolOk(pool) && Held(pool.entries, tip) && Candidate(p, blocks, pool.entries, tip, now).Some?
    ensures var f := Candidate(p, blocks, pool.entries, tip, now).value;
      forall i :: 0 <= i < |f.blocks| ==> Held(pool.entries, f.blocks[i])
  {
    TraceForkShape(blocks, pool, tip, MAX_FORK_DEPTH);
  }

  // An answer to a catch-up is not checked by the node. What counts is the part it adopts.
  ghost predicate EventChecked(check: Check, cfg: Config, s: Node, e: Event) {
    e.Adopt? && AdoptStep(cfg, s, e.answer, e.now).Some? ==>
      AllPass(check, AdoptCandidate(cfg.params, s.blocks, e.answer, e.now).value.blocks)
  }

  // An adopted branch leaves a checked chain if and only if each of its blocks passes the check.
  lemma AdoptChecked(check: Check, cfg: Config, s: Node, answer: seq<Block>, now: u64)
    requires Checked(check, s) && AdoptStep(cfg, s, answer, now).Some?
    ensures Checked(check, AdoptStep(cfg, s, answer, now).value) <==>
            AllPass(check, AdoptCandidate(cfg.params, s.blocks, answer, now).value.blocks)
  {
    hide AdoptCandidate, TryReorg, Checked, AllPass;
    SwitchChecked(check, cfg, s, AdoptCandidate(cfg.params, s.blocks, answer, now).value);
  }

  lemma NextChecked(check: Check, cfg: Config, known: iset<Wire>, s: Node, e: Event, s': Node)
    requires NodeOk(cfg, known, s) && Checked(check, s) && EventKnown(cfg, known, e) && Next(cfg, s, e, s')
    ensures Checked(check, s') <==> EventChecked(check, cfg, s, e)
  {
    hide NodeOk, ForkStep, AdoptStep, AdoptCandidate, Offer, AllSelfHashed, ContextFree, BlockWork, AllPass, Passes;
    hide LoadFrom, Opened, Replay, Transactions, Codec.WireFits;
    match e {
      case SubmitBlock(b, now) =>
        var out :| SubmitStep(cfg, s, b, now, out, s');
        if ContextFree(b) && Classify(cfg.crypto, s.blocks, b) != Invalid {
          SubmittedPasses(check, cfg, s, b);
          if Classify(cfg.crypto, s.blocks, b) == ForkCandidate {
            ForkChecked(check, cfg, known, s, b, now, out, s');
          } else {
            PassesAgree(check, b, Append(s.blocks, b)[|s.blocks|]);
          }
        }
      case SubmitTransaction(tx) =>
      case Adopt(answer, now) =>
        if AdoptStep(cfg, s, answer, now).Some? {
          AdoptChecked(check, cfg, s, answer, now);
        }
      case Reload =>
        ReloadIs(cfg, known, s, s');
    }
  }

  /** For each of the checks: up to any state of a run every block above genesis and every
      orphan passes it, if and only if the blocks adopted in catch-ups do; so always in a
      run without catch-ups. */
  lemma {:induction false} RunChecked(check: Check, cfg: Config, known: iset<Wire>, states: seq<Node>,
                                      events: seq<Event>, n: nat)
    requires Run(cfg, known, states, events) && n < |states|
    ensures (forall i :: 0 <= i <= n ==> Checked(check, states[i])) <==>
            (forall k :: 0 <= k < n ==> EventChecked(check, cfg, states[k], events[k]))
    decreases n
  {
    hide NodeOk, Next, EventKnown, BlocksCollisionFree, EventChecked;
    if n > 0 {
      RunChecked(check, cfg, known, states, events, n - 1);
      RunInvariant(cfg, known, states, events, n - 1);
      hide Checked;
      if Checked(check, states[n - 1]) {
        NextChecked(check, cfg, known, states[n - 1], events[n - 1], states[n]);
      }
    }
  }

  // ---- Acceptance ----

  /** A submitted block is accepted exactly when it passes every check on itself, carries
      its own hash, names the tip as its parent, is later than the median and within the
      drift of the clock, declares the required difficulty, and its transactions are
      authentic and apply in order; and then it is on top of the chain. Any other block on
      top of the tip leaves chain, pool, mempool and disk alone. */
  lemma AcceptedExactly(cfg: Config, s: Node, b: Block, now: u64, out: Outcome, s': Node)
    requires s.blocks != [] && SubmitStep(cfg, s, b, now, out, s')
    ensures var tip, txs, p := s.blocks[|s.blocks| - 1], b.wire.transactions, cfg.params;
      && (out.status == Accepted <==>
            && (forall check: Check :: Passes(check, b))
            && b.hash == cfg.crypto.blockHash(b.wire) && b.wire.prevHash == tip.hash
            && MedianTimePast(|s.blocks|, p.mtpWindow, s.blocks) < b.wire.timestamp <= now + p.maxFutureDrift
            && b.wire.difficulty == NextDifficulty(|s.blocks|, p, s.blocks)
            && AllAuthentic(cfg.crypto, txs) && Replay(s.accounts, txs).Some?)
      && (out.status == Accepted ==>
            && out == Outcome(Accepted, [b.hash], None) && s'.version == s.version + 1
            && s'.blocks == Append(s.blocks, b) && Replay(s.accounts, txs) == Some(s'.accounts) && s'.pool == s.pool)
      && (out.status != Accepted && b.wire.prevHash == tip.hash ==>
            out == REJECTED && s' == s.(accounts := s'.accounts))
  {
    BlockAtomicity(cfg.crypto, s.accounts, b.wire.transactions);
    hide MedianTimePast, NextDifficulty, AllAuthentic, Replay, ApplyBlock, Append, RemoveAll, Save, FirstRefused;
    hide CreditsFit, AllReverse, ReverseAll, Covers, MeetsTarget, CoinbaseAmountOk;
    hide TraceFork, ForkTips, IsBest, TryReorg, WithOrphan, WithoutOrphans, BlockHashes;
    AllChecks(b);
  }

  lemma AllChecks(b: Block)
    ensures (forall check: Check :: Passes(check, b)) <==> ContextFree(b) && CoinbaseFirst(b.wire.transactions)
  {
    if forall check: Check :: Passes(check, b) {
      assert Passes(TargetMet, b) && Passes(CoinbaseWithinRule, b) && Passes(CoinbaseInFront, b);
    }
  }

  // ---- The clock ----

  // Not further ahead of the clock than the drift allows.
  predicate Timely(cfg: Config, b: Block, now: nat) {
    b.wire.timestamp <= now + cfg.params.maxFutureDrift
  }

  // Every block of `after` that is not in `before` is timely.
  ghost predicate NewTimely(cfg: Config, before: seq<Block>, after: seq<Block>, now: nat) {
    forall b :: b in after && b !in before ==> Timely(cfg, b, now)
  }

  lemma SwitchTimely(cfg: Config, known: iset<Wire>, s: Node, fork: ForkChain, now: u64)
    requires SoundBranch(cfg, known, s, fork, now) && TryReorg(cfg, s, fork).Some?
    ensures NewTimely(cfg, s.blocks, TryReorg(cfg, s, fork).value.blocks, now)
  {
    hide Prevails, Reorganised, Reoffer, ReplaceFrom, AppendAll, HeightOf, NextDifficulty, MedianTimePast;
    hide AllSelfHashed, BranchFrom;
    var h := HeightOf(s.blocks, fork.ancestor.hash).value;
    var after, view := AppendAll(s.blocks[..h + 1], fork.blocks), ForkView(s.blocks, h, fork.blocks);
    AppendAllShape(s.blocks[..h + 1], fork.blocks);
    forall i | 0 <= i < |after| ensures after[i] in s.blocks || Timely(cfg, after[i], now) {
      if i <= h {
        assert after[i] == after[..h + 1][i] == s.blocks[i];
      } else {
        assert ContextOk(cfg.params, view, i, now);
        assert after[h + 1 + (i - h - 1)].wire == fork.blocks[i - h - 1].wire == view[i].wire;
      }
    }
  }

  lemma ForkTimely(cfg: Config, known: iset<Wire>, s: Node, b: Block, now: u64, out: Outcome, s': Node)
    requires NodeOk(cfg, known, s) && SelfHashed(cfg.crypto, known, b) && ForkStep(cfg, s, b, now, out, s')
    ensures NewTimely(cfg, s.blocks, s'.blocks, now)
  {
    hide NodeOk, WithOrphan, TraceFork, TryReorg, SelfHashed, BlockHashes, Candidate, Timely, WithoutOrphans;
    HeldKeeps(cfg, known, s, b);
    var held := s.(pool := WithOrphan(s.pool, cfg.orphanCapacity, b));
    var entries := held.pool.entries;
    if TraceFork(s.blocks, entries, b, MAX_FORK_DEPTH).Some? {
      var tips, best :| ForkTips(entries, b, tips) && IsBest(cfg.params, s.blocks, entries, tips, now, best)
                        && ChooseStep(cfg, held, best, out, s');
      if best.Some? && TryReorg(cfg, held, best.value).Some? {
        BestSound(cfg, known, held, b, tips, best, now);
        SwitchTimely(cfg, known, held, best.value, now);
      }
    }
  }

  /** However a block gets onto the chain, the clock of that step is at most the drift behind
      its timestamp; steps without a clock add no block. */
  lemma NextTimely(cfg: Config, known: iset<Wire>, s: Node, e: Event, s': Node)
    requires NodeOk(cfg, known, s) && EventKnown(cfg, known, e) && Next(cfg, s, e, s')
    ensures if e.SubmitBlock? || e.Adopt? then NewTimely(cfg, s.blocks, s'.blocks, e.now) else s'.blocks == s.blocks
  {
    hide NodeOk, ForkStep, AdoptCandidate, TryReorg, Offer, AllSelfHashed, ContextFree, SoundBranch;
    hide LoadFrom, Opened, Replay, Transactions, Codec.WireFits, MedianTimePast, NextDifficulty, ApplyBlock;
    match e {
      case SubmitBlock(b, now) =>
        var out :| SubmitStep(cfg, s, b, now, out, s');
        if ContextFree(b) && Classify(cfg.crypto, s.blocks, b) == ForkCandidate {
          ForkTimely(cfg, known, s, b, now, out, s');
        }
      case SubmitTransaction(tx) =>
      case Adopt(answer, now) =>
        if AdoptStep(cfg, s, answer, now).Some? {
          AdoptSound(cfg, known, s, answer, now);
          SwitchTimely(cfg, known, s, AdoptCandidate(cfg.params, s.blocks, answer, now).value, now);
        }
      case Reload =>
        ReloadIs(cfg, known, s, s');
    }
  }

  // The latest clock reading among the first `n` events.
  function LatestClock(events: seq<Event>, n: nat): nat
    requires n <= |events|
  {
    if n == 0 then 0
    else
      var e, before := events[n - 1], LatestClock(events, n - 1);
      if (e.SubmitBlock? || e.Adopt?) && e.now > before then e.now else before
  }

  // In every state of a run, no block above genesis is further ahead than the drift of the latest clock so far.
  lemma {:induction false} RunTimely(cfg: Config, known: iset<Wire>, states: seq<Node>, events: seq<Event>, n: nat)
    requires Run(cfg, known, states, events) && n < |states|
    ensures forall i :: 1 <= i < |states[n].blocks| ==> Timely(cfg, states[n].blocks[i], LatestClock(events, n))
    decreases n
  {
    hide NodeOk, Next, EventKnown, BlocksCollisionFree, Timely;
    if n > 0 {
      var s, e, s' := states[n - 1], events[n - 1], states[n];
      assert EventKnown(cfg, known, e) && Next(cfg, s, e, states[n - 1 + 1]);
      RunTimely(cfg, known, states, events, n - 1);
      RunInvariant(cfg, known, states, events, n - 1);
      RunInvariant(cfg, known, states, events, n);
      NextTimely(cfg, known, s, e, s');
      forall i | 1 <= i < |s'.blocks| ensures Timely(cfg, s'.blocks[i], LatestClock(events, n)) {
        StaysAbove(cfg, known, s, s', i);
        TimelyLater(cfg, s'.blocks[i], LatestClock(events, n - 1), LatestClock(events, n));
        if e.SubmitBlock? || e.Adopt? {
          TimelyLater(cfg, s'.blocks[i], e.now, LatestClock(events, n));
        }
      }
    }
  }

  lemma TimelyLater(cfg: Config, b: Block, now: nat, later: nat)
    requires now <= later
    ensures Timely(cfg, b, now) ==> Timely(cfg, b, later)
  {}

  lemma OneGenesis(blocks: seq<Block>, i: nat)
    requires DistinctHashes(blocks) && 1 <= i < |blocks|
    ensures blocks[i] != blocks[0]
  {}

  // A block above genesis that was on the chain before was above genesis there too.
  lemma StaysAbove(cfg: Config, known: iset<Wire>, s: Node, s': Node, i: nat)
    requires NodeOk(cfg, known, s) && NodeOk(cfg, known, s') && 1 <= i < |s'.blocks|
    ensures s'.blocks[i] in s.blocks ==> exists j :: 1 <= j < |s.blocks| && s.blocks[j] == s'.blocks[i]
  {
    hide RulesOk, PoolSound, MempoolOk, MirrorOf, BlocksCollisionFree, AllSelfHashed, Linked, WorkExact, DistinctHashes;
    ProperChainDistinct(cfg.crypto, known, s'.blocks);
    OneGenesis(s'.blocks, i);
    if s'.blocks[i] in s.blocks {
      var j :| 0 <= j < |s.blocks| && s.blocks[j] == s'.blocks[i];
      assert j != 0;
    }
  }

  // ---- While the tip version stands still ----

  // If the block submitted is refused, no credit wrapped among its transactions applied till then.
  predicate CreditsOk(cfg: Config, s: Node, e: Event) {
    e.SubmitBlock? ==>
      var txs := e.block.wire.transactions;
      CreditsFit(s.accounts, txs[..FirstRefused(cfg.crypto, s.accounts, txs)])
  }

  lemma QuietStep(cfg: Config, s: Node, e: Event, s': Node)
    requires Next(cfg, s, e, s') && s'.version == s.version && CreditsOk(cfg, s, e) && !e.Reload?
    ensures Covers(s'.accounts, s.accounts)
  {
    hide TimestampOk, NextDifficulty, ApplyBlock, CreditsFit, FirstRefused, ContextFree, TraceFork, ForkTips;
    hide IsBest, WithOrphan;
    hide Same, Reorganised, Reoffer, Prevails, HeightOf, AdoptCandidate, RemoveAll, AllReverse, ReverseAll, Replay;
    SelfCovers(s.accounts);
    if e.SubmitBlock? {
      BlockAtomicity(cfg.crypto, s.accounts, e.block.wire.transactions);
    }
  }

  // While a node is running, two states with the same tip version have chains and ledgers that say the same.
  lemma {:induction false} QuietRun(cfg: Config, known: iset<Wire>, states: seq<Node>, events: seq<Event>,
                                    i: nat, j: nat)
    requires Run(cfg, known, states, events) && i <= j < |states|
    requires forall k :: 0 <= k < |states| ==> WorkFits(states[k].blocks)
    requires states[i].version == states[j].version
    requires forall k :: i <= k < j ==> CreditsOk(cfg, states[k], events[k]) && !events[k].Reload?
    ensures states[j].blocks == states[i].blocks && Covers(states[j].accounts, states[i].accounts)
    decreases j - i
  {
    hide Next, EventKnown, BlocksCollisionFree, Initial, Genesis, WorkFits, NodeOk, TipWork, CreditsOk, Covers;
    RunProgress(cfg, known, states, events, i, j);
    if i == j {
      SelfCovers(states[i].accounts);
    } else {
      RunProgress(cfg, known, states, events, i, j - 1);
      RunProgress(cfg, known, states, events, j - 1, j);
      QuietRun(cfg, known, states, events, i, j - 1);
      QuietStep(cfg, states[j - 1], events[j - 1], states[j]);
      CoversTransitive(states[j].accounts, states[j - 1].accounts, states[i].accounts);
    }
  }
}
