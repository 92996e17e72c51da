/**
 `ChainManager` (src/chain/ChainManager.cpp): the object that owns the chain, the
 ledger, the mempool, the orphan pool and the storage mirror. Each method is
 proved to perform a step of the node model and to keep its invariant. Clock
 readings are passed in as `now`.
 */
module Manager {
  import opened Types
  import opened Accounting
  import opened LedgerReorg
  import opened Consensus
  import opened Chain
  import opened Orphans
  import opened Forks
  import opened Pending
  import opened Disk
  import opened NodeModel
  import opened NodeInvariant

  // ---- Loops of `try_reorg` over the blocks of a branch ----

  lemma HashesSnoc(c: Crypto, txs: seq<Transaction>, tx: Transaction)
    ensures Hashes(c, txs + [tx]) == Hashes(c, txs) + if tx.sender == COINBASE then {} else {TxHash(c, tx)}
  {
    hide TxHash;
    assert forall t :: t in txs + [tx] <==> t in txs || t == tx;
  }

  lemma {:induction false} WithoutSnoc(c: Crypto, txs: seq<Transaction>, tx: Transaction, hashes: set<Hash>)
    ensures Without(c, txs + [tx], hashes)
            == Without(c, txs, hashes) + if TxHash(c, tx) in hashes then [] else [tx]
    decreases |txs|
  {
    hide TxHash;
    if txs == [] {
      assert txs + [tx] == [tx];
    } else {
      assert (txs + [tx])[0] == txs[0] && (txs + [tx])[1..] == txs[1..] + [tx];
      WithoutSnoc(c, txs[1..], tx, hashes);
    }
  }

  // The transactions of `blocks` in order, and the hashes by which they are recognised.
  method CollectTransactions(c: Crypto, blocks: seq<Block>) returns (txs: seq<Transaction>, hashes: set<Hash>)
    ensures txs == Transactions(blocks) && hashes == Hashes(c, txs)
  {
    hide Hashes, TxHash;
    txs, hashes := [], {};
    NoHashes(c);
    for i := 0 to |blocks|
      invariant txs == Transactions(blocks[..i]) && hashes == Hashes(c, txs)
    {
      ghost var before := txs;
      var more := blocks[i].wire.transactions;
      for j := 0 to |more|
        invariant txs == before + more[..j] && hashes == Hashes(c, txs)
      {
        HashesSnoc(c, txs, more[j]);
        if more[j].sender != COINBASE {
          hashes := hashes + {TxHash(c, more[j])};
        }
        txs := txs + [more[j]];
      }
      assert blocks[..i + 1][..i] == blocks[..i];
    }
    assert blocks[..|blocks|] == blocks;
  }

  lemma NoHashes(c: Crypto)
    ensures Hashes(c, []) == {}
  {}

  method CheckSignatures(c: Crypto, txs: seq<Transaction>) returns (ok: bool)
    ensures ok == AllAuthentic(c, txs)
  {
    for i := 0 to |txs|
      invariant forall j :: 0 <= j < i ==> Authentic(c, txs[j])
    {
      if txs[i].sender != COINBASE && !HasValidSignature(c, txs[i]) {
        assert txs[i] in txs && !Authentic(c, txs[i]);
        return false;
      }
    }
    return true;
  }

  method CollectHashes(blocks: seq<Block>) returns (hashes: seq<Hash>)
    ensures hashes == BlockHashes(blocks)
  {
    hashes := [];
    for i := 0 to |blocks|
      invariant hashes == BlockHashes(blocks[..i])
    {
      assert blocks[..i + 1][..i] == blocks[..i];
      hashes := hashes + [blocks[i].hash];
    }
    assert blocks[..|blocks|] == blocks;
  }

  // Reverses `undone`, newest first, leaving out `kept`, and offers what it reversed again.
  method UndoBranch(c: Crypto, ledger: Ledger, mempool: Mempool, undone: seq<Transaction>, kept: set<Hash>)
    requires mempool.Valid(c)
    modifies ledger, mempool
    ensures mempool.Valid(c)
    ensures ledger.View() == ReverseAll(old(ledger.View()), Without(c, undone, kept))
    ensures mempool.pending == Reoffer(c, mempool.capacity, old(mempool.pending), Without(c, undone, kept))
  {
    hide TxHash, CanReverse, Reverse, MempoolOk;
    ghost var a, p, k := ledger.View(), mempool.pending, mempool.capacity;
    var i := |undone|;
    assert undone[..i] == undone;
    while i > 0
      invariant 0 <= i <= |undone| && mempool.Valid(c) && mempool.capacity == k
      invariant ReverseAll(ledger.View(), Without(c, undone[..i], kept)) == ReverseAll(a, Without(c, undone, kept))
      invariant Reoffer(c, k, mempool.pending, Without(c, undone[..i], kept))
                == Reoffer(c, k, p, Without(c, undone, kept))
    {
      i := i - 1;
      var tx := undone[i];
      assert undone[..i + 1] == undone[..i] + [tx];
      WithoutSnoc(c, undone[..i], tx, kept);
      ghost var rest := Without(c, undone[..i], kept);
      assert rest + [] == rest;
      if TxHash(c, tx) !in kept {
        assert (rest + [tx])[..|rest|] == rest && (rest + [tx])[|rest|] == tx;
        var _ := ledger.ReverseTransaction(tx);
        CoinbaseNotOffered(c, k, mempool.pending, tx);
        if tx.sender != COINBASE {
          var _ := mempool.AddTransaction(c, tx);
        }
      }
    }
    assert undone[..0] == [];
  }

  lemma CoinbaseNotOffered(c: Crypto, capacity: nat, pending: seq<Transaction>, tx: Transaction)
    ensures tx.sender == COINBASE ==> Offer(c, capacity, pending, tx) == pending
  {}

  // Applies `done` in order, leaving out `kept`.
  method RedoBranch(c: Crypto, ledger: Ledger, done: seq<Transaction>, kept: set<Hash>)
    modifies ledger
    ensures ledger.View() == ApplyAll(old(ledger.View()), Without(c, done, kept))
  {
    hide TxHash, CanApply, Apply;
    for i := 0 to |done|
      invariant ApplyAll(ledger.View(), Without(c, done[i..], kept))
             == ApplyAll(old(ledger.View()), Without(c, done, kept))
    {
      var tx := done[i];
      assert done[i..][0] == tx && done[i..][1..] == done[i + 1..];
      ghost var rest := Without(c, done[i + 1..], kept);
      if TxHash(c, tx) !in kept {
        assert ([tx] + rest)[1..] == rest;
        var _ := ledger.ApplyTransaction(tx);
      }
    }
    assert done[|done|..] == [];
  }

  class ChainManager {
    const cfg: Config
    const chain: Blockchain
    const ledger: Ledger
    const mempool: Mempool
    const orphans: OrphanPool
    const storage: Storage?
    var tipVersion: nat

    // The blocks on which the hash is assumed free of collisions.
    ghost const known: iset<Wire>

    ghost function View(): Node
      reads this, chain, ledger, mempool, orphans, storage
    {
      Node(chain.blocks, ledger.View(), orphans.View(), mempool.pending,
           if storage == null then None else Some(storage.rows), tipVersion)
    }

    // What every operation keeps, with no condition on the contents.
    ghost predicate Wired()
      reads this, chain, orphans, mempool
    {
      && chain.Valid() && orphans.Valid() && mempool.Valid(cfg.crypto)
      && orphans.capacity == cfg.orphanCapacity && mempool.capacity == cfg.mempoolCapacity
    }

    ghost predicate Valid()
      reads this, chain, ledger, mempool, orphans, storage
    {
      Wired() && NodeOk(cfg, known, View())
    }

    // Genesis is written to an empty table; any other is left for the blocks to be restored from.
    constructor (cfg: Config, storage: Storage?, ghost known: iset<Wire>)
      requires BlocksCollisionFree(cfg.crypto, known) && Genesis(cfg.crypto).wire in known
      requires 1 <= cfg.orphanCapacity && 1 <= cfg.mempoolCapacity
      modifies storage
      ensures this.cfg == cfg && this.known == known && this.storage == storage
      ensures fresh(chain) && fresh(ledger) && fresh(mempool) && fresh(orphans)
      ensures Wired() && View() == Opened(cfg, if storage == null then None else Some(old(storage.rows)))
      ensures (storage == null || old(storage.rows) == map[]) ==> Valid()
    {
      this.cfg, this.storage, this.known, this.tipVersion := cfg, storage, known, 0;
      this.chain := new Blockchain(cfg.crypto);
      this.ledger := new Ledger();
      this.mempool := new Mempool(cfg.crypto, cfg.mempoolCapacity);
      this.orphans := new OrphanPool(cfg.orphanCapacity);
      new;
      hide NodeOk, MirrorOf, Save, PoolOk, MempoolOk, DistinctHashes, BlocksCollisionFree;
      if storage != null {
        storage.SaveFirst(chain.blocks[0]);
      }
      InitialOk(cfg, known, storage != null);
    }

    // `restore_block`: only the ledger is asked.
    method RestoreBlock(b: Block) returns (ok: bool)
      requires Wired()
      modifies this, chain, ledger
      ensures Wired()
      ensures var (applies, accounts) := ApplyBlock(cfg.crypto, old(ledger.View()), b.wire.transactions);
        && ok == applies
        && View() == if ok then old(View()).(blocks := Append(old(chain.blocks), b), accounts := accounts,
                                             version := old(tipVersion) + 1)
                     else old(View()).(accounts := accounts)
    {
      hide ApplyBlock, Append, MempoolOk, PoolOk, DistinctHashes;
      ok := ledger.ApplyTransactions(cfg.crypto, b.wire.transactions);
      if ok {
        chain.AddBlock(b);
        tipVersion := tipVersion + 1;
      }
    }

    method SubmitTransaction(tx: Transaction) returns (added: bool)
      requires Valid()
      modifies mempool
      ensures Valid()
      ensures View() == old(View()).(pending := Offer(cfg.crypto, cfg.mempoolCapacity, old(View()).pending, tx))
      ensures var before := old(mempool.pending);
        added <==> HasValidSignature(cfg.crypto, tx) && !Lists(cfg.crypto, before, TxHash(cfg.crypto, tx))
                   && (|before| < cfg.mempoolCapacity || tx.fee > before[|before| - 1].fee)
    {
      hide RulesOk, PoolSound, BlocksCollisionFree, ProperChain, MempoolOk, Offer, MirrorOf;
      added := mempool.AddTransaction(cfg.crypto, tx);
    }

    // The ledger and mempool part of a switch.
    method MoveLedger(oldBlocks: seq<Block>, newTxs: seq<Transaction>, newHashes: set<Hash>)
      requires mempool.Valid(cfg.crypto) && newHashes == Hashes(cfg.crypto, newTxs)
      modifies ledger, mempool
      ensures mempool.Valid(cfg.crypto)
      ensures var undone := Transactions(oldBlocks);
        && ledger.View() == Reorganised(cfg.crypto, old(ledger.View()), undone, newTxs)
        && mempool.pending == Reoffer(cfg.crypto, mempool.capacity, old(mempool.pending),
                                      Without(cfg.crypto, undone, Hashes(cfg.crypto, newTxs)))
    {
      hide MempoolOk, Hashes, Without, ReverseAll, ApplyAll, Reoffer, Transactions;
      var oldTxs, oldHashes := CollectTransactions(cfg.crypto, oldBlocks);
      UndoBranch(cfg.crypto, ledger, mempool, oldTxs, newHashes);
      RedoBranch(cfg.crypto, ledger, newTxs, oldHashes);
    }

    // The storage part: every block from `forkPoint` on is rewritten.
    method MirrorFrom(forkPoint: nat)
      requires forkPoint <= |chain.blocks|
      modifies storage
      ensures storage != null ==> storage.rows == ReplaceFrom(old(storage.rows), forkPoint, chain.blocks[forkPoint..])
    {
      hide ReplaceFrom;
      if storage != null {
        storage.ReplaceBlocksFrom(forkPoint, chain.blocks[forkPoint..]);
      }
    }

    // The second half of `try_reorg`, once the branch has prevailed.
    method SwitchTo(fork: ForkChain, newTxs: seq<Transaction>, newHashes: set<Hash>, ghost now: u64)
      returns (switched: bool)
      requires Valid() && SoundBranch(cfg, known, View(), fork, now) && Prevails(cfg.crypto, chain.blocks, fork)
      requires newTxs == Transactions(fork.blocks) && newHashes == Hashes(cfg.crypto, newTxs)
      modifies this, chain, ledger, mempool, storage
      ensures Valid()
      ensures match NodeModel.TryReorg(cfg, old(View()), fork)
        case None => !switched && View() == old(View())
        case Some(s) => switched && View() == s
    {
      hide NodeOk, MempoolOk, SoundBranch, DistinctHashes, Prevails, Hashes, Without, Reorganised, Reoffer;
      hide ReplaceFrom, AppendAll, HeightOf, Transactions, PoolOk;
      ghost var start := View();
      ValidIsDistinct(cfg, known, start);
      var discarded := chain.ReorganizeTo(fork);
      if discarded == None {
        return false;
      }
      ghost var h := HeightOf(start.blocks, fork.ancestor.hash).value;
      tipVersion := tipVersion + 1;
      MoveLedger(discarded.value, newTxs, newHashes);
      AppendAllSize(start.blocks, h, fork.blocks);
      MirrorFrom(|chain.blocks| - |fork.blocks|);
      SwitchKeeps(cfg, known, start, fork, now);
      return true;
    }

    /** `try_reorg`. `now` is the time at which the branch was judged. */
    method TryReorg(fork: ForkChain, ghost now: u64) returns (r: Option<seq<Hash>>)
      requires Valid() && SoundBranch(cfg, known, View(), fork, now)
      modifies this, chain, ledger, mempool, storage
      ensures Valid()
      ensures match NodeModel.TryReorg(cfg, old(View()), fork)
        case None => r == None && View() == old(View())
        case Some(s) => r == Some(BlockHashes(fork.blocks)) && View() == s
    {
      hide NodeOk, MempoolOk, SoundBranch, AllAuthentic, Hashes, Transactions, BlockHashes, PoolOk, Switched, HeightOf;
      var work := ForkWork(fork);
      if work <= chain.blocks[|chain.blocks| - 1].cumulativeWork {
        return None;
      }
      var hashes := CollectHashes(fork.blocks);
      var newTxs, newHashes := CollectTransactions(cfg.crypto, fork.blocks);
      var authentic := CheckSignatures(cfg.crypto, newTxs);
      if !authentic {
        return None;
      }
      var switched := SwitchTo(fork, newTxs, newHashes, now);
      if !switched {
        return None;
      }
      return Some(hashes);
    }

    // A block on top of the tip.
    method ExtendTip(b: Block, now: u64) returns (out: Outcome)
      requires Valid() && SelfHashed(cfg.crypto, known, b)
      requires b.wire.prevHash == chain.blocks[|chain.blocks| - 1].hash
      modifies this, chain, ledger, mempool, storage
      ensures Valid() && ExtendStep(cfg, old(View()), b, now, out, View())
    {
      hide NodeOk, MempoolOk, SelfHashed, DistinctHashes, MedianTimePast, NextDifficulty, ApplyBlock, RemoveAll;
      hide Save, PoolOk;
      ghost var start := View();
      var timely := CheckTimestamp(b, |chain.blocks|, now, cfg.params, chain.blocks);
      if !timely {
        return REJECTED;
      }
      if b.wire.difficulty != NextDifficulty(|chain.blocks|, cfg.params, chain.blocks) {
        return REJECTED;
      }
      var ok := ledger.ApplyTransactions(cfg.crypto, b.wire.transactions);
      if !ok {
        ExtendKeeps(cfg, known, start, b, now, REJECTED, View());
        return REJECTED;
      }
      ForgetMined(b.wire.transactions);
      chain.AddBlock(b);
      tipVersion := tipVersion + 1;
      if storage != null {
        storage.SaveBlock(b, |chain.blocks| - 1);
      }
      out := Outcome(Accepted, [b.hash], None);
      ExtendKeeps(cfg, known, start, b, now, out, View());
    }

    method ForgetMined(txs: seq<Transaction>)
      requires mempool.Valid(cfg.crypto)
      modifies mempool
      ensures mempool.Valid(cfg.crypto) && mempool.pending == RemoveAll(cfg.crypto, old(mempool.pending), txs)
    {
      hide MempoolOk, TxHash, Remove;
      for i := 0 to |txs|
        invariant mempool.Valid(cfg.crypto)
        invariant RemoveAll(cfg.crypto, mempool.pending, txs[i..]) == RemoveAll(cfg.crypto, old(mempool.pending), txs)
      {
        assert txs[i..][0] == txs[i] && txs[i..][1..] == txs[i + 1..];
        mempool.RemoveTransaction(cfg.crypto, txs[i]);
      }
      assert txs[|txs|..] == [];
    }

    // The heaviest valid branch among those ending in `tips`.
    method ChooseBest(tips: seq<Block>, now: u64) returns (best: Option<ForkChain>)
      requires Valid()
      ensures IsBest(cfg.params, chain.blocks, orphans.entries, tips, now, best)
    {
      hide NodeOk, MempoolOk, PoolOk, TraceFork, ValidPrefix, Weight, DistinctHashes;
      ValidIsDistinct(cfg, known, View());
      best := None;
      var bestWork: u64 := 0;
      for i := 0 to |tips|
        invariant IsBest(cfg.params, chain.blocks, orphans.entries, tips[..i], now, best)
        invariant best.Some? ==> bestWork == Weight(best.value)
      {
        var candidate := CutBranch(tips[i], now);
        if candidate.Some? {
          var work := ForkWork(candidate.value);
          WeightIs(candidate.value);
          BestStep(cfg.params, chain.blocks, orphans.entries, tips[..i], tips[i], now, best);
          if best == None || work > bestWork {
            best, bestWork := candidate, work;
          }
        } else {
          BestStep(cfg.params, chain.blocks, orphans.entries, tips[..i], tips[i], now, best);
        }
        assert tips[..i + 1] == tips[..i] + [tips[i]];
      }
      assert tips[..|tips|] == tips;
    }

    // The branch ending in `tip`, cut at its first invalid block; none if nothing is left.
    method CutBranch(tip: Block, now: u64) returns (r: Option<ForkChain>)
      requires Valid()
      ensures r == Candidate(cfg.params, chain.blocks, orphans.entries, tip, now)
    {
      hide NodeOk, MempoolOk, PoolOk, TraceFork, ValidPrefix, DistinctHashes;
      ValidIsDistinct(cfg, known, View());
      var traced := BuildForkChain(chain, orphans, tip);
      if traced == None {
        return None;
      }
      var prefix := ValidPrefixLength(cfg.params, chain, traced.value, now);
      if prefix == 0 {
        return None;
      }
      return Some(Cut(traced.value, prefix));
    }

    method ForgetOrphans(hashes: seq<Hash>)
      requires orphans.Valid()
      modifies orphans
      ensures orphans.Valid() && orphans.View() == WithoutOrphans(old(orphans.View()), hashes)
    {
      hide PoolOk, WithoutOrphan;
      for i := 0 to |hashes|
        invariant orphans.Valid()
        invariant WithoutOrphans(orphans.View(), hashes[i..]) == WithoutOrphans(old(orphans.View()), hashes)
      {
        assert hashes[i..][0] == hashes[i] && hashes[i..][1..] == hashes[i + 1..];
        orphans.RemoveOrphan(hashes[i]);
      }
      assert hashes[|hashes|..] == [];
    }

    /** `handle_fork_candidate`: keep the block as an orphan and, if it connects to the
        chain, switch to the heaviest valid branch through it when that branch prevails. */
    method HandleForkCandidate(b: Block, now: u64) returns (out: Outcome)
      requires Valid() && SelfHashed(cfg.crypto, known, b)
      modifies this, chain, ledger, mempool, orphans, storage
      ensures Valid() && ForkStep(cfg, old(View()), b, now, out, View())
    {
      hide NodeOk, MempoolOk, PoolOk, SelfHashed, WithOrphan, TraceFork, ForkTips, IsBest, SoundBranch, DistinctHashes;
      hide NodeModel.TryReorg, BlockHashes, WithoutOrphans;
      ghost var start := View();
      HeldKeeps(cfg, known, start, b);
      orphans.AddOrphan(b);
      ghost var held := View();
      ValidIsDistinct(cfg, known, held);
      var traced := BuildForkChain(chain, orphans, b);
      if traced == None {
        return Outcome(NeedParent, [], Some(b.wire.prevHash));
      }
      var tips := FindForkTips(orphans, b);
      var best := ChooseBest(tips, now);
      ghost var entries := held.pool.entries;
      assert ForkTips(entries, b, tips) && IsBest(cfg.params, start.blocks, entries, tips, now, best);
      if best == None {
        assert ChooseStep(cfg, held, best, REJECTED, View());
        return REJECTED;
      }
      BestSound(cfg, known, held, b, tips, best, now);
      var hashes := TryReorg(best.value, now);
      if hashes == None {
        assert ChooseStep(cfg, held, best, REJECTED, View());
        return REJECTED;
      }
      ghost var switched := View();
      CleanKeeps(cfg, known, switched, hashes.value);
      SwitchPool(cfg, held, best.value);
      ForgetOrphans(hashes.value);
      out := Outcome(Reorged, hashes.value, None);
      assert ChooseStep(cfg, held, best, out, View());
    }

    /** `submit_block` */
    method SubmitBlock(b: Block, now: u64) returns (out: Outcome)
      requires Valid() && b.wire in known
      modifies this, chain, ledger, mempool, orphans, storage
      ensures Valid() && SubmitStep(cfg, old(View()), b, now, out, View())
    {
      hide NodeOk, MempoolOk, PoolOk, ExtendStep, ForkStep, DistinctHashes, CoinbaseAmountOk, MeetsTarget;
      var target := CountMeetsTarget(b.hash, b.wire.difficulty);
      if !target {
        return REJECTED;
      }
      var coinbase := ValidateCoinbaseAmount(b.wire.transactions);
      if !coinbase {
        return REJECTED;
      }
      var verdict := chain.ClassifyNewBlock(cfg.crypto, b);
      match verdict {
        case Valid => out := ExtendTip(b, now);
        case ForkCandidate => out := HandleForkCandidate(b, now);
        case Invalid => out := REJECTED;
      }
    }

    /** `adopt_branch` */
    method AdoptBranch(answer: seq<Block>, now: u64) returns (adopted: bool)
      requires Valid() && AllSelfHashed(cfg.crypto, known, answer)
      modifies this, chain, ledger, mempool, storage
      ensures Valid()
      ensures match AdoptStep(cfg, old(View()), answer, now)
        case None => !adopted && View() == old(View())
        case Some(s) => adopted && View() == s
    {
      hide NodeOk, MempoolOk, PoolOk, DistinctHashes, SoundBranch, NodeModel.TryReorg, ValidPrefix, AllSelfHashed;
      hide HeightOf;
      ghost var start := View();
      ValidIsDistinct(cfg, known, start);
      var first := SkipKnown(answer);
      if first == |answer| {
        return false;
      }
      var height := chain.FindHeight(answer[first].wire.prevHash);
      if height == None {
        return false;
      }
      var linked := CheckLinks(answer[first..]);
      if !linked {
        return false;
      }
      var fork := ForkChain(answer[first..], chain.blocks[height.value]);
      var prefix := ValidPrefixLength(cfg.params, chain, fork, now);
      if prefix == 0 {
        return false;
      }
      AdoptSound(cfg, known, start, answer, now);
      var hashes := TryReorg(Cut(fork, prefix), now);
      return hashes.Some?;
    }

    method SkipKnown(answer: seq<Block>) returns (n: nat)
      requires Valid()
      ensures n == KnownFront(chain.blocks, answer)
    {
      hide NodeOk, MempoolOk, PoolOk, DistinctHashes, HeightOf;
      ValidIsDistinct(cfg, known, View());
      n := 0;
      while n < |answer|
        invariant n <= |answer|
        invariant KnownFront(chain.blocks, answer) == n + KnownFront(chain.blocks, answer[n..])
      {
        assert answer[n..][0] == answer[n] && answer[n..][1..] == answer[n + 1..];
        var here := chain.HasBlock(answer[n].hash);
        if !here {
          return;
        }
        n := n + 1;
      }
    }
  }

  lemma AppendAllSize(blocks: seq<Block>, h: nat, branch: seq<Block>)
    requires h < |blocks|
    ensures |AppendAll(blocks[..h + 1], branch)| == h + 1 + |branch|
  {
    AppendAllShape(blocks[..h + 1], branch);
  }

  method CheckLinks(blocks: seq<Block>) returns (ok: bool)
    ensures ok == Linked(blocks)
  {
    var i := 1;
    while i < |blocks|
      invariant 1 <= i
      invariant forall j :: 1 <= j < i && j < |blocks| ==> blocks[j].wire.prevHash == blocks[j - 1].hash
    {
      if blocks[i].wire.prevHash != blocks[i - 1].hash {
        return false;
      }
      i := i + 1;
    }
    return true;
  }

  lemma WeightIs(fork: ForkChain)
    ensures Weight(fork) == BranchWork(fork.ancestor.cumulativeWork, fork.blocks)
  {}

  // One more end: the better of the best so far and its own candidate.
  lemma BestStep(p: Params, blocks: seq<Block>, entries: map<Hash, Block>, tips: seq<Block>, t: Block, now: u64,
                 best: Option<ForkChain>)
    requires IsBest(p, blocks, entries, tips, now, best)
    ensures var candidate := Candidate(p, blocks, entries, t, now);
      IsBest(p, blocks, entries, tips + [t], now,
             if candidate.Some? && (best.None? || Weight(candidate.value) > Weight(best.value))
             then candidate else best)
  {
    hide Candidate, Weight;
    assert t in tips + [t] && forall x :: x in tips ==> x in tips + [t];
  }

  lemma ValidIsDistinct(cfg: Config, known: iset<Wire>, s: Node)
    requires NodeOk(cfg, known, s)
    ensures DistinctHashes(s.blocks)
  {
    hide RulesOk, PoolSound, MempoolOk, BlocksCollisionFree, ProperChain, DistinctHashes;
    ProperChainDistinct(cfg.crypto, known, s.blocks);
  }

  // A manager just opened on a table: at genesis, whatever the table holds.
  function Opened(cfg: Config, disk: Option<Table>): Node {
    Initial(cfg, false).(disk := if disk == Some(map[]) then Some(MirrorOf([Genesis(cfg.crypto)])) else disk)
  }
}
