/**
 What every step of the node keeps: a proper chain that obeys the consensus
 rules at every height, a consistent pool and mempool, and a disk that mirrors
 the chain.
 */
module NodeInvariant {
  import opened Types
  import opened Accounting
  import opened LedgerReorg
  import opened Consensus
  import opened Chain
  import opened Orphans
  import opened Forks
  import opened Pending
  import opened Disk
  import opened NodeModel

  // Every block above genesis obeys the rules against the chain actually below it.
  ghost predicate RulesOk(cfg: Config, blocks: seq<Block>) {
    && TimestampsOk(cfg.params, blocks) && DifficultiesOk(cfg.params, blocks)
    && AllAuthentic(cfg.crypto, Transactions(blocks))
  }

  ghost predicate PoolSound(cfg: Config, known: iset<Wire>, pool: Pool) {
    && PoolOk(pool) && 1 <= cfg.orphanCapacity && |pool.entries| <= cfg.orphanCapacity
    && (forall h :: h in pool.entries ==> SelfHashed(cfg.crypto, known, pool.entries[h]))
  }

  ghost predicate NodeOk(cfg: Config, known: iset<Wire>, s: Node) {
    && BlocksCollisionFree(cfg.crypto, known)
    && ProperChain(cfg.crypto, known, s.blocks)
    && RulesOk(cfg, s.blocks)
    && PoolSound(cfg, known, s.pool)
    && 1 <= cfg.mempoolCapacity && MempoolOk(cfg.crypto, cfg.mempoolCapacity, s.pending)
    && (s.disk.Some? ==> s.disk.value == MirrorOf(s.blocks))
  }

  // ---- Transactions of lists of blocks ----

  lemma {:induction false} TransactionsConcat(s: seq<Block>, t: seq<Block>)
    ensures Transactions(s + t) == Transactions(s) + Transactions(t)
    decreases |t|
  {
    if t == [] {
      assert s + t == s;
    } else {
      assert (s + t)[..|s + t| - 1] == s + t[..|t| - 1];
      TransactionsConcat(s, t[..|t| - 1]);
    }
  }

  lemma {:induction false} TransactionsOfWires(s: seq<Block>, t: seq<Block>)
    requires |s| == |t| && forall i :: 0 <= i < |s| ==> s[i].wire == t[i].wire
    ensures Transactions(s) == Transactions(t)
    decreases |s|
  {
    if s != [] {
      TransactionsOfWires(s[..|s| - 1], t[..|t| - 1]);
    }
  }

  // ---- The fork's own view is the chain after the switch ----

  /** What `fork_block_at` shows while a branch is judged is, block for block, the chain
      the node has after switching to it. */
  lemma ForkViewAgrees(blocks: seq<Block>, h: nat, branch: seq<Block>)
    requires h < |blocks|
    ensures var view, after := ForkView(blocks, h, branch), AppendAll(blocks[..h + 1], branch);
      |view| == |after| && SameBelow(view, after, |view|)
  {
    AppendAllShape(blocks[..h + 1], branch);
    var view, after := ForkView(blocks, h, branch), AppendAll(blocks[..h + 1], branch);
    forall i | 0 <= i < |view| ensures view[i].wire == after[i].wire {
      if i <= h {
        assert after[i] == after[..h + 1][i] == blocks[..h + 1][i];
      } else {
        assert after[h + 1 + (i - h - 1)].wire == branch[i - h - 1].wire;
      }
    }
  }

  // The contextual rules depend on the wire fields up to the height alone.
  lemma ContextTransfers(p: Params, view: seq<Block>, other: seq<Block>, height: nat, now: u64)
    requires SameBelow(view, other, height + 1)
    ensures ContextOk(p, view, height, now) == ContextOk(p, other, height, now)
  {
    hide NextDifficulty, MedianTimePast;
    assert SameBelow(view, other, height);
    RulesReadBelow(p, view, other, height);
  }

  lemma RulesAtHeight(p: Params, chain: seq<Block>, other: seq<Block>, height: nat)
    requires SameBelow(chain, other, height + 1)
    requires chain[height].wire.timestamp > MedianTimePast(height, p.mtpWindow, chain)
    requires chain[height].wire.difficulty == NextDifficulty(height, p, chain)
    ensures other[height].wire.timestamp > MedianTimePast(height, p.mtpWindow, other)
    ensures other[height].wire.difficulty == NextDifficulty(height, p, other)
  {
    hide NextDifficulty, MedianTimePast;
    assert SameBelow(chain, other, height);
    RulesReadBelow(p, chain, other, height);
  }

  // A branch, rooted at height `h`, all of whose blocks pass in their own history.
  ghost predicate BranchPasses(p: Params, blocks: seq<Block>, h: nat, branch: seq<Block>, now: u64)
    requires h < |blocks|
  {
    forall i :: h < i < h + 1 + |branch| ==> ContextOk(p, ForkView(blocks, h, branch), i, now)
  }

  // The consensus rules after a switch, at every height.
  lemma RulesAfterSwitch(cfg: Config, blocks: seq<Block>, h: nat, branch: seq<Block>, now: u64)
    requires RulesOk(cfg, blocks) && h < |blocks|
    requires BranchPasses(cfg.params, blocks, h, branch, now)
    requires AllAuthentic(cfg.crypto, Transactions(branch))
    ensures RulesOk(cfg, AppendAll(blocks[..h + 1], branch))
  {
    hide NextDifficulty, MedianTimePast, Transactions, Authentic, AppendAll;
    var p := cfg.params;
    var view, after := ForkView(blocks, h, branch), AppendAll(blocks[..h + 1], branch);
    AppendAllShape(blocks[..h + 1], branch);
    ForkViewAgrees(blocks, h, branch);
    forall i | 1 <= i < |after|
      ensures after[i].wire.timestamp > MedianTimePast(i, p.mtpWindow, after)
      ensures after[i].wire.difficulty == NextDifficulty(i, p, after)
    {
      if i <= h {
        assert SameBelow(blocks, after, i + 1) by {
          assert forall j :: 0 <= j <= h ==> after[j] == after[..h + 1][j] && after[j] == blocks[j];
        }
        RulesAtHeight(p, blocks, after, i);
      } else {
        assert ContextOk(p, view, i, now);
        assert SameBelow(view, after, i + 1);
        RulesAtHeight(p, view, after, i);
      }
    }
    AuthenticAfterSwitch(cfg.crypto, blocks, h, branch);
  }

  lemma AuthenticAfterSwitch(c: Crypto, blocks: seq<Block>, h: nat, branch: seq<Block>)
    requires h < |blocks|
    requires AllAuthentic(c, Transactions(blocks)) && AllAuthentic(c, Transactions(branch))
    ensures AllAuthentic(c, Transactions(AppendAll(blocks[..h + 1], branch)))
  {
    hide Transactions, Authentic;
    var keep, after := blocks[..h + 1], AppendAll(blocks[..h + 1], branch);
    ForkViewAgrees(blocks, h, branch);
    TransactionsOfWires(after, keep + branch);
    TransactionsConcat(keep, branch);
    assert blocks == keep + blocks[h + 1..];
    TransactionsConcat(keep, blocks[h + 1..]);
  }

  // ---- Mempool and disk ----

  lemma {:induction false} ReofferOk(c: Crypto, capacity: nat, pending: seq<Transaction>, txs: seq<Transaction>)
    requires MempoolOk(c, capacity, pending)
    ensures MempoolOk(c, capacity, Reoffer(c, capacity, pending, txs))
    decreases |txs|
  {
    hide MempoolOk, Offer;
    if txs != [] {
      OfferOk(c, capacity, pending, txs[|txs| - 1]);
      ReofferOk(c, capacity, Offer(c, capacity, pending, txs[|txs| - 1]), txs[..|txs| - 1]);
    }
  }

  lemma DiskAfterSwitch(blocks: seq<Block>, h: nat, branch: seq<Block>)
    requires h < |blocks|
    requires DistinctHashes(AppendAll(blocks[..h + 1], branch))
    ensures var after := AppendAll(blocks[..h + 1], branch);
      |after| >= h + 1 && ReplaceFrom(MirrorOf(blocks), h + 1, after[h + 1..]) == MirrorOf(after)
  {
    hide MirrorOf, ReplaceFrom;
    AppendAllShape(blocks[..h + 1], branch);
    var after := AppendAll(blocks[..h + 1], branch);
    assert after == blocks[..h + 1] + after[h + 1..];
    ReplaceMirrors(blocks, h + 1, after[h + 1..]);
  }

  // ---- One switch ----

  // What `try_reorg` is given on every path.
  ghost predicate SoundBranch(cfg: Config, known: iset<Wire>, s: Node, fork: ForkChain, now: u64) {
    && AllSelfHashed(cfg.crypto, known, fork.blocks)
    && BranchFrom(fork.ancestor.hash, fork.blocks)
    && match HeightOf(s.blocks, fork.ancestor.hash)
       case None => true
       case Some(h) => BranchPasses(cfg.params, s.blocks, h, fork.blocks, now)
  }

  lemma SwitchKeeps(cfg: Config, known: iset<Wire>, s: Node, fork: ForkChain, now: u64)
    requires NodeOk(cfg, known, s) && SoundBranch(cfg, known, s, fork, now)
    requires TryReorg(cfg, s, fork).Some?
    ensures NodeOk(cfg, known, TryReorg(cfg, s, fork).value)
  {
    hide RulesOk, PoolSound, MempoolOk, BlocksCollisionFree, ProperChain, AllSelfHashed, BranchFrom;
    hide DistinctHashes, MirrorOf, ReplaceFrom, Reoffer, Reorganised, BranchPasses, Weight;
    var h := HeightOf(s.blocks, fork.ancestor.hash).value;
    var c := cfg.crypto;
    var keep, after := s.blocks[..h + 1], AppendAll(s.blocks[..h + 1], fork.blocks);
    assert keep[|keep| - 1].hash == fork.ancestor.hash;
    PrefixProper(c, known, s.blocks, h + 1);
    AppendAllProper(c, known, keep, fork.blocks);
    ProperChainDistinct(c, known, after);
    RulesAfterSwitch(cfg, s.blocks, h, fork.blocks, now);
    DiskAfterSwitch(s.blocks, h, fork.blocks);
    ReofferOk(c, cfg.mempoolCapacity, s.pending,
              Without(c, Transactions(s.blocks[h + 1..]), Hashes(c, Transactions(fork.blocks))));
  }

  // ---- Cutting a branch at its first invalid block ----

  lemma CutPasses(p: Params, blocks: seq<Block>, fork: ForkChain, now: u64)
    requires HeightOf(blocks, fork.ancestor.hash).Some?
    ensures BranchPasses(p, blocks, HeightOf(blocks, fork.ancestor.hash).value,
                         Cut(fork, ValidPrefix(p, blocks, fork, now)).blocks, now)
  {
    hide ContextOk, HeightOf;
    var h := HeightOf(blocks, fork.ancestor.hash).value;
    var n := ValidPrefix(p, blocks, fork, now);
    var full, view := ForkView(blocks, h, fork.blocks), ForkView(blocks, h, fork.blocks[..n]);
    forall i | h < i < h + 1 + n ensures ContextOk(p, view, i, now) {
      PassingFromOk(p, full, h + 1, now, i);
      assert SameBelow(full, view, i + 1);
      ContextTransfers(p, full, view, i, now);
    }
  }

  lemma CutSound(c: Crypto, known: iset<Wire>, fork: ForkChain, n: nat)
    requires n <= |fork.blocks|
    requires AllSelfHashed(c, known, fork.blocks) && BranchFrom(fork.ancestor.hash, fork.blocks)
    ensures AllSelfHashed(c, known, Cut(fork, n).blocks) && BranchFrom(fork.ancestor.hash, Cut(fork, n).blocks)
  {
    hide SelfHashed;
  }

  // Every candidate of the fork choice is a sound branch.
  lemma CandidateSound(cfg: Config, known: iset<Wire>, s: Node, tip: Block, now: u64)
    requires NodeOk(cfg, known, s) && Held(s.pool.entries, tip)
    requires Candidate(cfg.params, s.blocks, s.pool.entries, tip, now).Some?
    ensures SoundBranch(cfg, known, s, Candidate(cfg.params, s.blocks, s.pool.entries, tip, now).value, now)
  {
    hide ProperChain, RulesOk, MempoolOk, SelfHashed, BranchPasses, PassingFrom;
    var f := TraceFork(s.blocks, s.pool.entries, tip, MAX_FORK_DEPTH).value;
    TraceForkShape(s.blocks, s.pool, tip, MAX_FORK_DEPTH);
    forall i | 0 <= i < |f.blocks| ensures SelfHashed(cfg.crypto, known, f.blocks[i]) {
      assert Held(s.pool.entries, f.blocks[i]);
    }
    var n := ValidPrefix(cfg.params, s.blocks, f, now);
    CutSound(cfg.crypto, known, f, n);
    if HeightOf(s.blocks, f.ancestor.hash).Some? {
      CutPasses(cfg.params, s.blocks, f, now);
    }
  }

  // ---- One step ----

  lemma HasGenesis(cfg: Config, known: iset<Wire>, s: Node)
    requires NodeOk(cfg, known, s)
    ensures s.blocks != [] && s.blocks[0] == Genesis(cfg.crypto)
  {}

  lemma ExtendKeeps(cfg: Config, known: iset<Wire>, s: Node, b: Block, now: u64, out: Outcome, s': Node)
    requires NodeOk(cfg, known, s) && SelfHashed(cfg.crypto, known, b)
    requires b.wire.prevHash == s.blocks[|s.blocks| - 1].hash
    requires ExtendStep(cfg, s, b, now, out, s')
    ensures NodeOk(cfg, known, s')
  {
    hide MedianTimePast, NextDifficulty, MempoolOk, PoolSound, BlocksCollisionFree, MirrorOf, Save;
    hide ApplyBlock, RemoveAll, SelfHashed, ProperChain, RulesOk, Append, DistinctHashes;
    if out.status == Accepted {
      HasGenesis(cfg, known, s);
      var c := cfg.crypto;
      AppendProper(c, known, s.blocks, b);
      ProperChainDistinct(c, known, Append(s.blocks, b));
      RemoveAllOk(c, cfg.mempoolCapacity, s.pending, b.wire.transactions);
      BlockAtomicity(c, s.accounts, b.wire.transactions);
      RulesAfterAppend(cfg, s.blocks, b, now);
      DiskAfterAppend(s.blocks, b);
    }
  }

  lemma RulesAfterAppend(cfg: Config, blocks: seq<Block>, b: Block, now: u64)
    requires RulesOk(cfg, blocks) && blocks != []
    requires TimestampOk(b, |blocks|, now, cfg.params, blocks)
    requires b.wire.difficulty == NextDifficulty(|blocks|, cfg.params, blocks)
    requires AllAuthentic(cfg.crypto, b.wire.transactions)
    ensures RulesOk(cfg, Append(blocks, b))
  {
    hide NextDifficulty, MedianTimePast, Authentic, BlockWork;
    var p, after := cfg.params, Append(blocks, b);
    assert after[..|blocks|] == blocks && after[|blocks|].wire == b.wire;
    forall i | 1 <= i < |after|
      ensures after[i].wire.timestamp > MedianTimePast(i, p.mtpWindow, after)
      ensures after[i].wire.difficulty == NextDifficulty(i, p, after)
    {
      if i < |blocks| {
        assert SameBelow(blocks, after, i + 1);
        RulesAtHeight(p, blocks, after, i);
      } else {
        assert SameBelow(blocks, after, i);
        RulesReadBelow(p, blocks, after, i);
      }
    }
    assert Transactions(after) == Transactions(blocks) + b.wire.transactions;
  }

  lemma DiskAfterAppend(blocks: seq<Block>, b: Block)
    requires DistinctHashes(Append(blocks, b))
    ensures Save(MirrorOf(blocks), b, |blocks|) == MirrorOf(Append(blocks, b))
  {
    var after := Append(blocks, b);
    var last := after[|blocks|];
    assert after == blocks + [last];
    assert RowOf(last) == RowOf(b);
    SaveMirrors(blocks, last);
  }

  lemma HeldKeeps(cfg: Config, known: iset<Wire>, s: Node, b: Block)
    requires NodeOk(cfg, known, s) && SelfHashed(cfg.crypto, known, b)
    ensures NodeOk(cfg, known, s.(pool := WithOrphan(s.pool, cfg.orphanCapacity, b)))
    ensures Held(WithOrphan(s.pool, cfg.orphanCapacity, b).entries, b)
  {
    hide ProperChain, RulesOk, MempoolOk, BlocksCollisionFree, MirrorOf, SelfHashed, PoolOk, WithOrphan;
    WithOrphanOk(s.pool, cfg.orphanCapacity, b);
  }

  lemma ForkKeeps(cfg: Config, known: iset<Wire>, s: Node, b: Block, now: u64, out: Outcome, s': Node)
    requires NodeOk(cfg, known, s) && SelfHashed(cfg.crypto, known, b)
    requires ForkStep(cfg, s, b, now, out, s')
    ensures NodeOk(cfg, known, s')
  {
    hide NodeOk, WithOrphan, TraceFork, IsBest, ForkTips, Candidate, TryReorg, SelfHashed, BlockHashes;
    HeldKeeps(cfg, known, s, b);
    var held := s.(pool := WithOrphan(s.pool, cfg.orphanCapacity, b));
    var entries := held.pool.entries;
    if TraceFork(s.blocks, entries, b, MAX_FORK_DEPTH).Some? {
      var tips, best :| ForkTips(entries, b, tips) && IsBest(cfg.params, s.blocks, entries, tips, now, best)
                        && ChooseStep(cfg, held, best, out, s');
      if best.Some? && TryReorg(cfg, held, best.value).Some? {
        BestSound(cfg, known, held, b, tips, best, now);
        SwitchKeeps(cfg, known, held, best.value, now);
        var r := TryReorg(cfg, held, best.value).value;
        SwitchPool(cfg, held, best.value);
        CleanKeeps(cfg, known, r, BlockHashes(best.value.blocks));
      }
    }
  }

  lemma SwitchPool(cfg: Config, s: Node, fork: ForkChain)
    requires TryReorg(cfg, s, fork).Some?
    ensures TryReorg(cfg, s, fork).value.pool == s.pool
  {}

  lemma BestSound(cfg: Config, known: iset<Wire>, s: Node, b: Block, tips: seq<Block>, best: Option<ForkChain>,
                  now: u64)
    requires NodeOk(cfg, known, s) && Held(s.pool.entries, b)
    requires ForkTips(s.pool.entries, b, tips)
    requires IsBest(cfg.params, s.blocks, s.pool.entries, tips, now, best) && best.Some?
    ensures SoundBranch(cfg, known, s, best.value, now)
  {
    hide NodeOk, Candidate, Antichain, Tree, Leaf, Reaches, SoundBranch;
    var t :| t in tips && Candidate(cfg.params, s.blocks, s.pool.entries, t, now) == best;
    assert t in Elements(tips);
    ReachedIsHeld(s.pool.entries, b, t);
    CandidateSound(cfg, known, s, t, now);
  }

  lemma CleanKeeps(cfg: Config, known: iset<Wire>, s: Node, hashes: seq<Hash>)
    requires NodeOk(cfg, known, s)
    ensures NodeOk(cfg, known, s.(pool := WithoutOrphans(s.pool, hashes)))
  {
    hide ProperChain, RulesOk, MempoolOk, BlocksCollisionFree, MirrorOf, SelfHashed, PoolOk, WithoutOrphans;
    WithoutOrphansOk(s.pool, hashes);
  }

  // `submit_block` keeps the invariant, whatever block it is given.
  lemma SubmitKeeps(cfg: Config, known: iset<Wire>, s: Node, b: Block, now: u64, out: Outcome, s': Node)
    requires NodeOk(cfg, known, s) && b.wire in known
    requires SubmitStep(cfg, s, b, now, out, s')
    ensures NodeOk(cfg, known, s')
  {
    hide NodeOk, ExtendStep, ForkStep, ContextFree;
    HasGenesis(cfg, known, s);
    var verdict := Classify(cfg.crypto, s.blocks, b);
    if ContextFree(b) && verdict == Valid {
      ExtendKeeps(cfg, known, s, b, now, out, s');
    } else if ContextFree(b) && verdict == ForkCandidate {
      ForkKeeps(cfg, known, s, b, now, out, s');
    }
  }

  lemma AdoptSound(cfg: Config, known: iset<Wire>, s: Node, answer: seq<Block>, now: u64)
    requires NodeOk(cfg, known, s) && AllSelfHashed(cfg.crypto, known, answer)
    requires AdoptCandidate(cfg.params, s.blocks, answer, now).Some?
    ensures SoundBranch(cfg, known, s, AdoptCandidate(cfg.params, s.blocks, answer, now).value, now)
  {
    hide NodeOk, SelfHashed, BranchPasses, PassingFrom;
    var start := KnownFront(s.blocks, answer);
    var h := HeightOf(s.blocks, answer[start].wire.prevHash).value;
    var fork := ForkChain(answer[start..], s.blocks[h]);
    CutSound(cfg.crypto, known, fork, ValidPrefix(cfg.params, s.blocks, fork, now));
    if HeightOf(s.blocks, fork.ancestor.hash).Some? {
      CutPasses(cfg.params, s.blocks, fork, now);
    }
  }

  // `adopt_branch` keeps the invariant, given blocks whose hashes are their own.
  lemma AdoptKeeps(cfg: Config, known: iset<Wire>, s: Node, answer: seq<Block>, now: u64)
    requires NodeOk(cfg, known, s) && AllSelfHashed(cfg.crypto, known, answer)
    requires AdoptStep(cfg, s, answer, now).Some?
    ensures NodeOk(cfg, known, AdoptStep(cfg, s, answer, now).value)
  {
    hide NodeOk, AllSelfHashed, TryReorg, AdoptCandidate, SoundBranch;
    AdoptSound(cfg, known, s, answer, now);
    SwitchKeeps(cfg, known, s, AdoptCandidate(cfg.params, s.blocks, answer, now).value, now);
  }

  // The node as constructed: genesis only, on disk too if there is a disk.
  function Initial(cfg: Config, withDisk: bool): Node {
    Node([Genesis(cfg.crypto)], EMPTY, Pool([], map[]), [],
         if withDisk then Some(MirrorOf([Genesis(cfg.crypto)])) else None, 0)
  }

  lemma InitialOk(cfg: Config, known: iset<Wire>, withDisk: bool)
    requires BlocksCollisionFree(cfg.crypto, known) && Genesis(cfg.crypto).wire in known
    requires 1 <= cfg.orphanCapacity && 1 <= cfg.mempoolCapacity
    ensures NodeOk(cfg, known, Initial(cfg, withDisk))
  {
    var blocks := [Genesis(cfg.crypto)];
    assert Transactions(blocks) == [] by {
      assert blocks[..0] == [];
    }
  }
}
