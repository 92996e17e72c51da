/**
 What becomes of blocks that wait in the orphan pool for a missing parent. When the
 parent arrives on top of the tip, the pool is not looked at and they go on waiting. When
 it arrives further down, the branch through them is found, and the chain switches to it
 or to a heavier one, provided that the heaviest of all is signed.
 */
module Waiting {
  import opened Types
  import opened Accounting
  import opened Consensus
  import opened Chain
  import opened Orphans
  import opened Forks
  import opened Pending
  import opened Disk
  import opened NodeModel
  import opened NodeInvariant
  import opened Runs

  // ---- Walks down the pool ----

  lemma DescentDistinct(entries: map<Hash, Block>, path: seq<Block>)
    requires Descent(entries, path) && Acyclic(entries)
    ensures NoDuplicates(path)
  {
    var age: Hash -> nat :| Grounded(entries, age);
    forall i, j | 0 <= i < j < |path| ensures path[i] != path[j] {
      var below := path[i..];
      assert forall k :: 0 <= k < |below| ==> below[k] == path[i + k];
      assert Descent(entries, below);
      DescentAges(entries, age, below, j - i);
    }
  }

  // Without cycles no walk is longer than the tree is large.
  lemma DescentWithinTree(entries: map<Hash, Block>, b: Block, path: seq<Block>)
    requires Held(entries, b) && Descent(entries, path) && path[0] == b && Acyclic(entries)
    ensures |path| <= |Tree(entries, b)|
  {
    DescentDistinct(entries, path);
    assert Reaches(entries, b, b) by {
      assert Descent(entries, [b]);
    }
    forall x | x in Elements(path) ensures x in Tree(entries, b) {
      var i :| 0 <= i < |path| && path[i] == x;
      ReachedAlong(entries, b, path, i);
    }
    hide Tree, Descent;
    SubsetCount(Elements(path), Tree(entries, b));
    DistinctCount(path);
  }

  // A walk can be continued down to a leaf.
  lemma {:induction false} ContinueToLeaf(entries: map<Hash, Block>, b: Block, path: seq<Block>)
    returns (full: seq<Block>)
    requires Held(entries, b) && Descent(entries, path) && path[0] == b && Acyclic(entries)
    ensures FullDescent(entries, b, full) && |path| <= |full| && full[..|path|] == path
    decreases |Tree(entries, b)| - |path|
  {
    hide Tree, Acyclic;
    DescentWithinTree(entries, b, path);
    if Leaf(entries, path[|path| - 1]) {
      full := path;
    } else {
      var child :| ChildOf(entries, child, path[|path| - 1].hash);
      var longer := path + [child];
      assert forall i :: 0 <= i < |path| ==> longer[i] == path[i];
      assert Descent(entries, longer);
      DescentWithinTree(entries, b, longer);
      full := ContinueToLeaf(entries, b, longer);
      assert full[..|path|] == full[..|longer|][..|path|] == path;
    }
  }

  // ---- The branch through the waiting blocks ----

  // A waiting block that is on the chain has its parent there too.
  lemma ParentOnChain(cfg: Config, known: iset<Wire>, s: Node, parent: Block, child: Block)
    requires BlocksCollisionFree(cfg.crypto, known) && ProperChain(cfg.crypto, known, s.blocks)
    requires SelfHashed(cfg.crypto, known, child) && SelfHashed(cfg.crypto, known, parent)
    requires child.wire.prevHash == parent.hash && HeightOf(s.blocks, child.hash).Some?
    ensures HeightOf(s.blocks, parent.hash).Some?
  {
    hide HeightOf, WorkExact, Genesis;
    var k := HeightOf(s.blocks, child.hash).value;
    assert SelfHashed(cfg.crypto, known, s.blocks[k]);
    assert s.blocks[k].wire == child.wire;
    GenesisIsFirst(cfg.crypto, known, s.blocks, k);
    assert s.blocks[k - 1].hash == parent.hash;
  }

  lemma {:induction false} BranchOffChain(cfg: Config, known: iset<Wire>, s: Node, path: seq<Block>, i: nat)
    requires NodeOk(cfg, known, s) && Descent(s.pool.entries, path) && i < |path|
    requires SelfHashed(cfg.crypto, known, path[0]) && HeightOf(s.blocks, path[0].hash).None?
    ensures HeightOf(s.blocks, path[i].hash).None? && SelfHashed(cfg.crypto, known, path[i])
    decreases i
  {
    hide HeightOf, SelfHashed, ProperChain, RulesOk, MempoolOk, BlocksCollisionFree, MirrorOf;
    if i > 0 {
      BranchOffChain(cfg, known, s, path, i - 1);
      assert ChildOf(s.pool.entries, path[i], path[i - 1].hash);
      if HeightOf(s.blocks, path[i].hash).Some? {
        ParentOnChain(cfg, known, s, path[i - 1], path[i]);
      }
    }
  }

  // A walk down from a block whose parent is on the chain is the branch that is traced.
  lemma WalkIsTraced(cfg: Config, known: iset<Wire>, s: Node, h: nat, path: seq<Block>)
    requires NodeOk(cfg, known, s) && Descent(s.pool.entries, path) && Held(s.pool.entries, path[0])
    requires h < |s.blocks| && path[0].wire.prevHash == s.blocks[h].hash && HeightOf(s.blocks, path[0].hash).None?
    requires |path| <= MAX_FORK_DEPTH
    ensures TraceFork(s.blocks, s.pool.entries, path[|path| - 1], MAX_FORK_DEPTH) == Some(ForkChain(path, s.blocks[h]))
  {
    hide HeightOf, SelfHashed, ProperChain, RulesOk, MempoolOk, BlocksCollisionFree, MirrorOf, TraceFork;
    hide DistinctHashes;
    forall i | 1 <= i < |path|
      ensures path[i].wire.prevHash == path[i - 1].hash && Held(s.pool.entries, path[i])
      ensures HeightOf(s.blocks, path[i].wire.prevHash).None?
    {
      assert ChildOf(s.pool.entries, path[i], path[i - 1].hash);
      BranchOffChain(cfg, known, s, path, i - 1);
    }
    var f := ForkChain(path, s.blocks[h]);
    assert forall i :: 0 <= i < |path| - 1 ==> Held(s.pool.entries, path[i]);
    assert Traces(s.blocks, s.pool.entries, path[|path| - 1], MAX_FORK_DEPTH, f);
    ProperChainDistinct(cfg.crypto, known, s.blocks);
    TraceForkFinds(s.blocks, s.pool.entries, path[|path| - 1], MAX_FORK_DEPTH, f);
  }

  // What passes on its own passes at the front of a longer branch.
  lemma FrontPasses(p: Params, blocks: seq<Block>, h: nat, path: seq<Block>, full: seq<Block>, now: u64)
    requires h < |blocks| && |path| <= |full| && full[..|path|] == path
    requires PassingFrom(p, ForkView(blocks, h, path), h + 1, now) == |path|
    ensures PassingFrom(p, ForkView(blocks, h, full), h + 1, now) >= |path|
  {
    hide ContextOk, PassingFrom;
    var view, longer := ForkView(blocks, h, path), ForkView(blocks, h, full);
    assert forall i :: 0 <= i < |path| ==> path[i] == full[i];
    forall i | h + 1 <= i < h + 1 + |path| ensures ContextOk(p, longer, i, now) {
      PassingFromOk(p, view, h + 1, now, i);
      assert SameBelow(view, longer, i + 1);
      ContextTransfers(p, view, longer, i, now);
    }
    PassingFromSplit(p, longer, h + 1, now, |path|);
  }

  // ---- Work ----

  // No walk down from `b` comes to 2^64 with the work below it.
  ghost predicate WorkBelowLimit(entries: map<Hash, Block>, b: Block, start: u64) {
    forall path :: Descent(entries, path) && path[0] == b ==> start + SumWork(path) < LIMIT64
  }

  lemma CutWeighs(ancestor: Block, path: seq<Block>, full: seq<Block>, n: nat)
    requires |path| <= n <= |full| && full[..|path|] == path && ancestor.cumulativeWork + SumWork(full) < LIMIT64
    ensures Weight(ForkChain(path, ancestor)) <= Weight(Cut(ForkChain(full, ancestor), n))
  {
    hide SumWork, BranchWork;
    FrontWeighsLess(full, |path|, n);
    BranchWorkIsSum(ancestor.cumulativeWork, path);
    BranchWorkIsSum(ancestor.cumulativeWork, full[..n]);
  }

  // ---- The parent arrives ----

  /** The branch `path` above height `h` of the chain: its first block is on no chain yet, the
      others wait in the pool, and by its timestamps and difficulties all of it is valid. */
  ghost predicate Ready(cfg: Config, s: Node, h: nat, path: seq<Block>, now: u64) {
    && h < |s.blocks| && Descent(s.pool.entries, path) && Held(s.pool.entries, path[0])
    && path[0].wire.prevHash == s.blocks[h].hash && HeightOf(s.blocks, path[0].hash).None?
    && PassingFrom(cfg.params, ForkView(s.blocks, h, path), h + 1, now) == |path|
    && Acyclic(s.pool.entries) && |Tree(s.pool.entries, path[0])| <= MAX_FORK_DEPTH
    && WorkBelowLimit(s.pool.entries, path[0], s.blocks[h].cumulativeWork)
  }

  // Some end below the arrived block has a candidate at least as heavy as the branch.
  lemma BranchIsCandidate(cfg: Config, known: iset<Wire>, s: Node, h: nat, path: seq<Block>, tips: seq<Block>, now: u64)
    returns (t: Block)
    requires NodeOk(cfg, known, s) && Ready(cfg, s, h, path, now) && ForkTips(s.pool.entries, path[0], tips)
    ensures t in tips
    ensures var f := Candidate(cfg.params, s.blocks, s.pool.entries, t, now);
      f.Some? && Weight(f.value) >= Weight(ForkChain(path, s.blocks[h]))
  {
    hide NodeOk, HeightOf, PassingFrom, Acyclic, TraceFork, Weight, ForkTips, ForkView, SumWork, Tree, Candidate, Leaf;
    hide ValidPrefix;
    var full := ContinueToLeaf(s.pool.entries, path[0], path);
    DescentWithinTree(s.pool.entries, path[0], full);
    t := full[|full| - 1];
    WalkIsTraced(cfg, known, s, h, full);
    LeafIsTip(s.pool.entries, path[0], full, tips);
    FrontPasses(cfg.params, s.blocks, h, path, full, now);
    OwnHeight(cfg, known, s, h);
    var f := ForkChain(full, s.blocks[h]);
    PrefixIs(cfg.params, s.blocks, f, h, now);
    TracedCandidate(cfg.params, s.blocks, s.pool.entries, t, f, now);
    CutWeighs(s.blocks[h], path, full, ValidPrefix(cfg.params, s.blocks, f, now));
  }

  lemma LeafIsTip(entries: map<Hash, Block>, b: Block, full: seq<Block>, tips: seq<Block>)
    requires Held(entries, b) && FullDescent(entries, b, full) && ForkTips(entries, b, tips)
    requires Acyclic(entries) && |Tree(entries, b)| <= MAX_FORK_DEPTH
    ensures full[|full| - 1] in tips
  {
    hide CoversTree, Antichain, Acyclic, Leaf, NoDuplicates;
    var t := full[|full| - 1];
    assert Reaches(entries, b, t);
    ReachedIsHeld(entries, b, t);
    assert t in Tree(entries, b);
  }

  lemma PrefixIs(p: Params, blocks: seq<Block>, f: ForkChain, h: nat, now: u64)
    requires h < |blocks| && HeightOf(blocks, f.ancestor.hash) == Some(h)
    ensures ValidPrefix(p, blocks, f, now) == PassingFrom(p, ForkView(blocks, h, f.blocks), h + 1, now)
  {}

  lemma TracedCandidate(p: Params, blocks: seq<Block>, entries: map<Hash, Block>, t: Block, f: ForkChain, now: u64)
    requires TraceFork(blocks, entries, t, MAX_FORK_DEPTH) == Some(f) && ValidPrefix(p, blocks, f, now) > 0
    ensures Candidate(p, blocks, entries, t, now) == Some(Cut(f, ValidPrefix(p, blocks, f, now)))
  {}

  lemma OwnHeight(cfg: Config, known: iset<Wire>, s: Node, h: nat)
    requires NodeOk(cfg, known, s) && h < |s.blocks|
    ensures HeightOf(s.blocks, s.blocks[h].hash) == Some(h)
  {
    hide RulesOk, PoolSound, MempoolOk, BlocksCollisionFree, ProperChain, MirrorOf;
    ProperChainDistinct(cfg.crypto, known, s.blocks);
  }

  // An end of the tree below `b`.
  ghost predicate End(entries: map<Hash, Block>, b: Block, t: Block) {
    t in Tree(entries, b) && Leaf(entries, t)
  }

  /** `f` is a heaviest of the branches that lead from the chain through `b` to an end of the
      tree below it, each cut back to its valid prefix. */
  ghost predicate Heaviest(p: Params, blocks: seq<Block>, entries: map<Hash, Block>, b: Block, now: u64, f: ForkChain) {
    && (exists t :: End(entries, b, t) && Candidate(p, blocks, entries, t, now) == Some(f))
    && (forall t :: End(entries, b, t) && Candidate(p, blocks, entries, t, now).Some? ==>
          Weight(Candidate(p, blocks, entries, t, now).value) <= Weight(f))
  }

  // In a small tree the best of the ends found is a heaviest branch, and any heaviest may be the best.
  lemma BestIsHeaviest(p: Params, blocks: seq<Block>, entries: map<Hash, Block>, b: Block, tips: seq<Block>, now: u64,
                       f: ForkChain)
    requires ForkTips(entries, b, tips) && Acyclic(entries) && |Tree(entries, b)| <= MAX_FORK_DEPTH
    ensures IsBest(p, blocks, entries, tips, now, Some(f)) <==> Heaviest(p, blocks, entries, b, now, f)
  {
    hide CoversTree, Antichain, Acyclic, Leaf, NoDuplicates, Tree, Candidate, Weight;
    assert forall t :: t in tips <==> End(entries, b, t);
    hide End;
  }

  /** The missing parent `b` of a waiting branch is handled as a fork candidate. The branch is
      valid, heavier than the tip, and the tree below the parent has at most 100 blocks. Then
      a heaviest branch through `b` is tried. If it is signed, the chain switches to it; if not, the chain stays
      where it is. So the new tip is at least as heavy as the waiting branch exactly when the
      branch tried is signed, and always if everything that waits is. */
  lemma ForkArrives(cfg: Config, known: iset<Wire>, s: Node, b: Block, h: nat, path: seq<Block>, now: u64,
                      out: Outcome, s': Node) returns (best: ForkChain)
    requires NodeOk(cfg, known, s) && SelfHashed(cfg.crypto, known, b) && ForkStep(cfg, s, b, now, out, s')
    requires path != [] && path[0] == b
    requires Ready(cfg, s.(pool := WithOrphan(s.pool, cfg.orphanCapacity, b)), h, path, now)
    requires Weight(ForkChain(path, s.blocks[h])) > TipWork(s.blocks)
    ensures Heaviest(cfg.params, s.blocks, WithOrphan(s.pool, cfg.orphanCapacity, b).entries, b, now, best)
    ensures Weight(best) >= Weight(ForkChain(path, s.blocks[h]))
    ensures if AllAuthentic(cfg.crypto, Transactions(best.blocks))
            then out.status == Reorged && TipWork(s'.blocks) == Weight(best)
            else out.status == Rejected && s'.blocks == s.blocks && s'.accounts == s.accounts
    ensures TipWork(s'.blocks) >= Weight(ForkChain(path, s.blocks[h])) <==>
            AllAuthentic(cfg.crypto, Transactions(best.blocks))
    ensures var entries := WithOrphan(s.pool, cfg.orphanCapacity, b).entries;
      (forall k :: k in entries ==> AllAuthentic(cfg.crypto, entries[k].wire.transactions)) ==>
        AllAuthentic(cfg.crypto, Transactions(best.blocks))
  {
    var held := s.(pool := WithOrphan(s.pool, cfg.orphanCapacity, b));
    hide NodeOk, WithOrphan, ForkStep, Ready, SelfHashed, Weight, TipWork, AllAuthentic, Transactions, Candidate;
    hide ForkTips, Heaviest, Tree, Acyclic;
    HeldKeeps(cfg, known, s, b);
    FirstIsTraced(cfg, known, held, h, path, now);
    var tips, chosen := ForkChoice(cfg, known, s, b, now, out, s');
    var t := BranchIsCandidate(cfg, known, held, h, path, tips, now);
    best := chosen.value;
    SmallAndAcyclic(cfg, held, h, path, now);
    BestIsHeaviest(cfg.params, s.blocks, held.pool.entries, b, tips, now, best);
    var u :| u in tips && Candidate(cfg.params, s.blocks, held.pool.entries, u, now) == Some(best);
    PoolIsOk(cfg, known, held);
    TipIsHeld(held.pool.entries, b, tips, u);
    CandidateHeld(cfg.params, s.blocks, held.pool, u, now);
    HeldAuthentic(cfg.crypto, held.pool.entries, best.blocks);
  }

  lemma SmallAndAcyclic(cfg: Config, s: Node, h: nat, path: seq<Block>, now: u64)
    requires Ready(cfg, s, h, path, now)
    ensures Acyclic(s.pool.entries) && |Tree(s.pool.entries, path[0])| <= MAX_FORK_DEPTH
  {}

  lemma FirstIsTraced(cfg: Config, known: iset<Wire>, s: Node, h: nat, path: seq<Block>, now: u64)
    requires NodeOk(cfg, known, s) && Ready(cfg, s, h, path, now)
    ensures TraceFork(s.blocks, s.pool.entries, path[0], MAX_FORK_DEPTH).Some?
  {
    hide NodeOk, HeightOf, PassingFrom, Acyclic, Tree, TraceFork;
    assert Descent(s.pool.entries, [path[0]]);
    WalkIsTraced(cfg, known, s, h, [path[0]]);
  }

  lemma {:induction false} HeldAuthentic(c: Crypto, entries: map<Hash, Block>, blocks: seq<Block>)
    requires forall i :: 0 <= i < |blocks| ==> Held(entries, blocks[i])
    ensures (forall k :: k in entries ==> AllAuthentic(c, entries[k].wire.transactions)) ==>
              AllAuthentic(c, Transactions(blocks))
    decreases |blocks|
  {
    if blocks != [] {
      HeldAuthentic(c, entries, blocks[..|blocks| - 1]);
      assert Held(entries, blocks[|blocks| - 1]);
    }
  }

  // ---- Whatever the order of the ends ----

  lemma {:induction false} Listing(blocks: set<Block>) returns (list: seq<Block>)
    ensures NoDuplicates(list) && forall b :: b in list <==> b in blocks
    decreases |blocks|
  {
    list := [];
    if blocks != {} {
      var b :| b in blocks;
      var rest := Listing(blocks - {b});
      list := rest + [b];
    }
  }

  // The ends of a small tree, listed in any order, are what `find_fork_tips` may return.
  lemma EndsAreTips(entries: map<Hash, Block>, b: Block) returns (tips: seq<Block>)
    requires Held(entries, b)
    ensures ForkTips(entries, b, tips)
  {
    hide Acyclic, Leaf, Tree;
    var ends := set t | t in Tree(entries, b) && Leaf(entries, t);
    tips := Listing(ends);
    EndsCover(entries, b, tips);
    EndsUnrelated(entries, tips);
  }

  lemma EndsCover(entries: map<Hash, Block>, b: Block, tips: seq<Block>)
    requires Held(entries, b) && forall t :: t in tips <==> t in Tree(entries, b) && Leaf(entries, t)
    ensures CoversTree(entries, b, Elements(tips))
  {
    hide Leaf;
    forall path: seq<Block> | FullDescent(entries, b, path) ensures Meets(path, Elements(tips)) {
      var t := path[|path| - 1];
      assert Reaches(entries, b, t);
      ReachedIsHeld(entries, b, t);
      assert t in Tree(entries, b) && path[|path| - 1] in Elements(tips);
    }
  }

  lemma EndsUnrelated(entries: map<Hash, Block>, tips: seq<Block>)
    requires forall t :: t in tips ==> Leaf(entries, t)
    ensures Antichain(entries, Elements(tips))
  {
    forall path: seq<Block> | Descent(entries, path) && |path| >= 2 ensures !Leaf(entries, path[0]) {
      assert ChildOf(entries, path[1], path[0].hash);
    }
  }

  // Every heaviest branch is tried in some outcome of the step.
  lemma AnyHeaviestIsTried(cfg: Config, known: iset<Wire>, s: Node, b: Block, h: nat, path: seq<Block>, now: u64,
                           f: ForkChain) returns (out: Outcome, s': Node)
    requires NodeOk(cfg, known, s) && SelfHashed(cfg.crypto, known, b) && path != [] && path[0] == b
    requires Ready(cfg, s.(pool := WithOrphan(s.pool, cfg.orphanCapacity, b)), h, path, now)
    requires Heaviest(cfg.params, s.blocks, WithOrphan(s.pool, cfg.orphanCapacity, b).entries, b, now, f)
    ensures ForkStep(cfg, s, b, now, out, s')
    ensures !AllAuthentic(cfg.crypto, Transactions(f.blocks)) ==> s'.blocks == s.blocks
  {
    var held := s.(pool := WithOrphan(s.pool, cfg.orphanCapacity, b));
    hide NodeOk, WithOrphan, Ready, SelfHashed, Weight, AllAuthentic, Transactions, ForkTips, IsBest, Heaviest, Tree;
    hide Acyclic, TraceFork, Switched, HeightOf, BlockHashes, WithoutOrphans;
    HeldKeeps(cfg, known, s, b);
    FirstIsTraced(cfg, known, held, h, path, now);
    SmallAndAcyclic(cfg, held, h, path, now);
    var tips := EndsAreTips(held.pool.entries, b);
    BestIsHeaviest(cfg.params, s.blocks, held.pool.entries, b, tips, now, f);
    var r := TryReorg(cfg, held, f);
    if r.None? {
      out, s' := REJECTED, held;
    } else {
      var hashes := BlockHashes(f.blocks);
      out, s' := Outcome(Reorged, hashes, None), r.value.(pool := WithoutOrphans(held.pool, hashes));
    }
    assert ChooseStep(cfg, held, Some(f), out, s');
  }

  /** Whatever the order in which the ends are found, handling `b` leaves a tip at least as
      heavy as the waiting branch, if and only if every heaviest branch through `b` is
      signed. */
  lemma ForkAlwaysHelps(cfg: Config, known: iset<Wire>, s: Node, b: Block, h: nat, path: seq<Block>, now: u64)
    requires NodeOk(cfg, known, s) && SelfHashed(cfg.crypto, known, b) && path != [] && path[0] == b
    requires Ready(cfg, s.(pool := WithOrphan(s.pool, cfg.orphanCapacity, b)), h, path, now)
    requires Weight(ForkChain(path, s.blocks[h])) > TipWork(s.blocks)
    ensures var entries := WithOrphan(s.pool, cfg.orphanCapacity, b).entries;
      (forall out, s': Node :: ForkStep(cfg, s, b, now, out, s') ==>
         TipWork(s'.blocks) >= Weight(ForkChain(path, s.blocks[h])))
      <==>
      (forall f: ForkChain :: Heaviest(cfg.params, s.blocks, entries, b, now, f) ==>
         AllAuthentic(cfg.crypto, Transactions(f.blocks)))
  {
    var entries := WithOrphan(s.pool, cfg.orphanCapacity, b).entries;
    assert h < |s.blocks|;
    hide NodeOk, WithOrphan, ForkStep, Ready, SelfHashed, Weight, TipWork, AllAuthentic, Transactions, Heaviest;
    forall out, s' | ForkStep(cfg, s, b, now, out, s')
      ensures exists f :: Heaviest(cfg.params, s.blocks, entries, b, now, f)
                && (AllAuthentic(cfg.crypto, Transactions(f.blocks)) ==>
                      TipWork(s'.blocks) >= Weight(ForkChain(path, s.blocks[h])))
    {
      var f := ForkArrives(cfg, known, s, b, h, path, now, out, s');
    }
    forall f | Heaviest(cfg.params, s.blocks, entries, b, now, f)
      ensures exists out, s' :: ForkStep(cfg, s, b, now, out, s')
                && (!AllAuthentic(cfg.crypto, Transactions(f.blocks)) ==> s'.blocks == s.blocks)
    {
      var out, s' := AnyHeaviestIsTried(cfg, known, s, b, h, path, now, f);
    }
  }

  // ---- The parent is submitted ----

  /** `path` waits for the submitted block `b` to join it to the chain at height `h`: its other
      blocks are in the pool, all of it is valid, and it is heavier than the tip. */
  ghost predicate WaitsFor(cfg: Config, s: Node, b: Block, h: nat, path: seq<Block>, now: u64) {
    && |path| >= 2 && path[0] == b
    && Ready(cfg, s.(pool := WithOrphan(s.pool, cfg.orphanCapacity, b)), h, path, now)
    && Weight(ForkChain(path, s.blocks[h])) > TipWork(s.blocks)
  }

  // `b` passes the checks on itself alone, and does not extend the tip, so that branches are looked for.
  ghost predicate Searches(s: Node, b: Block, h: nat) {
    && ContextFree(b) && h + 1 < |s.blocks|
    && CoinbaseFirst(b.wire.transactions)
  }

  // With the parent below the tip, `submit_block` handles it as a fork candidate or turns it away.
  lemma BelowTip(cfg: Config, known: iset<Wire>, s: Node, b: Block, h: nat)
    requires NodeOk(cfg, known, s) && SelfHashed(cfg.crypto, known, b) && h < |s.blocks|
    requires b.wire.prevHash == s.blocks[h].hash
    ensures s.blocks != [] && (h + 1 < |s.blocks| <==> b.wire.prevHash != s.blocks[|s.blocks| - 1].hash)
    ensures Searches(s, b, h) <==> ContextFree(b) && Classify(cfg.crypto, s.blocks, b) == ForkCandidate
    ensures h + 1 < |s.blocks| ==> Classify(cfg.crypto, s.blocks, b) != Validation.Valid
  {
    hide NodeOk, ContextFree, HeightOf;
    OwnHeight(cfg, known, s, h);
    OwnHeight(cfg, known, s, |s.blocks| - 1);
  }

  // A branch of two or more blocks outweighs its first.
  lemma MoreThanFirst(ancestor: Block, path: seq<Block>)
    requires |path| >= 2 && ancestor.cumulativeWork + SumWork(path) < LIMIT64
    ensures var first := Add64(BlockWork(path[0].wire.difficulty), ancestor.cumulativeWork);
      ancestor.cumulativeWork < first < Weight(ForkChain(path, ancestor))
  {
    hide BlockWork;
    BranchWorkIsSum(ancestor.cumulativeWork, path);
    assert path[1..][0] == path[1];
  }

  /** A parent that extends the tip leaves the blocks that wait for it where they are. It is
      accepted or refused by itself; either way the pool is as before and the waiting branch
      outweighs the tip. */
  lemma ParentOnTip(cfg: Config, known: iset<Wire>, s: Node, b: Block, path: seq<Block>, now: u64,
                    out: Outcome, s': Node)
    requires NodeOk(cfg, known, s) && SelfHashed(cfg.crypto, known, b) && s.blocks != []
    requires SubmitStep(cfg, s, b, now, out, s') && WaitsFor(cfg, s, b, |s.blocks| - 1, path, now)
    ensures s'.pool == s.pool && (s'.blocks == s.blocks || s'.blocks == Append(s.blocks, b))
    ensures TipWork(s'.blocks) < Weight(ForkChain(path, s.blocks[|s.blocks| - 1]))
  {
    hide NodeOk, ContextFree, TimestampOk, NextDifficulty, ApplyBlock, ForkStep, HeightOf, PassingFrom, Acyclic, Tree;
    hide WithOrphan, BlockWork, Weight, SumWork;
    BelowTip(cfg, known, s, b, |s.blocks| - 1);
    MoreThanFirst(s.blocks[|s.blocks| - 1], path);
  }

  /** The missing parent `b` of a waiting, valid and heavier branch is submitted. If it passes
      the checks on itself and joins the chain below the tip, a heaviest branch through it is
      tried: signed, it becomes the chain; not signed, the chain stays. If it extends the tip,
      or is turned away, nothing is tried. The new tip is at least as heavy as the waiting
      branch exactly when something is tried and is signed. */
  lemma ParentArrives(cfg: Config, known: iset<Wire>, s: Node, b: Block, h: nat, path: seq<Block>, now: u64,
                      out: Outcome, s': Node) returns (tried: Option<ForkChain>)
    requires NodeOk(cfg, known, s) && SelfHashed(cfg.crypto, known, b) && s.blocks != []
    requires SubmitStep(cfg, s, b, now, out, s') && WaitsFor(cfg, s, b, h, path, now)
    ensures tried.Some? <==> Searches(s, b, h)
    ensures tried.Some? ==>
              && Heaviest(cfg.params, s.blocks, WithOrphan(s.pool, cfg.orphanCapacity, b).entries, b, now, tried.value)
              && Weight(tried.value) >= Weight(ForkChain(path, s.blocks[h]))
              && if AllAuthentic(cfg.crypto, Transactions(tried.value.blocks))
                 then out.status == Reorged && TipWork(s'.blocks) == Weight(tried.value)
                 else out.status == Rejected && s'.blocks == s.blocks && s'.accounts == s.accounts
    ensures tried.None? ==>
              s'.pool == s.pool && (s'.blocks == s.blocks || (h + 1 == |s.blocks| && s'.blocks == Append(s.blocks, b)))
    ensures TipWork(s'.blocks) >= Weight(ForkChain(path, s.blocks[h])) <==>
            tried.Some? && AllAuthentic(cfg.crypto, Transactions(tried.value.blocks))
  {
    hide NodeOk, ForkStep, ExtendStep, Weight, TipWork, AllAuthentic, Transactions, Heaviest, WithOrphan, Append;
    hide ContextFree, SelfHashed;
    WaiterFacts(cfg, s, b, h, path, now);
    hide Ready;
    BelowTip(cfg, known, s, b, h);
    tried := None;
    if Searches(s, b, h) {
      var best := ForkArrives(cfg, known, s, b, h, path, now, out, s');
      tried := Some(best);
    } else if h + 1 == |s.blocks| {
      ParentOnTip(cfg, known, s, b, path, now, out, s');
    }
  }

  lemma WaiterFacts(cfg: Config, s: Node, b: Block, h: nat, path: seq<Block>, now: u64)
    requires WaitsFor(cfg, s, b, h, path, now)
    ensures h < |s.blocks| && b.wire.prevHash == s.blocks[h].hash
  {}

  lemma SomeExtension(cfg: Config, s: Node, b: Block, now: u64) returns (out: Outcome, s': Node)
    ensures ExtendStep(cfg, s, b, now, out, s')
  {
    hide TimestampOk, NextDifficulty, ApplyBlock, Extended;
    var (ok, accounts) := ApplyBlock(cfg.crypto, s.accounts, b.wire.transactions);
    if !TimestampOk(b, |s.blocks|, now, cfg.params, s.blocks)
       || b.wire.difficulty != NextDifficulty(|s.blocks|, cfg.params, s.blocks) {
      out, s' := REJECTED, s;
    } else if ok {
      out, s' := Outcome(Accepted, [b.hash], None), Extended(cfg, s, b, accounts);
    } else {
      out, s' := REJECTED, s.(accounts := accounts);
    }
  }

  // A submission that does not search ends somehow.
  lemma SomeOutcome(cfg: Config, known: iset<Wire>, s: Node, b: Block, h: nat, now: u64)
    returns (out: Outcome, s': Node)
    requires NodeOk(cfg, known, s) && SelfHashed(cfg.crypto, known, b) && s.blocks != [] && h < |s.blocks|
    requires b.wire.prevHash == s.blocks[h].hash && !Searches(s, b, h)
    ensures SubmitStep(cfg, s, b, now, out, s')
  {
    hide NodeOk, ForkStep, ExtendStep, ContextFree, Searches;
    BelowTip(cfg, known, s, b, h);
    if ContextFree(b) && Classify(cfg.crypto, s.blocks, b) == Validation.Valid {
      out, s' := SomeExtension(cfg, s, b, now);
    } else {
      out, s' := REJECTED, s;
    }
  }

  /** Whatever the order in which the ends are found, submitting the missing parent `b` leaves
      a tip at least as heavy as the waiting branch, if and only if `b` passes the checks on
      itself, joins the chain below the tip, and every heaviest branch through it is signed. */
  lemma ParentAlwaysHelps(cfg: Config, known: iset<Wire>, s: Node, b: Block, h: nat, path: seq<Block>, now: u64)
    requires NodeOk(cfg, known, s) && SelfHashed(cfg.crypto, known, b) && s.blocks != []
    requires WaitsFor(cfg, s, b, h, path, now)
    ensures var entries := WithOrphan(s.pool, cfg.orphanCapacity, b).entries;
      (forall out, s': Node :: SubmitStep(cfg, s, b, now, out, s') ==>
         TipWork(s'.blocks) >= Weight(ForkChain(path, s.blocks[h])))
      <==>
      && Searches(s, b, h)
      && (forall f: ForkChain :: Heaviest(cfg.params, s.blocks, entries, b, now, f) ==>
            AllAuthentic(cfg.crypto, Transactions(f.blocks)))
  {
    hide NodeOk, ForkStep, ExtendStep, Weight, TipWork, AllAuthentic, Transactions, Heaviest, WithOrphan, SelfHashed;
    hide ContextFree;
    WaiterFacts(cfg, s, b, h, path, now);
    hide Ready;
    BelowTip(cfg, known, s, b, h);
    if Searches(s, b, h) {
      hide Searches;
      assert forall out, s' :: SubmitStep(cfg, s, b, now, out, s') <==> ForkStep(cfg, s, b, now, out, s');
      ForkAlwaysHelps(cfg, known, s, b, h, path, now);
    } else {
      var out, s' := SomeOutcome(cfg, known, s, b, h, now);
      var tried := ParentArrives(cfg, known, s, b, h, path, now, out, s');
    }
  }
}
