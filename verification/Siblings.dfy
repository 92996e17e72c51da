/**
 Two runs in which a valid, signed and heavier branch waits for its parent in vain. In the
 first, a still heavier branch without valid signatures is preferred when the parent
 arrives, tried and turned down, and nothing else is tried. In the second, the parent
 extends the tip, and no branch is looked for.
 */
module Siblings {
  import opened Types
  import opened Accounting
  import opened Consensus
  import opened Chain
  import opened Orphans
  import opened Forks
  import opened Codec
  import opened Pending
  import opened Disk
  import opened NodeModel
  import opened NodeInvariant
  import opened Runs
  import opened Restart
  import opened Waiting
  import opened Witnesses

  /** Five blocks before the first adjustment: `a` and `b` on genesis; on top of `b` the two
      branches `c` and `u`, `v`. All meet their targets and have no coinbase, and four times
      their work does not wrap. */
  datatype Family = Family(a: Block, b: Block, c: Block, u: Block, v: Block)

  ghost predicate Related(cfg: Config, known: iset<Wire>, f: Family, now: u64) {
    && BlocksCollisionFree(cfg.crypto, known) && Genesis(cfg.crypto).wire in known
    && 4 <= cfg.orphanCapacity && 1 <= cfg.mempoolCapacity
    && (cfg.params.retargetInterval < 2 || cfg.params.retargetInterval >= 3) && cfg.params.initialDifficulty <= 61
    && f.a.wire.prevHash == f.b.wire.prevHash == Genesis(cfg.crypto).hash
    && f.c.wire.prevHash == f.u.wire.prevHash == f.b.hash && f.v.wire.prevHash == f.u.hash
    && f.a != f.b && f.c != f.u
    && (forall x :: x in {f.a, f.b, f.c, f.u, f.v} ==>
          && SelfHashed(cfg.crypto, known, x) && x.cumulativeWork == 0 && ContextFree(x)
          && x.wire.difficulty == cfg.params.initialDifficulty
          && x.wire.timestamp <= now + cfg.params.maxFutureDrift
          && forall i :: 0 <= i < |x.wire.transactions| ==> x.wire.transactions[i].sender != COINBASE)
    && 0 < f.a.wire.timestamp
    && 0 < f.b.wire.timestamp < f.c.wire.timestamp
    && f.b.wire.timestamp < f.u.wire.timestamp < f.v.wire.timestamp
  }

  // All hashes differ, also from that of genesis and from zero.
  lemma AllDiffer(cfg: Config, known: iset<Wire>, f: Family, now: u64)
    requires Related(cfg, known, f, now)
    ensures var g, h := Genesis(cfg.crypto).hash, f.a.hash;
      && h != g && f.b.hash != g && f.c.hash != g && f.u.hash != g && f.v.hash != g
      && f.b.hash != h && f.c.hash != h && f.u.hash != h && f.v.hash != h
      && f.c.hash != f.b.hash && f.u.hash != f.b.hash && f.v.hash != f.b.hash
      && f.u.hash != f.c.hash && f.v.hash != f.c.hash && f.v.hash != f.u.hash
  {
    hide ContextFree;
    var c := cfg.crypto;
    assert c.blockHash(Genesis(c).wire) == Genesis(c).hash != ZERO_HASH && Genesis(c).wire.prevHash == ZERO_HASH;
    forall x, y | x in {f.a, f.b, f.c, f.u, f.v} && y in {f.a, f.b, f.c, f.u, f.v} && x.hash == y.hash ensures x == y {
      assert SelfHashed(c, known, x) && SelfHashed(c, known, y);
    }
    forall x | x in {f.a, f.b, f.c, f.u, f.v} ensures x.hash != Genesis(c).hash {
      assert SelfHashed(c, known, x) && SelfHashed(c, known, f.b) && SelfHashed(c, known, f.u);
      assert x.wire.prevHash != ZERO_HASH;
    }
    assert f.b.hash != Genesis(c).hash && f.u.hash != Genesis(c).hash;
    assert f.u.hash != f.b.hash;
  }

  // ---- The run up to the arrival of `b` ----

  // A block whose parent is nowhere is kept, and its parent asked for.
  lemma Waits(cfg: Config, s: Node, x: Block, now: u64)
    requires s.blocks != [] && x.hash == cfg.crypto.blockHash(x.wire) && ContextFree(x)
    requires forall i :: 0 < i < |x.wire.transactions| ==> x.wire.transactions[i].sender != COINBASE
    requires x.wire.prevHash != s.blocks[|s.blocks| - 1].hash
    requires TraceFork(s.blocks, WithOrphan(s.pool, cfg.orphanCapacity, x).entries, x, MAX_FORK_DEPTH).None?
    ensures SubmitStep(cfg, s, x, now, Outcome(NeedParent, [], Some(x.wire.prevHash)),
                       s.(pool := WithOrphan(s.pool, cfg.orphanCapacity, x)))
  {
    hide ContextFree, TraceFork, WithOrphan;
  }

  // The pool that holds `c`, `u` and `v`, in this order of arrival.
  function Held3(f: Family): Pool {
    Pool([f.c.hash, f.u.hash, f.v.hash], map[f.c.hash := f.c, f.u.hash := f.u, f.v.hash := f.v])
  }

  function Waiting1(f: Family): Pool {
    Pool([f.c.hash], map[f.c.hash := f.c])
  }

  function Waiting2(f: Family): Pool {
    Pool([f.c.hash, f.u.hash], map[f.c.hash := f.c, f.u.hash := f.u])
  }

  lemma PoolsGrow(cfg: Config, known: iset<Wire>, f: Family, now: u64)
    requires Related(cfg, known, f, now)
    ensures WithOrphan(Pool([], map[]), cfg.orphanCapacity, f.c) == Waiting1(f)
    ensures WithOrphan(Waiting1(f), cfg.orphanCapacity, f.u) == Waiting2(f)
    ensures WithOrphan(Waiting2(f), cfg.orphanCapacity, f.v) == Held3(f)
  {
    AllDiffer(cfg, known, f, now);
    hide Related;
    assert Related(cfg, known, f, now) ==> cfg.orphanCapacity >= 4 by { Capacity(cfg, known, f, now); }
    assert |Waiting1(f).entries| <= 1 && |Waiting2(f).entries| <= 2;
  }

  lemma Capacity(cfg: Config, known: iset<Wire>, f: Family, now: u64)
    ensures Related(cfg, known, f, now) ==> cfg.orphanCapacity >= 4
  {}

  // On a chain of genesis and `a`, nothing in the pool leads to the chain before `b` is there.
  lemma NoneTraced(cfg: Config, known: iset<Wire>, f: Family, blocks: seq<Block>, now: u64)
    requires Related(cfg, known, f, now) && blocks == Append([Genesis(cfg.crypto)], f.a)
    ensures TraceFork(blocks, Waiting1(f).entries, f.c, MAX_FORK_DEPTH).None?
    ensures TraceFork(blocks, Waiting2(f).entries, f.u, MAX_FORK_DEPTH).None?
    ensures TraceFork(blocks, Held3(f).entries, f.v, MAX_FORK_DEPTH).None?
  {
    AllDiffer(cfg, known, f, now);
    OffChain(cfg, known, f, blocks, now);
    hide ContextFree, HeightOf, Append, BlocksCollisionFree;
    assert TraceFork(blocks, Held3(f).entries, f.u, MAX_FORK_DEPTH - 1).None?;
  }

  lemma OffChain(cfg: Config, known: iset<Wire>, f: Family, blocks: seq<Block>, now: u64)
    requires Related(cfg, known, f, now) && blocks == Append([Genesis(cfg.crypto)], f.a)
    ensures forall x :: x in {f.b, f.c, f.u, f.v} ==> HeightOf(blocks, x.hash).None?
    ensures blocks[0] == Genesis(cfg.crypto) && |blocks| == 2 && blocks[1].hash == f.a.hash
  {
    AllDiffer(cfg, known, f, now);
    hide ContextFree, HeightOf, BlocksCollisionFree, BlockWork;
    assert blocks[0].hash == Genesis(cfg.crypto).hash && blocks[1].hash == f.a.hash;
  }

  function Arrivals(f: Family, now: u64): seq<Event> {
    [SubmitBlock(f.a, now)] + [SubmitBlock(f.c, now)] + [SubmitBlock(f.u, now)] + [SubmitBlock(f.v, now)]
  }

  // `a` becomes the tip; `c`, `u` and `v` wait for `b`.
  lemma RunUp(cfg: Config, known: iset<Wire>, withDisk: bool, f: Family, now: u64) returns (states: seq<Node>, s: Node)
    requires Related(cfg, known, f, now) && f.a.wire.transactions == []
    ensures |states| == 5 && Run(cfg, known, states, Arrivals(f, now)) && states[4] == s
    ensures s.blocks == Append([Genesis(cfg.crypto)], f.a) && s.pool == Held3(f)
  {
    hide Related, ContextFree, BlocksCollisionFree, SubmitStep, TraceFork, WithOrphan, Append, Waiting1, Waiting2;
    hide Held3;
    hide HeightOf, Save, RemoveAll, MirrorOf, Run, Initial, SelfHashed;
    var start := Initial(cfg, withDisk);
    FirstSubmit(cfg, known, withDisk, f, now);
    PoolsGrow(cfg, known, f, now);
    var s1 := Extended(cfg, start, f.a, EMPTY);
    StartIs(cfg, withDisk);
    NoneTraced(cfg, known, f, s1.blocks, now);
    OffChain(cfg, known, f, s1.blocks, now);
    WaitersFacts(cfg, known, f, now);
    var s2 := s1.(pool := Waiting1(f));
    var s3 := s2.(pool := Waiting2(f));
    s := s3.(pool := Held3(f));
    Waits(cfg, s1, f.c, now);
    Waits(cfg, s2, f.u, now);
    Waits(cfg, s3, f.v, now);
    hide Extended;
    RunOfOne(cfg, known, withDisk, SubmitBlock(f.a, now), s1);
    RunMore(cfg, known, [start, s1], [SubmitBlock(f.a, now)], SubmitBlock(f.c, now), s2);
    RunMore(cfg, known, [start, s1] + [s2],
            [SubmitBlock(f.a, now)] + [SubmitBlock(f.c, now)], SubmitBlock(f.u, now), s3);
    RunMore(cfg, known, [start, s1] + [s2] + [s3],
            [SubmitBlock(f.a, now)] + [SubmitBlock(f.c, now)] + [SubmitBlock(f.u, now)], SubmitBlock(f.v, now), s);
    states := [start, s1] + [s2] + [s3] + [s];
  }

  lemma StartIs(cfg: Config, withDisk: bool)
    ensures var s := Initial(cfg, withDisk);
      s.blocks == [Genesis(cfg.crypto)] && s.accounts == EMPTY && s.pool == Pool([], map[])
  {}

  // What submitting the waiting blocks asks for.
  lemma WaitersFacts(cfg: Config, known: iset<Wire>, f: Family, now: u64)
    requires Related(cfg, known, f, now)
    ensures BlocksCollisionFree(cfg.crypto, known) && Genesis(cfg.crypto).wire in known
    ensures 1 <= cfg.orphanCapacity && 1 <= cfg.mempoolCapacity
    ensures forall x :: x in {f.a, f.b, f.c, f.u, f.v} ==>
              && x.wire in known && x.hash == cfg.crypto.blockHash(x.wire) && ContextFree(x)
              && forall i :: 0 <= i < |x.wire.transactions| ==> x.wire.transactions[i].sender != COINBASE
    ensures f.c.wire.prevHash != f.a.hash && f.u.wire.prevHash != f.a.hash && f.v.wire.prevHash != f.a.hash
  {
    AllDiffer(cfg, known, f, now);
    hide ContextFree, BlocksCollisionFree;
  }

  lemma FirstSubmit(cfg: Config, known: iset<Wire>, withDisk: bool, f: Family, now: u64)
    requires Related(cfg, known, f, now) && f.a.wire.transactions == []
    ensures SubmitStep(cfg, Initial(cfg, withDisk), f.a, now, Outcome(Accepted, [f.a.hash], None),
                       Extended(cfg, Initial(cfg, withDisk), f.a, EMPTY))
  {
    hide ContextFree, BlocksCollisionFree, SubmitStep, Extended;
    var start := Initial(cfg, withDisk);
    assert start.blocks + [f.a] == [Genesis(cfg.crypto), f.a];
    Submits(cfg, start, f.a, now);
  }

  // ---- The arrival of `b` ----

  // The pool once `b` is in it too.
  function Held4(f: Family): map<Hash, Block> {
    Held3(f).entries[f.b.hash := f.b]
  }

  lemma LastPool(cfg: Config, known: iset<Wire>, f: Family, now: u64)
    requires Related(cfg, known, f, now)
    ensures WithOrphan(Held3(f), cfg.orphanCapacity, f.b).entries == Held4(f)
    ensures forall h :: h in Held4(f) <==> h in {f.b.hash, f.c.hash, f.u.hash, f.v.hash}
    ensures forall x :: Held(Held4(f), x) <==> x in {f.b, f.c, f.u, f.v}
  {
    AllDiffer(cfg, known, f, now);
    Capacity(cfg, known, f, now);
    hide Related;
    assert |Held3(f).entries| <= 3;
  }

  // How far from genesis a block of the family is.
  function Depth(f: Family, h: Hash): nat {
    if h == f.b.hash then 1 else if h == f.c.hash || h == f.u.hash then 2 else if h == f.v.hash then 3 else 0
  }

  lemma SmallTree(cfg: Config, known: iset<Wire>, f: Family, now: u64)
    requires Related(cfg, known, f, now)
    ensures Acyclic(Held4(f)) && |Tree(Held4(f), f.b)| <= 4
  {
    hide Related, Held4, Grounded, Reaches;
    FamilyGrounded(cfg, known, f, now);
    LastPool(cfg, known, f, now);
    forall x | x in Tree(Held4(f), f.b) ensures x in {f.b, f.c, f.u, f.v} {
      var h :| h in Held4(f) && Held4(f)[h] == x;
      FiledUnder(cfg, known, f, h, now);
    }
    hide Tree;
    SubsetCount(Tree(Held4(f), f.b), {f.b, f.c, f.u, f.v});
    FourAtMost(f.b, f.c, f.u, f.v);
  }

  lemma FourAtMost(b: Block, c: Block, u: Block, v: Block)
    ensures |{b, c, u, v}| <= 4
  {}

  lemma FamilyGrounded(cfg: Config, known: iset<Wire>, f: Family, now: u64)
    requires Related(cfg, known, f, now)
    ensures Grounded(Held4(f), h => Depth(f, h))
  {
    AllDiffer(cfg, known, f, now);
    Links(cfg, known, f, now);
    hide Related;
  }

  lemma Links(cfg: Config, known: iset<Wire>, f: Family, now: u64)
    requires Related(cfg, known, f, now)
    ensures f.b.wire.prevHash == Genesis(cfg.crypto).hash
    ensures f.c.wire.prevHash == f.u.wire.prevHash == f.b.hash && f.v.wire.prevHash == f.u.hash
  {}

  lemma FiledUnder(cfg: Config, known: iset<Wire>, f: Family, h: Hash, now: u64)
    requires Related(cfg, known, f, now) && h in Held4(f)
    ensures Held(Held4(f), Held4(f)[h])
  {
    AllDiffer(cfg, known, f, now);
    hide Related;
  }

  lemma {:induction false} EqualWork(blocks: seq<Block>, difficulty: u32)
    requires forall i :: 0 <= i < |blocks| ==> blocks[i].wire.difficulty == difficulty
    ensures SumWork(blocks) == |blocks| * BlockWork(difficulty)
  {
    hide BlockWork;
    if blocks != [] {
      EqualWork(blocks[1..], difficulty);
    }
  }

  lemma FourFit(difficulty: u32)
    requires difficulty <= 61
    ensures 4 * BlockWork(difficulty) < LIMIT64
  {
    PowersFit(difficulty + 2);
    assert Pow2(difficulty + 2) == 2 * Pow2(difficulty + 1) == 4 * Pow2(difficulty);
  }

  lemma MemberFacts(cfg: Config, known: iset<Wire>, f: Family, x: Block, now: u64)
    requires Related(cfg, known, f, now) && x in {f.a, f.b, f.c, f.u, f.v}
    ensures SelfHashed(cfg.crypto, known, x) && ContextFree(x) && x.wire.difficulty == cfg.params.initialDifficulty
    ensures forall i :: 0 <= i < |x.wire.transactions| ==> x.wire.transactions[i].sender != COINBASE
    ensures cfg.params.initialDifficulty <= 61
  {
    hide ContextFree, BlocksCollisionFree, SelfHashed;
  }

  lemma WalkWork(cfg: Config, known: iset<Wire>, f: Family, path: seq<Block>, now: u64)
    requires Related(cfg, known, f, now) && Descent(Held4(f), path) && path[0] == f.b
    ensures SumWork(path) < LIMIT64
  {
    hide Related, BlockWork, Held4, Tree, Acyclic, Held, SelfHashed, ContextFree, SumWork;
    var d := cfg.params.initialDifficulty;
    SmallTree(cfg, known, f, now);
    LastPool(cfg, known, f, now);
    MemberFacts(cfg, known, f, f.b, now);
    FourFit(d);
    DescentWithinTree(Held4(f), f.b, path);
    forall i | 0 <= i < |path| ensures path[i].wire.difficulty == d {
      if i > 0 {
        assert ChildOf(Held4(f), path[i], path[i - 1].hash);
      }
      MemberFacts(cfg, known, f, path[i], now);
    }
    EqualWork(path, d);
    AtMostFour(|path|, BlockWork(d));
  }

  lemma AtMostFour(n: nat, w: nat)
    requires n <= 4
    ensures n * w <= 4 * w
  {}

  lemma WorkIsSmall(cfg: Config, known: iset<Wire>, f: Family, now: u64)
    requires Related(cfg, known, f, now)
    ensures WorkBelowLimit(Held4(f), f.b, 0)
  {
    hide Related, Held4, SumWork;
    forall path: seq<Block> | Descent(Held4(f), path) && path[0] == f.b ensures 0 + SumWork(path) < LIMIT64 {
      WalkWork(cfg, known, f, path, now);
    }
  }

  predicate IsBranch(f: Family, path: seq<Block>) {
    path == [f.b, f.c] || path == [f.b, f.u, f.v]
  }

  lemma BranchDescends(cfg: Config, known: iset<Wire>, f: Family, path: seq<Block>, now: u64)
    requires Related(cfg, known, f, now) && IsBranch(f, path)
    ensures Descent(Held4(f), path) && Held(Held4(f), f.b) && f.b.wire.prevHash == Genesis(cfg.crypto).hash
  {
    hide Related, Held4, Held;
    LastPool(cfg, known, f, now);
    Links(cfg, known, f, now);
  }

  lemma BranchIsYoung(cfg: Config, known: iset<Wire>, f: Family, path: seq<Block>, now: u64)
    requires Related(cfg, known, f, now) && IsBranch(f, path)
    ensures Young(cfg.params, [Genesis(cfg.crypto)] + path, now)
  {
    hide ContextFree, BlocksCollisionFree, SelfHashed;
  }

  // Both branches are ready to be adopted as soon as `b` is there.
  lemma BranchIsReady(cfg: Config, known: iset<Wire>, s: Node, f: Family, path: seq<Block>, now: u64)
    requires Related(cfg, known, f, now) && IsBranch(f, path)
    requires s.blocks == Append([Genesis(cfg.crypto)], f.a) && s.pool.entries == Held4(f)
    ensures Ready(cfg, s, 0, path, now)
  {
    hide Related, HeightOf, PassingFrom, Acyclic, Tree, WorkBelowLimit, Held4, Append, Descent, Held, Young;
    BranchDescends(cfg, known, f, path, now);
    OffChain(cfg, known, f, s.blocks, now);
    SmallTree(cfg, known, f, now);
    WorkIsSmall(cfg, known, f, now);
    BranchIsYoung(cfg, known, f, path, now);
    assert s.blocks[..1] == [Genesis(cfg.crypto)];
    YoungPasses(cfg.params, ForkView(s.blocks, 0, path), 1, now);
    ViewSize(s.blocks, 0, path);
  }

  lemma BranchWeighs(cfg: Config, known: iset<Wire>, f: Family, path: seq<Block>, now: u64)
    requires Related(cfg, known, f, now) && |path| <= 4
    requires forall i :: 0 <= i < |path| ==> path[i].wire.difficulty == cfg.params.initialDifficulty
    ensures Weight(ForkChain(path, Genesis(cfg.crypto))) == |path| * BlockWork(cfg.params.initialDifficulty)
  {
    hide ContextFree, BlocksCollisionFree;
    FourFit(cfg.params.initialDifficulty);
    EqualWork(path, cfg.params.initialDifficulty);
    var w := BlockWork(cfg.params.initialDifficulty);
    assert |path| * w <= 4 * w;
    hide BlockWork, SumWork, BranchWork;
    BranchWorkIsSum(0, path);
  }

  // Only `c` and `v` are ends.
  lemma EndsAre(cfg: Config, known: iset<Wire>, f: Family, tips: seq<Block>, now: u64)
    requires Related(cfg, known, f, now) && ForkTips(Held4(f), f.b, tips)
    ensures forall t :: t in tips ==> t == f.c || t == f.v
  {
    hide Related, CoversTree, Antichain, Acyclic, Reaches, Held4, NoDuplicates;
    SmallTree(cfg, known, f, now);
    LastPool(cfg, known, f, now);
    Links(cfg, known, f, now);
    assert ChildOf(Held4(f), f.c, f.b.hash) && ChildOf(Held4(f), f.v, f.u.hash);
    forall t | t in tips ensures t == f.c || t == f.v {
      assert t in Tree(Held4(f), f.b) && Leaf(Held4(f), t);
      var h :| h in Held4(f) && Held4(f)[h] == t;
      assert Held(Held4(f), t) by { FiledUnder(cfg, known, f, h, now); }
    }
  }

  /** A valid, signed and heavier branch need not be adopted when its missing parent arrives.
      `c` waits for `b`; so do `u` and `v`, which are not signed. Once `b` is there, the branch
      of `b` and `c` outweighs the tip and passes every check, and still the chain stays where
      it is, because the branch of `b`, `u` and `v` is heavier. */
  lemma UnsignedBranchBlocks(cfg: Config, known: iset<Wire>, withDisk: bool, f: Family, now: u64)
    returns (states: seq<Node>, s: Node)
    requires Related(cfg, known, f, now) && f.a.wire.transactions == []
    requires AllAuthentic(cfg.crypto, f.b.wire.transactions + f.c.wire.transactions)
    requires !AllAuthentic(cfg.crypto, f.u.wire.transactions + f.v.wire.transactions)
    ensures |states| == 5 && Run(cfg, known, states, Arrivals(f, now)) && states[4] == s
    ensures s.blocks == Append([Genesis(cfg.crypto)], f.a)
    ensures Ready(cfg, s.(pool := WithOrphan(s.pool, cfg.orphanCapacity, f.b)), 0, [f.b, f.c], now)
    ensures Prevails(cfg.crypto, s.blocks, ForkChain([f.b, f.c], s.blocks[0]))
    ensures forall out, s' :: SubmitStep(cfg, s, f.b, now, out, s') ==> s'.blocks == s.blocks
  {
    hide Run, Ready, ContextFree, NodeOk, WithOrphan, ForkStep, Prevails, Append, Related, Held3, Held4, Arrivals;
    hide SelfHashed;
    hide AllAuthentic, Held;
    states, s := RunUp(cfg, known, withDisk, f, now);
    var held := s.(pool := WithOrphan(s.pool, cfg.orphanCapacity, f.b));
    LastPool(cfg, known, f, now);
    OffChain(cfg, known, f, s.blocks, now);
    BranchIsReady(cfg, known, held, f, [f.b, f.c], now);
    SignedPrevails(cfg, known, s, f, now);
    RunInvariant(cfg, known, states, Arrivals(f, now), 4);
    MemberFacts(cfg, known, f, f.b, now);
    NotOnTip(cfg, known, f, now);
    forall out, s' | SubmitStep(cfg, s, f.b, now, out, s') ensures s'.blocks == s.blocks {
      assert Classify(cfg.crypto, s.blocks, f.b) == ForkCandidate;
      Blocked(cfg, known, s, f, now, out, s');
    }
  }

  lemma NotOnTip(cfg: Config, known: iset<Wire>, f: Family, now: u64)
    requires Related(cfg, known, f, now)
    ensures f.b.wire.prevHash != f.a.hash && f.b.hash == cfg.crypto.blockHash(f.b.wire)
  {
    AllDiffer(cfg, known, f, now);
    hide ContextFree, BlocksCollisionFree;
    assert SelfHashed(cfg.crypto, known, f.b);
  }

  lemma SignedPrevails(cfg: Config, known: iset<Wire>, s: Node, f: Family, now: u64)
    requires Related(cfg, known, f, now) && s.blocks == Append([Genesis(cfg.crypto)], f.a)
    requires AllAuthentic(cfg.crypto, f.b.wire.transactions + f.c.wire.transactions)
    ensures Prevails(cfg.crypto, s.blocks, ForkChain([f.b, f.c], s.blocks[0]))
    ensures TipWork(s.blocks) < Weight(ForkChain([f.b, f.c], s.blocks[0]))
            < Weight(ForkChain([f.b, f.u, f.v], s.blocks[0]))
  {
    hide Related, ContextFree, BlockWork, Weight, AllAuthentic, Transactions, SelfHashed;
    var w := BlockWork(cfg.params.initialDifficulty);
    forall x | x in {f.a, f.b, f.c, f.u, f.v} ensures x.wire.difficulty == cfg.params.initialDifficulty {
      MemberFacts(cfg, known, f, x, now);
    }
    assert s.blocks[0] == Genesis(cfg.crypto) && TipWork(s.blocks) == w;
    TwoBlocks([], f.b, f.c);
    BranchWeighs(cfg, known, f, [f.b, f.c], now);
    BranchWeighs(cfg, known, f, [f.b, f.u, f.v], now);
  }

  // Whatever the order in which ends are looked at, the unsigned branch is the one tried.
  lemma Blocked(cfg: Config, known: iset<Wire>, s: Node, f: Family, now: u64, out: Outcome, s': Node)
    requires Related(cfg, known, f, now) && NodeOk(cfg, known, s)
    requires s.blocks == Append([Genesis(cfg.crypto)], f.a) && s.pool == Held3(f)
    requires AllAuthentic(cfg.crypto, f.b.wire.transactions + f.c.wire.transactions)
    requires !AllAuthentic(cfg.crypto, f.u.wire.transactions + f.v.wire.transactions)
    requires ForkStep(cfg, s, f.b, now, out, s')
    ensures s'.blocks == s.blocks
  {
    hide Related, Ready, NodeOk, ForkStep, Held3, Held4, SelfHashed, Append, Weight, TipWork, AllAuthentic;
    hide Candidate, WithOrphan;
    hide Transactions, TraceFork, Prevails, ContextFree, Held, ForkTips;
    var held := s.(pool := WithOrphan(s.pool, cfg.orphanCapacity, f.b));
    LastPool(cfg, known, f, now);
    OffChain(cfg, known, f, s.blocks, now);
    BranchIsReady(cfg, known, held, f, [f.b, f.c], now);
    BranchIsReady(cfg, known, held, f, [f.b, f.u, f.v], now);
    SignedPrevails(cfg, known, s, f, now);
    MemberFacts(cfg, known, f, f.b, now);
    HeldKeeps(cfg, known, s, f.b);
    FirstIsTraced(cfg, known, held, 0, [f.b, f.c], now);
    var tips, best := ForkChoice(cfg, known, s, f.b, now, out, s');
    var t := BranchIsCandidate(cfg, known, held, 0, [f.b, f.u, f.v], tips, now);
    EndsAre(cfg, known, f, tips, now);
    var end :| end in tips && Candidate(cfg.params, s.blocks, held.pool.entries, end, now) == best;
    WholeBranch(cfg, known, held, [f.b, f.c], now);
    WholeBranch(cfg, known, held, [f.b, f.u, f.v], now);
    assert best == Some(ForkChain([f.b, f.u, f.v], s.blocks[0]));
    UnsignedFails(cfg, s, f);
  }

  lemma UnsignedFails(cfg: Config, s: Node, f: Family)
    requires s.blocks != [] && !AllAuthentic(cfg.crypto, f.u.wire.transactions + f.v.wire.transactions)
    ensures !Prevails(cfg.crypto, s.blocks, ForkChain([f.b, f.u, f.v], s.blocks[0]))
  {
    hide Weight, Authentic;
    var branch := [f.b, f.u, f.v];
    assert branch[..2] == [f.b, f.u] && [f.b, f.u][..1] == [f.b];
    OneBlock(f.b);
    assert Transactions(branch) == f.b.wire.transactions + f.u.wire.transactions + f.v.wire.transactions;
  }

  // The whole of a ready walk that ends in a leaf is a candidate.
  lemma WholeBranch(cfg: Config, known: iset<Wire>, s: Node, path: seq<Block>, now: u64)
    requires NodeOk(cfg, known, s) && Ready(cfg, s, 0, path, now)
    ensures Candidate(cfg.params, s.blocks, s.pool.entries, path[|path| - 1], now) == Some(ForkChain(path, s.blocks[0]))
  {
    hide NodeOk, HeightOf, PassingFrom, Acyclic, TraceFork, ForkView, Tree, Candidate, ValidPrefix;
    DescentWithinTree(s.pool.entries, path[0], path);
    WalkIsTraced(cfg, known, s, 0, path);
    OwnHeight(cfg, known, s, 0);
    var f := ForkChain(path, s.blocks[0]);
    PrefixIs(cfg.params, s.blocks, f, 0, now);
    TracedCandidate(cfg.params, s.blocks, s.pool.entries, path[|path| - 1], f, now);
    assert path[..|path|] == path;
  }

  // ---- A parent on top of the tip ----

  /** `b` on genesis and `c` on top of it. Both meet their targets and the coinbase rule, both
      are signed, and `b` applies to an empty ledger. */
  ghost predicate Pair(cfg: Config, known: iset<Wire>, b: Wire, c: Wire, now: u64) {
    && BlocksCollisionFree(cfg.crypto, known) && Genesis(cfg.crypto).wire in known && b in known && c in known
    && 2 <= cfg.orphanCapacity && 1 <= cfg.mempoolCapacity && cfg.params.initialDifficulty <= 62
    && b.difficulty == c.difficulty == cfg.params.initialDifficulty
    && b.prevHash == Genesis(cfg.crypto).hash && c.prevHash == cfg.crypto.blockHash(b)
    && 0 < b.timestamp < c.timestamp <= now + cfg.params.maxFutureDrift
    && (forall w :: w in {b, c} ==>
          && ContextFree(Received(cfg.crypto, w)) && AllAuthentic(cfg.crypto, w.transactions)
          && CoinbaseFirst(w.transactions))
    && Replay(EMPTY, b.transactions).Some?
  }

  lemma PairDiffers(cfg: Config, known: iset<Wire>, b: Wire, c: Wire, now: u64)
    requires Pair(cfg, known, b, c, now)
    ensures var g, x, y := Genesis(cfg.crypto).hash, cfg.crypto.blockHash(b), cfg.crypto.blockHash(c);
      g != x && g != y && x != y && g != ZERO_HASH
  {
    hide ContextFree, AllAuthentic, Replay;
    DistinctFromGenesis(cfg, known, b);
  }

  // The pool with `c` alone, and with `b` too.
  function Alone(y: Block): Pool {
    Pool([y.hash], map[y.hash := y])
  }

  lemma PairPools(x: Block, y: Block, capacity: nat)
    requires x.hash != y.hash && capacity >= 2
    ensures WithOrphan(Pool([], map[]), capacity, y) == Alone(y)
    ensures WithOrphan(Alone(y), capacity, x).entries == map[y.hash := y, x.hash := x]
  {
    assert |Alone(y).entries| <= 1;
  }

  lemma PairTree(x: Block, y: Block)
    requires x.hash != y.hash && y.wire.prevHash == x.hash && x.wire.prevHash != x.hash && x.wire.prevHash != y.hash
    ensures var entries := map[y.hash := y, x.hash := x];
      Acyclic(entries) && |Tree(entries, x)| <= 2 && Descent(entries, [x, y])
  {
    var entries := map[y.hash := y, x.hash := x];
    var age: Hash -> nat := h => if h == x.hash then 1 else if h == y.hash then 2 else 0;
    assert Grounded(entries, age);
    assert ChildOf(entries, y, x.hash);
    SubsetCount(Tree(entries, x), {x, y});
  }

  lemma TwoFit(difficulty: u32)
    requires difficulty <= 62
    ensures 2 * BlockWork(difficulty) < LIMIT64
  {
    PowersFit(difficulty + 1);
  }

  lemma PairWork(entries: map<Hash, Block>, x: Block, y: Block, d: u32)
    requires entries == map[y.hash := y, x.hash := x] && x.hash != y.hash && d <= 62
    requires x.wire.difficulty == y.wire.difficulty == d && Acyclic(entries) && |Tree(entries, x)| <= 2
    ensures WorkBelowLimit(entries, x, 0)
  {
    hide Acyclic, Tree, BlockWork, SumWork;
    TwoFit(d);
    forall path: seq<Block> | Descent(entries, path) && path[0] == x ensures 0 + SumWork(path) < LIMIT64 {
      DescentWithinTree(entries, x, path);
      forall i | 0 <= i < |path| ensures path[i].wire.difficulty == d {
        if i > 0 {
          assert ChildOf(entries, path[i], path[i - 1].hash);
        }
      }
      EqualWork(path, d);
    }
  }

  lemma PairWaits(cfg: Config, known: iset<Wire>, s: Node, b: Wire, c: Wire, now: u64)
    requires Pair(cfg, known, b, c, now)
    requires s.blocks == [Genesis(cfg.crypto)] && s.pool == Alone(Received(cfg.crypto, c))
    ensures WaitsFor(cfg, s, Received(cfg.crypto, b), 0, [Received(cfg.crypto, b), Received(cfg.crypto, c)], now)
  {
    hide ContextFree, AllAuthentic, Replay, BlocksCollisionFree, BlockWork, PassingFrom, HeightOf, Acyclic, Tree;
    hide WorkBelowLimit, WithOrphan, Weight, Descent;
    var g, x, y := Genesis(cfg.crypto), Received(cfg.crypto, b), Received(cfg.crypto, c);
    PairDiffers(cfg, known, b, c, now);
    PairPools(x, y, cfg.orphanCapacity);
    PairTree(x, y);
    PairWork(map[y.hash := y, x.hash := x], x, y, cfg.params.initialDifficulty);
    AtGenesis(cfg.crypto, x.hash);
    assert ForkView(s.blocks, 0, [x, y]) == [g, x, y];
    assert Young(cfg.params, [g, x, y], now);
    YoungPasses(cfg.params, [g, x, y], 1, now);
    assert Held(map[y.hash := y, x.hash := x], x);
    TwoFit(cfg.params.initialDifficulty);
    PairWeighs(cfg.params.initialDifficulty, g, x, y);
  }

  lemma PairWeighs(d: u32, g: Block, x: Block, y: Block)
    requires x.wire.difficulty == y.wire.difficulty == d && g.cumulativeWork == 0 && 2 * BlockWork(d) < LIMIT64
    ensures Weight(ForkChain([x, y], g)) == 2 * BlockWork(d)
  {
    hide BlockWork, SumWork, BranchWork;
    EqualWork([x, y], d);
    BranchWorkIsSum(0, [x, y]);
  }

  lemma FirstWaits(cfg: Config, known: iset<Wire>, withDisk: bool, b: Wire, c: Wire, now: u64)
    requires Pair(cfg, known, b, c, now)
    ensures var y := Received(cfg.crypto, c);
      SubmitStep(cfg, Initial(cfg, withDisk), y, now, Outcome(NeedParent, [], Some(c.prevHash)),
                 Initial(cfg, withDisk).(pool := Alone(y)))
  {
    hide ContextFree, AllAuthentic, Replay, BlocksCollisionFree, SubmitStep, HeightOf, WithOrphan;
    var x, y := Received(cfg.crypto, b), Received(cfg.crypto, c);
    PairDiffers(cfg, known, b, c, now);
    PairPools(x, y, cfg.orphanCapacity);
    AtGenesis(cfg.crypto, x.hash);
    Waits(cfg, Initial(cfg, withDisk), y, now);
  }

  /** A parent that extends the tip wakes nobody. A fresh node is given `c` before its parent
      `b`. `c` waits; `b` is accepted; and `c` goes on waiting, though it extends the new tip,
      is signed, and would make the chain heavier. */
  lemma WaitsOnInVain(cfg: Config, known: iset<Wire>, withDisk: bool, b: Wire, c: Wire, now: u64)
    returns (s: Node, t: Node)
    requires Pair(cfg, known, b, c, now)
    ensures var x, y := Received(cfg.crypto, b), Received(cfg.crypto, c);
      && Run(cfg, known, [Initial(cfg, withDisk), s] + [t], [SubmitBlock(y, now)] + [SubmitBlock(x, now)])
      && s.blocks == [Genesis(cfg.crypto)] && WaitsFor(cfg, s, x, 0, [x, y], now)
      && t.blocks == Append(s.blocks, x) && t.pool == s.pool && Held(t.pool.entries, y)
      && TipWork(t.blocks) < Weight(ForkChain([x, y], s.blocks[0]))
      && y.wire.prevHash == t.blocks[1].hash && Prevails(cfg.crypto, t.blocks, ForkChain([y], t.blocks[1]))
    ensures forall h :: h in s.pool.entries ==> AllAuthentic(cfg.crypto, s.pool.entries[h].wire.transactions)
  {
    var start, x, y := Initial(cfg, withDisk), Received(cfg.crypto, b), Received(cfg.crypto, c);
    hide ContextFree, AllAuthentic, Replay, BlocksCollisionFree, SubmitStep, WaitsFor, Prevails, Weight, MirrorOf, Save;
    hide RemoveAll, BlockWork, Run, TipWork, Genesis;
    s := start.(pool := Alone(y));
    FirstWaits(cfg, known, withDisk, b, c, now);
    PairWaits(cfg, known, s, b, c, now);
    PairAccepted(cfg, known, s, b, c, now);
    t := Extended(cfg, s, x, Replay(EMPTY, b.transactions).value);
    PairPrevails(cfg, t.blocks, b, c);
    assert Next(cfg, start, SubmitBlock(y, now), s) && Next(cfg, s, SubmitBlock(x, now), t);
    RunOfOne(cfg, known, withDisk, SubmitBlock(y, now), s);
    RunMore(cfg, known, [start, s], [SubmitBlock(y, now)], SubmitBlock(x, now), t);
  }

  lemma PairAccepted(cfg: Config, known: iset<Wire>, s: Node, b: Wire, c: Wire, now: u64)
    requires Pair(cfg, known, b, c, now) && s.blocks == [Genesis(cfg.crypto)] && s.accounts == EMPTY
    ensures var x := Received(cfg.crypto, b);
      SubmitStep(cfg, s, x, now, Outcome(Accepted, [x.hash], None),
                 Extended(cfg, s, x, Replay(EMPTY, b.transactions).value))
  {
    hide ContextFree, AllAuthentic, Replay, BlocksCollisionFree, SubmitStep, Extended;
    var x := Received(cfg.crypto, b);
    assert s.blocks + [x] == [Genesis(cfg.crypto), x];
    Submits(cfg, s, x, now);
  }

  lemma PairPrevails(cfg: Config, blocks: seq<Block>, b: Wire, c: Wire)
    requires cfg.params.initialDifficulty <= 62 && b.difficulty == c.difficulty == cfg.params.initialDifficulty
    requires blocks == Append([Genesis(cfg.crypto)], Received(cfg.crypto, b))
    requires AllAuthentic(cfg.crypto, c.transactions)
    ensures var x, y := Received(cfg.crypto, b), Received(cfg.crypto, c);
      && Prevails(cfg.crypto, blocks, ForkChain([y], blocks[1]))
      && TipWork(blocks) < Weight(ForkChain([x, y], Genesis(cfg.crypto)))
  {
    hide AllAuthentic, BlockWork, Transactions;
    var x, y, d := Received(cfg.crypto, b), Received(cfg.crypto, c), cfg.params.initialDifficulty;
    TwoFit(d);
    PairWeighs(d, Genesis(cfg.crypto), x, y);
    OneBlock(y);
    Witnesses.OneMore([], y);
  }
}
