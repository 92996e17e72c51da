/**
 Fork resolution: tracing a branch back to the main chain, judging it against
 its own history, and finding the ends of the branches that hang below a block
 (src/core/ForkResolution.cpp, `find_fork_tips` and `valid_prefix_length` of
 src/chain/ChainManager.cpp).
 */
module Forks {
  import opened Types
  import opened Consensus
  import opened Chain
  import opened Orphans

  const MAX_FORK_DEPTH: nat := 100

  // ---- Tracing a branch ----

  // The branch ending in `tip`, followed through at most `depth` parents.
  function TraceFork(blocks: seq<Block>, entries: map<Hash, Block>, tip: Block, depth: nat): Option<ForkChain>
    decreases depth
  {
    if depth == 0 then None
    else match HeightOf(blocks, tip.wire.prevHash)
      case Some(h) => Some(ForkChain([tip], blocks[h]))
      case None =>
        if tip.wire.prevHash !in entries then None
        else match TraceFork(blocks, entries, entries[tip.wire.prevHash], depth - 1)
          case None => None
          case Some(f) => Some(ForkChain(f.blocks + [tip], f.ancestor))
  }

  /** `f` ends in `tip` and has at most `depth` blocks; it grows link by link from its
      ancestor on the chain, passes only through the pool, and leaves the chain at once. */
  ghost predicate Traces(blocks: seq<Block>, entries: map<Hash, Block>, tip: Block, depth: nat, f: ForkChain) {
    && 1 <= |f.blocks| <= depth && f.blocks[|f.blocks| - 1] == tip
    && BranchFrom(f.ancestor.hash, f.blocks)
    && (exists h :: 0 <= h < |blocks| && blocks[h] == f.ancestor)
    && (forall i :: 0 <= i < |f.blocks| - 1 ==> Held(entries, f.blocks[i]))
    && (forall i :: 1 <= i < |f.blocks| ==> HeightOf(blocks, f.blocks[i].wire.prevHash).None?)
  }

  // What is traced is such a branch.
  lemma {:induction false} TraceForkShape(blocks: seq<Block>, pool: Pool, tip: Block, depth: nat)
    requires PoolOk(pool)
    requires TraceFork(blocks, pool.entries, tip, depth).Some?
    ensures Traces(blocks, pool.entries, tip, depth, TraceFork(blocks, pool.entries, tip, depth).value)
    decreases depth
  {
    hide HeightOf;
    match HeightOf(blocks, tip.wire.prevHash) {
      case Some(h) =>
      case None =>
        var parent := pool.entries[tip.wire.prevHash];
        TraceForkShape(blocks, pool, parent, depth - 1);
        var g := TraceFork(blocks, pool.entries, parent, depth - 1).value;
        var f := TraceFork(blocks, pool.entries, tip, depth).value;
        assert f.blocks == g.blocks + [tip];
        assert f.blocks[|g.blocks| - 1] == parent && parent.hash == tip.wire.prevHash;
        assert forall i :: 0 <= i < |g.blocks| ==> f.blocks[i] == g.blocks[i];
    }
  }

  // If there is such a branch, it is the one that is traced.
  lemma {:induction false} TraceForkFinds(blocks: seq<Block>, entries: map<Hash, Block>, tip: Block,
                                          depth: nat, f: ForkChain)
    requires DistinctHashes(blocks) && Traces(blocks, entries, tip, depth, f)
    ensures TraceFork(blocks, entries, tip, depth) == Some(f)
    decreases depth
  {
    hide HeightOf;
    var n := |f.blocks|;
    if n == 1 {
      assert f.blocks == [tip];
    } else {
      var parent := f.blocks[n - 2];
      assert Held(entries, parent) && f.blocks[n - 1].wire.prevHash == parent.hash;
      var g := f.(blocks := f.blocks[..n - 1]);
      TraceForkFinds(blocks, entries, parent, depth - 1, g);
      assert f.blocks == g.blocks + [tip];
    }
  }

  // A traced branch continued by newer blocks.
  function Continue(traced: Option<ForkChain>, newer: seq<Block>): Option<ForkChain> {
    if traced.None? then None else Some(ForkChain(traced.value.blocks + newer, traced.value.ancestor))
  }

  lemma ContinueTwice(traced: Option<ForkChain>, b: Block, newer: seq<Block>)
    ensures Continue(Continue(traced, [b]), newer) == Continue(traced, [b] + newer)
    ensures Continue(traced, []) == traced
  {
    if traced.Some? {
      var s := traced.value.blocks;
      assert s + [b] + newer == s + ([b] + newer) && s + [] == s;
    }
  }

  method BuildForkChain(chain: Blockchain, pool: OrphanPool, tip: Block) returns (r: Option<ForkChain>)
    requires chain.Valid() && DistinctHashes(chain.blocks) && pool.Valid()
    ensures r == TraceFork(chain.blocks, pool.entries, tip, MAX_FORK_DEPTH)
  {
    hide Continue;
    var newer, oldest, depth := [], tip, 0;
    ghost var whole := TraceFork(chain.blocks, pool.entries, tip, MAX_FORK_DEPTH);
    ContinueTwice(whole, tip, []);
    while true
      invariant depth <= MAX_FORK_DEPTH
      invariant whole == Continue(TraceFork(chain.blocks, pool.entries, oldest, MAX_FORK_DEPTH - depth), newer)
      decreases MAX_FORK_DEPTH - depth
    {
      if depth >= MAX_FORK_DEPTH {
        TraceEnds(newer);
        return None;
      }
      var height := chain.FindHeight(oldest.wire.prevHash);
      if height.Some? {
        TraceAnchored(oldest, chain.blocks[height.value], newer);
        return Some(ForkChain([oldest] + newer, chain.blocks[height.value]));
      }
      if oldest.wire.prevHash !in pool.entries {
        TraceEnds(newer);
        return None;
      }
      var parent := pool.entries[oldest.wire.prevHash];
      TraceParent(chain.blocks, pool.entries, oldest, MAX_FORK_DEPTH - depth);
      ContinueTwice(TraceFork(chain.blocks, pool.entries, parent, MAX_FORK_DEPTH - depth - 1), oldest, newer);
      newer, oldest, depth := [oldest] + newer, parent, depth + 1;
    }
  }

  lemma TraceEnds(newer: seq<Block>)
    ensures Continue(None, newer) == None
  {}

  lemma TraceAnchored(b: Block, ancestor: Block, newer: seq<Block>)
    ensures Continue(Some(ForkChain([b], ancestor)), newer) == Some(ForkChain([b] + newer, ancestor))
  {}

  lemma TraceParent(blocks: seq<Block>, entries: map<Hash, Block>, b: Block, depth: nat)
    requires depth > 0 && HeightOf(blocks, b.wire.prevHash).None? && b.wire.prevHash in entries
    ensures TraceFork(blocks, entries, b, depth)
            == Continue(TraceFork(blocks, entries, entries[b.wire.prevHash], depth - 1), [b])
  {}

  method ForkWork(fork: ForkChain) returns (work: u64)
    ensures work == BranchWork(fork.ancestor.cumulativeWork, fork.blocks)
  {
    hide BlockWork;
    work := fork.ancestor.cumulativeWork;
    for i := 0 to |fork.blocks|
      invariant BranchWork(work, fork.blocks[i..]) == BranchWork(fork.ancestor.cumulativeWork, fork.blocks)
    {
      assert fork.blocks[i..][1..] == fork.blocks[i + 1..];
      work := Add64(work, BlockWork(fork.blocks[i].wire.difficulty));
    }
    assert fork.blocks[|fork.blocks|..] == [];
  }

  // ---- Judging a branch ----

  // The rules that depend on the chain below, for the block of `view` at `height`.
  predicate ContextOk(p: Params, view: seq<Block>, height: nat, now: u64)
    requires height < |view|
  {
    && TimestampOk(view[height], height, now, p, view)
    && view[height].wire.difficulty == NextDifficulty(height, p, view)
  }

  // How many blocks of `view`, from `height` on, pass before the first that fails.
  function PassingFrom(p: Params, view: seq<Block>, height: nat, now: u64): (n: nat)
    requires height <= |view|
    ensures height + n <= |view|
    decreases |view| - height
  {
    if height == |view| || !ContextOk(p, view, height, now) then 0
    else 1 + PassingFrom(p, view, height + 1, now)
  }

  lemma {:induction false} PassingFromSplit(p: Params, view: seq<Block>, height: nat, now: u64, k: nat)
    requires height + k <= |view|
    requires forall i :: height <= i < height + k ==> ContextOk(p, view, i, now)
    ensures PassingFrom(p, view, height, now) == k + PassingFrom(p, view, height + k, now)
    decreases k
  {
    hide ContextOk;
    if k > 0 {
      PassingFromSplit(p, view, height + 1, now, k - 1);
    }
  }

  lemma {:induction false} PassingFromOk(p: Params, view: seq<Block>, height: nat, now: u64, i: nat)
    requires height <= |view| && height <= i < height + PassingFrom(p, view, height, now)
    ensures ContextOk(p, view, i, now)
    decreases i - height
  {
    hide ContextOk;
    if i > height {
      PassingFromOk(p, view, height + 1, now, i);
    }
  }

  // The history a branch is judged by: the main chain up to its ancestor, then itself.
  function ForkView(blocks: seq<Block>, height: nat, branch: seq<Block>): seq<Block>
    requires height < |blocks|
  {
    blocks[..height + 1] + branch
  }

  // `valid_prefix_length`; 0 when the ancestor is not on the chain.
  function ValidPrefix(p: Params, blocks: seq<Block>, fork: ForkChain, now: u64): (n: nat)
    ensures n <= |fork.blocks|
  {
    match HeightOf(blocks, fork.ancestor.hash)
    case None => 0
    case Some(h) => PassingFrom(p, ForkView(blocks, h, fork.blocks), h + 1, now)
  }

  method ValidPrefixLength(p: Params, chain: Blockchain, fork: ForkChain, now: u64) returns (n: nat)
    requires chain.Valid() && DistinctHashes(chain.blocks)
    ensures n == ValidPrefix(p, chain.blocks, fork, now)
  {
    hide NextDifficulty, TimestampOk;
    var height := chain.FindHeight(fork.ancestor.hash);
    if height == None {
      return 0;
    }
    var base := height.value + 1;
    var view := chain.blocks[..base] + fork.blocks;
    for i := 0 to |fork.blocks|
      invariant forall j :: base <= j < base + i ==> ContextOk(p, view, j, now)
    {
      PassingFromSplit(p, view, base, now, i);
      assert view[base + i] == fork.blocks[i];
      var timely := CheckTimestamp(fork.blocks[i], base + i, now, p, view);
      if !timely {
        return i;
      }
      if fork.blocks[i].wire.difficulty != NextDifficulty(base + i, p, view) {
        return i;
      }
    }
    PassingFromSplit(p, view, base, now, |fork.blocks|);
    return |fork.blocks|;
  }

  // ---- The ends of the branches below a block ----

  // A walk down the pool from parent to child.
  ghost predicate Descent(entries: map<Hash, Block>, path: seq<Block>) {
    path != [] && forall i :: 1 <= i < |path| ==> ChildOf(entries, path[i], path[i - 1].hash)
  }

  ghost predicate Reaches(entries: map<Hash, Block>, start: Block, b: Block) {
    exists path :: Descent(entries, path) && path[0] == start && path[|path| - 1] == b
  }

  ghost predicate Leaf(entries: map<Hash, Block>, b: Block) {
    forall c :: !ChildOf(entries, c, b.hash)
  }

  // A walk from `start` that cannot be continued.
  ghost predicate FullDescent(entries: map<Hash, Block>, start: Block, path: seq<Block>) {
    Descent(entries, path) && path[0] == start && Leaf(entries, path[|path| - 1])
  }

  ghost predicate Meets(path: seq<Block>, cut: set<Block>) {
    exists i :: 0 <= i < |path| && path[i] in cut
  }

  // Everything below `start`, itself included.
  ghost function Tree(entries: map<Hash, Block>, start: Block): set<Block> {
    set h | h in entries && Reaches(entries, start, entries[h]) :: entries[h]
  }

  /** Parent links cannot run in a circle: some measure of hashes grows from every
      block in the pool to its children. */
  ghost predicate Grounded(entries: map<Hash, Block>, age: Hash -> nat) {
    forall h :: h in entries ==> age(h) > age(entries[h].wire.prevHash)
  }

  ghost predicate Acyclic(entries: map<Hash, Block>) {
    exists age: Hash -> nat :: Grounded(entries, age)
  }

  function Elements(blocks: seq<Block>): set<Block> {
    set b | b in blocks
  }

  // `cut` lies below `start`, and every full walk down meets it.
  ghost predicate CoversTree(entries: map<Hash, Block>, start: Block, cut: set<Block>) {
    && (forall t :: t in cut ==> Reaches(entries, start, t))
    && (forall path :: FullDescent(entries, start, path) ==> Meets(path, cut))
  }

  // No block of `cut` lies below another one.
  ghost predicate Antichain(entries: map<Hash, Block>, cut: set<Block>) {
    forall path :: Descent(entries, path) && |path| >= 2 && path[0] in cut ==> path[|path| - 1] !in cut
  }

  /** What `find_fork_tips` returns, in any order: each end once, together a cut of the
      tree below `start`, and exactly its leaves if it has at most 100 blocks. */
  ghost predicate ForkTips(entries: map<Hash, Block>, start: Block, tips: seq<Block>) {
    && CoversTree(entries, start, Elements(tips))
    && (Acyclic(entries) ==>
          && NoDuplicates(tips) && Antichain(entries, Elements(tips))
          && (|Tree(entries, start)| <= 100 ==>
                forall t :: t in tips <==> t in Tree(entries, start) && Leaf(entries, t)))
  }

  ghost predicate ParentIn(inner: set<Block>, b: Block) {
    exists y :: y in inner && y.hash == b.wire.prevHash
  }

  /** The state of the walk: `inner` blocks were expanded, `open` ones were not. Every
      block but `start` got in through its parent. */
  ghost predicate Walk(entries: map<Hash, Block>, start: Block, inner: set<Block>, open: set<Block>) {
    inner !! open && AllReached(entries, start, inner + open) && AllRooted(start, inner, inner + open)
  }

  ghost predicate AllReached(entries: map<Hash, Block>, start: Block, seen: set<Block>) {
    forall b :: b in seen ==> Held(entries, b) && Reaches(entries, start, b)
  }

  ghost predicate AllRooted(start: Block, inner: set<Block>, seen: set<Block>) {
    forall b :: b in seen && b != start ==> ParentIn(inner, b)
  }

  lemma ReachesStep(entries: map<Hash, Block>, start: Block, b: Block, child: Block)
    requires Reaches(entries, start, b) && ChildOf(entries, child, b.hash)
    ensures Reaches(entries, start, child)
  {
    var path: seq<Block> :| Descent(entries, path) && path[0] == start && path[|path| - 1] == b;
    var longer := path + [child];
    assert forall i :: 0 <= i < |path| ==> longer[i] == path[i];
    assert Descent(entries, longer);
  }

  lemma {:induction false} DescentAges(entries: map<Hash, Block>, age: Hash -> nat, path: seq<Block>, i: nat)
    requires Descent(entries, path) && Grounded(entries, age) && i < |path|
    ensures age(path[i].hash) >= age(path[0].hash) + i
  {
    if i > 0 {
      DescentAges(entries, age, path, i - 1);
      assert ChildOf(entries, path[i], path[i - 1].hash);
    }
  }

  // `start` is nobody's child below itself.
  lemma StartIsNoChild(entries: map<Hash, Block>, age: Hash -> nat, start: Block, b: Block)
    requires Grounded(entries, age) && Held(entries, start)
    requires Reaches(entries, start, b)
    ensures start.wire.prevHash != b.hash
  {
    var path: seq<Block> :| Descent(entries, path) && path[0] == start && path[|path| - 1] == b;
    DescentAges(entries, age, path, |path| - 1);
  }

  // The parent of a block inside the walk was expanded.
  lemma ParentInner(entries: map<Hash, Block>, age: Hash -> nat, start: Block,
                    inner: set<Block>, open: set<Block>, parent: Block, b: Block)
    requires Grounded(entries, age) && Held(entries, start)
    requires Walk(entries, start, inner, open)
    requires b in inner + open
    requires Held(entries, parent) && Reaches(entries, start, parent) && b.wire.prevHash == parent.hash
    ensures parent in inner
  {
    StartIsNoChild(entries, age, start, parent);
    assert ParentIn(inner, b);
    var y :| y in inner && y.hash == b.wire.prevHash;
    assert y in inner + open;
  }

  // The children of an open block have not been seen before.
  lemma ChildrenAreNew(entries: map<Hash, Block>, age: Hash -> nat, start: Block,
                       inner: set<Block>, open: set<Block>, x: Block, child: Block)
    requires Grounded(entries, age) && Held(entries, start)
    requires Walk(entries, start, inner, open) && x in open
    requires ChildOf(entries, child, x.hash)
    ensures child !in inner + open && child != start
  {
    assert x in inner + open;
    StartIsNoChild(entries, age, start, x);
    if child in inner + open {
      ParentInner(entries, age, start, inner, open, x, child);
    }
  }

  lemma ReachedExpand(entries: map<Hash, Block>, start: Block, seen: set<Block>, x: Block, children: set<Block>)
    requires AllReached(entries, start, seen) && x in seen
    requires forall b :: b in children <==> ChildOf(entries, b, x.hash)
    ensures AllReached(entries, start, seen + children)
  {
    hide Reaches;
    forall b | b in children ensures Held(entries, b) && Reaches(entries, start, b) {
      ReachesStep(entries, start, x, b);
    }
  }

  lemma RootedExpand(start: Block, inner: set<Block>, seen: set<Block>, x: Block, children: set<Block>)
    requires AllRooted(start, inner, seen)
    requires forall b :: b in children ==> b.wire.prevHash == x.hash
    ensures AllRooted(start, inner + {x}, seen + children)
  {
    forall b | b in seen + children && b != start ensures ParentIn(inner + {x}, b) {
      if b in children {
        assert x in inner + {x};
      } else {
        var y :| y in inner && y.hash == b.wire.prevHash;
        assert y in inner + {x};
      }
    }
  }

  // Expanding an open block into its children keeps the walk in order.
  lemma WalkExpand(entries: map<Hash, Block>, age: Hash -> nat, start: Block,
                   inner: set<Block>, open: set<Block>, x: Block, children: set<Block>)
    requires Grounded(entries, age) && Held(entries, start)
    requires Walk(entries, start, inner, open) && x in open
    requires forall b :: b in children <==> ChildOf(entries, b, x.hash)
    ensures children !! inner + open
    ensures Walk(entries, start, inner + {x}, open - {x} + children)
  {
    hide AllReached, AllRooted, Grounded;
    forall b | b in children ensures b !in inner + open {
      ChildrenAreNew(entries, age, start, inner, open, x, b);
    }
    ReachedExpand(entries, start, inner + open, x, children);
    RootedExpand(start, inner, inner + open, x, children);
    assert (inner + {x}) + (open - {x} + children) == inner + open + children;
  }

  // Replacing a block by all of its children, at least one, keeps every full walk covered.
  lemma CoverExpand(entries: map<Hash, Block>, start: Block, open: set<Block>, x: Block, children: set<Block>)
    requires CoversTree(entries, start, open) && x in open
    requires children != {} && forall b :: b in children <==> ChildOf(entries, b, x.hash)
    ensures CoversTree(entries, start, open - {x} + children)
  {
    hide Reaches;
    var after := open - {x} + children;
    forall t | t in after ensures Reaches(entries, start, t) {
      if t in children {
        ReachesStep(entries, start, x, t);
      }
    }
    var child :| child in children;
    forall path: seq<Block> | FullDescent(entries, start, path) ensures Meets(path, after) {
      assert forall j :: 0 <= j < |path| - 1 ==> ChildOf(entries, path[j + 1], path[j].hash);
      assert Meets(path, open);
      var i :| 0 <= i < |path| && path[i] in open;
      if path[i] == x {
        assert ChildOf(entries, child, path[i].hash);
        assert path[i + 1] in after;
      } else {
        assert path[i] in after;
      }
    }
  }

  // ---- Counting ----

  lemma {:induction false} DistinctCount(blocks: seq<Block>)
    ensures |Elements(blocks)| <= |blocks|
    ensures NoDuplicates(blocks) <==> |Elements(blocks)| == |blocks|
  {
    if blocks == [] {
      assert Elements(blocks) == {};
    } else {
      var rest := blocks[1..];
      DistinctCount(rest);
      assert blocks == [blocks[0]] + rest;
      assert Elements(blocks) == Elements(rest) + {blocks[0]};
      if NoDuplicates(blocks) {
        assert NoDuplicates(rest) && blocks[0] !in rest;
      }
    }
  }

  lemma SubsetCount(s: set<Block>, t: set<Block>)
    requires s <= t
    ensures |s| <= |t|
  {
    assert t == s + (t - s);
  }

  lemma WalkWithinTree(entries: map<Hash, Block>, start: Block, inner: set<Block>, open: set<Block>)
    requires Walk(entries, start, inner, open)
    ensures |inner| + |open| <= |Tree(entries, start)|
  {
    forall b | b in inner + open ensures b in Tree(entries, start) {
      assert Held(entries, b) && Reaches(entries, start, entries[b.hash]);
    }
    SubsetCount(inner + open, Tree(entries, start));
  }

  // ---- No end below another ----

  lemma {:induction false} ReachedAlong(entries: map<Hash, Block>, start: Block, path: seq<Block>, i: nat)
    requires Descent(entries, path) && Held(entries, path[0]) && Reaches(entries, start, path[0]) && i < |path|
    ensures Held(entries, path[i]) && Reaches(entries, start, path[i])
  {
    if i > 0 {
      ReachedAlong(entries, start, path, i - 1);
      assert ChildOf(entries, path[i], path[i - 1].hash);
      ReachesStep(entries, start, path[i - 1], path[i]);
    }
  }

  lemma {:induction false} NotInside(entries: map<Hash, Block>, age: Hash -> nat, start: Block,
                                     inner: set<Block>, open: set<Block>, path: seq<Block>)
    requires Grounded(entries, age) && Held(entries, start)
    requires Walk(entries, start, inner, open)
    requires Descent(entries, path) && path[0] in open && |path| >= 2
    ensures path[|path| - 1] !in inner + open
    decreases |path|
  {
    hide Walk, Grounded, Reaches;
    var last := |path| - 1;
    assert ChildOf(entries, path[last], path[last - 1].hash);
    OpenIsReached(entries, start, inner, open, path[0]);
    ReachedAlong(entries, start, path, last - 1);
    var shorter := path[..last];
    assert Descent(entries, shorter) && shorter[0] == path[0];
    if last > 1 {
      NotInside(entries, age, start, inner, open, shorter);
    }
    if path[last] in inner + open {
      ParentInner(entries, age, start, inner, open, path[last - 1], path[last]);
    }
  }

  lemma OpenIsReached(entries: map<Hash, Block>, start: Block, inner: set<Block>, open: set<Block>, b: Block)
    requires Walk(entries, start, inner, open) && b in open
    ensures b !in inner && Held(entries, b) && Reaches(entries, start, b)
  {
    assert b in inner + open;
  }

  lemma WalkIsAntichain(entries: map<Hash, Block>, start: Block, inner: set<Block>, open: set<Block>)
    requires Acyclic(entries) && Held(entries, start) && Walk(entries, start, inner, open)
    ensures Antichain(entries, open)
  {
    hide Walk, Grounded;
    var age: Hash -> nat :| Grounded(entries, age);
    forall path: seq<Block> | Descent(entries, path) && |path| >= 2 && path[0] in open
      ensures path[|path| - 1] !in open
    {
      NotInside(entries, age, start, inner, open, path);
    }
  }

  lemma ReachedIsHeld(entries: map<Hash, Block>, start: Block, t: Block)
    requires Held(entries, start) && Reaches(entries, start, t)
    ensures Held(entries, t)
  {
    var path: seq<Block> :| Descent(entries, path) && path[0] == start && path[|path| - 1] == t;
    if |path| > 1 {
      assert ChildOf(entries, path[|path| - 1], path[|path| - 2].hash);
    }
  }

  lemma NoLeafBeforeEnd(entries: map<Hash, Block>, path: seq<Block>, i: nat)
    requires Descent(entries, path) && i + 1 < |path|
    ensures !Leaf(entries, path[i])
  {
    assert ChildOf(entries, path[i + 1], path[i].hash);
  }

  // Ends that are all leaves are all the leaves.
  lemma LeavesExactly(entries: map<Hash, Block>, start: Block, tips: seq<Block>)
    requires CoversTree(entries, start, Elements(tips)) && Held(entries, start)
    requires forall t :: t in tips ==> Leaf(entries, t)
    ensures forall t :: t in tips <==> t in Tree(entries, start) && Leaf(entries, t)
  {
    forall t | t in Tree(entries, start) && Leaf(entries, t) ensures t in tips {
      var path: seq<Block> :| Descent(entries, path) && path[0] == start && path[|path| - 1] == t;
      assert FullDescent(entries, start, path);
      assert Meets(path, Elements(tips));
      var i :| 0 <= i < |path| && path[i] in Elements(tips);
      if i + 1 < |path| {
        NoLeafBeforeEnd(entries, path, i);
      }
    }
    forall t | t in tips ensures t in Tree(entries, start) {
      assert t in Elements(tips);
      ReachedIsHeld(entries, start, t);
    }
  }

  // ---- The walk itself ----

  /** What holds throughout the walk. `ends` are finished, `stack` is still open; the
      count of `ends` and `stack` together shows that neither repeats a block. */
  ghost predicate Searching(entries: map<Hash, Block>, start: Block, inner: set<Block>,
                            ends: seq<Block>, stack: seq<Block>) {
    var open := Elements(ends) + Elements(stack);
    && CoversTree(entries, start, open)
    && (Acyclic(entries) ==> Walk(entries, start, inner, open) && |open| == |ends| + |stack|)
  }

  lemma SearchStarts(entries: map<Hash, Block>, start: Block)
    requires Held(entries, start)
    ensures Searching(entries, start, {}, [], [start])
  {
    assert Elements([]) + Elements([start]) == {start};
    assert Descent(entries, [start]);
    assert Reaches(entries, start, start);
    forall path: seq<Block> | FullDescent(entries, start, path) ensures Meets(path, {start}) {
      assert path[0] in {start};
    }
  }

  lemma SearchMoves(entries: map<Hash, Block>, start: Block, inner: set<Block>,
                    ends: seq<Block>, rest: seq<Block>, x: Block)
    requires Searching(entries, start, inner, ends, rest + [x])
    ensures Searching(entries, start, inner, ends + [x], rest)
  {
    assert Elements(ends) + Elements(rest + [x]) == Elements(ends + [x]) + Elements(rest);
  }

  // A block counted once more than the rest is not among them.
  lemma CountedOnce(ends: seq<Block>, rest: seq<Block>, x: Block)
    requires |Elements(ends) + Elements(rest + [x])| == |ends| + |rest| + 1
    ensures x !in Elements(ends) + Elements(rest)
  {
    assert Elements(ends + rest) == Elements(ends) + Elements(rest);
    DistinctCount(ends + rest);
    assert Elements(ends) + Elements(rest + [x]) == Elements(ends) + Elements(rest) + {x};
  }

  lemma CoverWiden(entries: map<Hash, Block>, start: Block, cut: set<Block>, wider: set<Block>)
    requires CoversTree(entries, start, cut) && cut <= wider
    requires forall t :: t in wider ==> Reaches(entries, start, t)
    ensures CoversTree(entries, start, wider)
  {
    hide Reaches;
    forall path: seq<Block> | FullDescent(entries, start, path) ensures Meets(path, wider) {
      assert Meets(path, cut);
    }
  }

  lemma SearchExpands(pool: Pool, start: Block, inner: set<Block>,
                      ends: seq<Block>, rest: seq<Block>, x: Block, children: seq<Block>)
    requires PoolOk(pool) && Held(pool.entries, start)
    requires Searching(pool.entries, start, inner, ends, rest + [x])
    requires children != [] && NoDuplicates(children)
    requires forall b :: b in children <==> ChildOf(pool.entries, b, x.hash)
    ensures Searching(pool.entries, start, inner + {x}, ends, rest + children)
    ensures Acyclic(pool.entries) ==> x !in inner
  {
    hide Walk, Grounded, Reaches, FullDescent, PoolOk;
    var entries := pool.entries;
    var open, after := Elements(ends) + Elements(rest + [x]), Elements(ends) + Elements(rest + children);
    assert children[0] in Elements(children);
    assert x in rest + [x] && x in open;
    CoverExpand(entries, start, open, x, Elements(children));
    assert open == Elements(ends) + Elements(rest) + {x};
    assert after == Elements(ends) + Elements(rest) + Elements(children);
    CoverWiden(entries, start, open - {x} + Elements(children), after);
    if Acyclic(entries) {
      var age: Hash -> nat :| Grounded(entries, age);
      WalkExpand(entries, age, start, inner, open, x, Elements(children));
      OpenIsReached(entries, start, inner, open, x);
      CountedOnce(ends, rest, x);
      assert after == open - {x} + Elements(children);
      DistinctCount(children);
    }
  }

  /** `find_fork_tips`: a depth-first walk with an explicit stack that expands at most
      100 blocks and takes whatever is still on the stack as ends too. */
  method FindForkTips(pool: OrphanPool, start: Block) returns (tips: seq<Block>)
    requires pool.Valid() && Held(pool.entries, start)
    ensures ForkTips(pool.entries, start, tips)
  {
    hide Searching, CoversTree, Walk, Antichain, Tree, PoolOk;
    ghost var entries := pool.entries;
    var stack, visited := [start], 0;
    tips := [];
    ghost var inner: set<Block> := {};
    SearchStarts(entries, start);
    while stack != [] && visited < MAX_FORK_DEPTH
      invariant Searching(entries, start, inner, tips, stack)
      invariant forall t :: t in tips ==> Leaf(entries, t)
      invariant Acyclic(entries) ==> visited == |inner| + |tips|
      decreases MAX_FORK_DEPTH - visited
    {
      var x, rest := stack[|stack| - 1], stack[..|stack| - 1];
      assert stack == rest + [x];
      var children := pool.ChildrenOf(x.hash);
      visited := visited + 1;
      if children == [] {
        SearchMoves(entries, start, inner, tips, rest, x);
        tips, stack := tips + [x], rest;
      } else {
        SearchExpands(pool.View(), start, inner, tips, rest, x, children);
        inner := inner + {x};
        stack := rest + children;
      }
    }
    ghost var exhausted := stack == [];
    SmallTreeExhausted(entries, start, inner, tips, stack);
    while stack != []
      invariant Searching(entries, start, inner, tips, stack)
      invariant exhausted ==> stack == [] && forall t :: t in tips ==> Leaf(entries, t)
    {
      var x, rest := stack[|stack| - 1], stack[..|stack| - 1];
      assert stack == rest + [x];
      SearchMoves(entries, start, inner, tips, rest, x);
      tips, stack := tips + [x], rest;
    }
    SearchEnds(entries, start, inner, tips, exhausted);
  }

  // In a tree of at most 100 blocks the walk never stops early.
  lemma SmallTreeExhausted(entries: map<Hash, Block>, start: Block, inner: set<Block>,
                           ends: seq<Block>, stack: seq<Block>)
    requires Searching(entries, start, inner, ends, stack)
    requires stack == [] || (Acyclic(entries) ==> |inner| + |ends| >= MAX_FORK_DEPTH)
    ensures Acyclic(entries) && |Tree(entries, start)| <= MAX_FORK_DEPTH ==> stack == []
  {
    hide Walk, CoversTree, Tree;
    if Acyclic(entries) {
      WalkWithinTree(entries, start, inner, Elements(ends) + Elements(stack));
    }
  }

  lemma SearchEnds(entries: map<Hash, Block>, start: Block, inner: set<Block>, tips: seq<Block>, exhausted: bool)
    requires Held(entries, start)
    requires Searching(entries, start, inner, tips, [])
    requires exhausted ==> forall t :: t in tips ==> Leaf(entries, t)
    requires Acyclic(entries) && |Tree(entries, start)| <= MAX_FORK_DEPTH ==> exhausted
    ensures ForkTips(entries, start, tips)
  {
    hide Walk, CoversTree, Tree, Antichain, Leaf;
    assert Elements(tips) + Elements([]) == Elements(tips);
    if Acyclic(entries) {
      DistinctCount(tips);
      WalkIsAntichain(entries, start, inner, Elements(tips));
    }
    if exhausted {
      LeavesExactly(entries, start, tips);
    }
  }
}
