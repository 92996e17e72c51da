/**
 Catch-up sync: the block locator (src/core/BlockLocator.cpp), the answer to it,
 and the theorem that one exchange makes two nodes agree.
 */
module Sync {
  import opened Types
  import opened Accounting
  import opened Consensus
  import opened Chain
  import opened Forks
  import opened Codec
  import opened LedgerReorg
  import opened Pending
  import opened Disk
  import opened NodeModel
  import opened NodeInvariant

  // ---- The locator ----

  // The heights a locator lists from `height` down: ten in a row, then doubling steps, then 0.
  function LocatorHeights(height: nat, step: nat, taken: nat): seq<nat>
    requires step >= 1
    decreases height
  {
    if height == 0 then [0]
    else
      var wider := if taken + 1 >= 10 then 2 * step else step;
      [height] + if wider > height then [0] else LocatorHeights(height - wider, wider, taken + 1)
  }

  lemma HeightsUnfold(height: nat, step: nat, taken: nat)
    requires step >= 1
    ensures var wider := if taken + 1 >= 10 then 2 * step else step;
      LocatorHeights(height, step, taken) == if height == 0 then [0]
                                             else if wider > height then [height, 0]
                                             else [height] + LocatorHeights(height - wider, wider, taken + 1)
  {}

  // From `height` strictly down to 0.
  ghost predicate Descends(hs: seq<nat>, height: nat) {
    && |hs| >= 1 && hs[0] == height && hs[|hs| - 1] == 0
    && (forall i :: 0 <= i < |hs| - 1 ==> hs[i + 1] < hs[i])
  }

  lemma DescendsCons(height: nat, rest: seq<nat>, lower: nat)
    requires Descends(rest, lower) && lower < height
    ensures Descends([height] + rest, height)
  {
    var hs := [height] + rest;
    forall i | 0 <= i < |hs| - 1 ensures hs[i + 1] < hs[i] {
      assert hs[i + 1] == rest[i];
      if i > 0 {
        assert hs[i] == rest[i - 1];
      }
    }
  }

  /** A locator starts at the tip, runs strictly downwards and ends at genesis. */
  lemma {:induction false} LocatorShape(height: nat, step: nat, taken: nat)
    requires step >= 1
    ensures Descends(LocatorHeights(height, step, taken), height)
    decreases height
  {
    if height > 0 {
      var wider := if taken + 1 >= 10 then 2 * step else step;
      if wider <= height {
        LocatorShape(height - wider, wider, taken + 1);
        DescendsCons(height, LocatorHeights(height - wider, wider, taken + 1), height - wider);
      } else {
        assert Descends([0], 0);
        DescendsCons(height, [0], 0);
      }
    }
  }

  // Once the steps double, a locator is as short as the logarithm of what is left.
  lemma {:induction false} LocatorTail(height: nat, step: nat, taken: nat, k: nat)
    requires step >= 1 && taken >= 9 && height < step * Pow2(k)
    ensures |LocatorHeights(height, step, taken)| <= k + 2
    decreases height
  {
    if height > 0 && 2 * step <= height {
      assert Pow2(0) == 1 && step * Pow2(0) == step;
      assert k >= 1;
      assert step * Pow2(k) == 2 * step * Pow2(k - 1);
      LocatorTail(height - 2 * step, 2 * step, taken + 1, k - 1);
    }
  }

  lemma {:induction false} LocatorHead(height: nat, taken: nat, k: nat)
    requires taken <= 9 && height < Pow2(k)
    ensures |LocatorHeights(height, 1, taken)| <= (9 - taken) + k + 2
    decreases height
  {
    if taken == 9 {
      LocatorTail(height, 1, 9, k);
    } else if height > 0 {
      if 1 <= height {
        LocatorHead(height - 1, taken + 1, k);
      }
    }
  }

  // A chain of up to 2^64 blocks has a locator of at most 75 hashes.
  lemma LocatorIsShort(height: nat)
    requires height < LIMIT64
    ensures |LocatorHeights(height, 1, 0)| <= 75
  {
    TopPower();
    assert Pow2(64) == 2 * Pow2(63);
    hide Pow2;
    LocatorHead(height, 0, 64);
  }

  // The hashes at those heights.
  function LocatorFrom(blocks: seq<Block>, height: nat, step: nat, taken: nat): seq<Hash>
    requires step >= 1 && height < |blocks|
    decreases height
  {
    if height == 0 then [blocks[0].hash]
    else
      var wider := if taken + 1 >= 10 then 2 * step else step;
      [blocks[height].hash]
      + if wider > height then [blocks[0].hash] else LocatorFrom(blocks, height - wider, wider, taken + 1)
  }

  // `build_locator`
  function Locator(blocks: seq<Block>): seq<Hash>
    requires blocks != []
  {
    LocatorFrom(blocks, |blocks| - 1, 1, 0)
  }

  // What a locator lists after its first entry.
  function LocatorRest(blocks: seq<Block>, height: nat, step: nat, taken: nat): seq<Hash>
    requires step >= 1 && 0 < height < |blocks|
  {
    var wider := if taken + 1 >= 10 then 2 * step else step;
    if wider > height then [blocks[0].hash] else LocatorFrom(blocks, height - wider, wider, taken + 1)
  }

  lemma LocatorUnfolds(blocks: seq<Block>, height: nat, step: nat, taken: nat)
    requires step >= 1 && height < |blocks|
    ensures LocatorFrom(blocks, height, step, taken)
            == if height == 0 then [blocks[0].hash]
               else [blocks[height].hash] + LocatorRest(blocks, height, step, taken)
  {}

  // Every entry is a hash of the chain, and genesis comes last.
  ghost predicate OnChain(blocks: seq<Block>, hashes: seq<Hash>) {
    && blocks != [] && hashes != [] && hashes[|hashes| - 1] == blocks[0].hash
    && forall x :: x in hashes ==> HeightOf(blocks, x).Some?
  }

  lemma OnChainCons(blocks: seq<Block>, height: nat, rest: seq<Hash>)
    requires height < |blocks|
    ensures OnChain(blocks, [blocks[0].hash])
    ensures OnChain(blocks, rest) ==> OnChain(blocks, [blocks[height].hash] + rest)
  {
    hide HeightOf;
  }

  lemma {:induction false} LocatorEntries(blocks: seq<Block>, height: nat, step: nat, taken: nat)
    requires step >= 1 && height < |blocks|
    ensures OnChain(blocks, LocatorFrom(blocks, height, step, taken))
    decreases height
  {
    hide OnChain;
    OnChainCons(blocks, height, []);
    if height > 0 {
      OnChainCons(blocks, height, LocatorRest(blocks, height, step, taken));
      var wider := if taken + 1 >= 10 then 2 * step else step;
      if wider <= height {
        LocatorEntries(blocks, height - wider, wider, taken + 1);
      }
    }
  }

  lemma {:induction false} LocatorSize(blocks: seq<Block>, height: nat, step: nat, taken: nat)
    requires step >= 1 && height < |blocks|
    ensures |LocatorFrom(blocks, height, step, taken)| == |LocatorHeights(height, step, taken)|
    decreases height
  {
    hide LocatorFrom, LocatorHeights;
    LocatorUnfolds(blocks, height, step, taken);
    HeightsUnfold(height, step, taken);
    if height > 0 {
      var wider := if taken + 1 >= 10 then 2 * step else step;
      if wider <= height {
        LocatorSize(blocks, height - wider, wider, taken + 1);
      }
    }
  }

  method BuildLocator(chain: Blockchain) returns (hashes: seq<Hash>)
    requires chain.Valid()
    ensures hashes == Locator(chain.blocks)
  {
    hide LocatorFrom, DistinctHashes;
    ghost var blocks := chain.blocks;
    hashes := [];
    var step, height := 1, |chain.blocks| - 1;
    ghost var whole := Locator(blocks);
    while height > 0
      invariant 0 <= height < |blocks| && step >= 1
      invariant whole == hashes + LocatorFrom(blocks, height, step, |hashes|)
    {
      LocatorUnfolds(blocks, height, step, |hashes|);
      ghost var rest := LocatorRest(blocks, height, step, |hashes|);
      assert hashes + ([blocks[height].hash] + rest) == (hashes + [blocks[height].hash]) + rest;
      hashes := hashes + [chain.blocks[height].hash];
      if |hashes| >= 10 {
        step := step * 2;
      }
      if step > height {
        return hashes + [chain.blocks[0].hash];
      }
      height := height - step;
    }
    LocatorUnfolds(blocks, height, step, |hashes|);
    return hashes + [chain.blocks[0].hash];
  }

  // ---- Matching and answering ----

  // The height of the first hash of `locator` that is on the chain.
  function LocatorMatch(blocks: seq<Block>, locator: seq<Hash>): (r: Option<nat>)
    ensures r.Some? ==> exists i :: 0 <= i < |locator| && HeightOf(blocks, locator[i]) == r
    ensures r.None? ==> forall i :: 0 <= i < |locator| ==> HeightOf(blocks, locator[i]).None?
  {
    if locator == [] then None
    else if HeightOf(blocks, locator[0]).Some? then HeightOf(blocks, locator[0])
    else
      var r := LocatorMatch(blocks, locator[1..]);
      assert forall i :: 0 < i < |locator| ==> locator[i] == locator[1..][i - 1];
      assert r.Some? ==> exists i :: 0 < i < |locator| && HeightOf(blocks, locator[i]) == r by {
        if r.Some? {
          var j :| 0 <= j < |locator[1..]| && HeightOf(blocks, locator[1..][j]) == r;
          assert HeightOf(blocks, locator[j + 1]) == r;
        }
      }
      r
  }

  method FindLocatorMatch(chain: Blockchain, locator: seq<Hash>) returns (r: Option<nat>)
    requires chain.Valid() && DistinctHashes(chain.blocks)
    ensures r == LocatorMatch(chain.blocks, locator)
  {
    for i := 0 to |locator|
      invariant LocatorMatch(chain.blocks, locator) == LocatorMatch(chain.blocks, locator[i..])
    {
      assert locator[i..][0] == locator[i] && locator[i..][1..] == locator[i + 1..];
      var index := chain.FindHeight(locator[i]);
      if index.Some? {
        return index;
      }
    }
    return None;
  }

  // `blocks_after_locator`
  function BlocksAfter(blocks: seq<Block>, locator: seq<Hash>, limit: nat): seq<Block> {
    match LocatorMatch(blocks, locator)
    case None => []
    case Some(m) => if |blocks| <= m + 1 + limit then blocks[m + 1..] else blocks[m + 1..m + 1 + limit]
  }

  // The blocks as they arrive: wire fields intact, hashes recomputed.
  function ReceivedAll(c: Crypto, blocks: seq<Block>): (r: seq<Block>)
    ensures |r| == |blocks| && forall i :: 0 <= i < |r| ==> r[i] == Received(c, blocks[i].wire)
  {
    if blocks == [] then []
    else ReceivedAll(c, blocks[..|blocks| - 1]) + [Received(c, blocks[|blocks| - 1].wire)]
  }

  // ---- Convergence ----

  // The chains are equal up to and including height `q`.
  ghost predicate Agree(s: seq<Block>, t: seq<Block>, q: nat) {
    q < |s| && q < |t| && s[..q + 1] == t[..q + 1]
  }

  // `branch` carries the blocks of `blocks` above height `q`.
  ghost predicate RestOf(blocks: seq<Block>, q: nat, branch: seq<Block>) {
    && q < |blocks| && |branch| == |blocks| - (q + 1)
    && forall i :: 0 <= i < |branch| ==>
         branch[i].wire == blocks[q + 1 + i].wire && branch[i].hash == blocks[q + 1 + i].hash
  }

  /** The answer starts where the two chains still agree: up to the match they are equal
      block for block. */
  lemma MatchIsCommon(cfg: Config, known: iset<Wire>, a: Node, b: Node)
    requires NodeOk(cfg, known, a) && NodeOk(cfg, known, b)
    requires a.blocks != []
    ensures var r := LocatorMatch(b.blocks, Locator(a.blocks));
      r.Some? && Agree(a.blocks, b.blocks, r.value)
  {
    hide RulesOk, PoolSound, MempoolOk, BlocksCollisionFree, ProperChain;
    hide LocatorMatch, LocatorFrom, LocatorHeights, HeightOf;
    var hashes := Locator(a.blocks);
    LocatorEntries(a.blocks, |a.blocks| - 1, 1, 0);
    HasGenesis(cfg, known, a);
    HasGenesis(cfg, known, b);
    assert hashes[|hashes| - 1] == b.blocks[0].hash;
    var r := LocatorMatch(b.blocks, hashes);
    assert r.Some?;
    var i :| 0 <= i < |hashes| && HeightOf(b.blocks, hashes[i]) == r;
    assert hashes[i] in hashes;
    CommonPrefix(cfg.crypto, known, a.blocks, b.blocks, HeightOf(a.blocks, hashes[i]).value, r.value);
  }

  // A chain that is a prefix of another is not heavier.
  lemma PrefixNotHeavier(cfg: Config, known: iset<Wire>, a: Node, n: nat)
    requires NodeOk(cfg, known, a) && 1 <= n <= |a.blocks| && TotalWork(a.blocks) < LIMIT64
    ensures TipWork(a.blocks[..n]) <= TipWork(a.blocks)
  {
    hide RulesOk, PoolSound, MempoolOk, BlocksCollisionFree, AllSelfHashed, Linked, TotalWork, WorkExact, MirrorOf;
    var size := |a.blocks|;
    assert a.blocks[..size] == a.blocks;
    TotalWorkGrows(a.blocks, n, size);
    WorkIsSum(a.blocks, size - 1);
    WorkIsSum(a.blocks, n - 1);
  }

  // If all of `b` is on `a`'s chain, `b` is not heavier.
  lemma WholeNotHeavier(cfg: Config, known: iset<Wire>, a: Node, b: Node, q: nat)
    requires NodeOk(cfg, known, a) && TotalWork(a.blocks) < LIMIT64
    requires Agree(a.blocks, b.blocks, q) && q + 1 == |b.blocks|
    ensures TipWork(b.blocks) <= TipWork(a.blocks)
  {
    hide NodeOk, TipWork, TotalWork;
    assert b.blocks[..q + 1] == b.blocks;
    PrefixNotHeavier(cfg, known, a, q + 1);
  }

  // Every block above height `m` is within the drift allowed at time `now`.
  ghost predicate WithinDrift(p: Params, blocks: seq<Block>, m: nat, now: u64) {
    forall i :: m < i < |blocks| ==> blocks[i].wire.timestamp <= now + p.maxFutureDrift
  }

  // What is sent from height `m` up arrives with the same fields and hashes.
  lemma AnswerIsRest(cfg: Config, known: iset<Wire>, b: Node, m: nat)
    requires NodeOk(cfg, known, b) && m < |b.blocks|
    ensures RestOf(b.blocks, m, ReceivedAll(cfg.crypto, b.blocks[m + 1..]))
  {
    hide RulesOk, PoolSound, MempoolOk, BlocksCollisionFree, Linked, WorkExact, Genesis;
    var answer := ReceivedAll(cfg.crypto, b.blocks[m + 1..]);
    forall i | 0 <= i < |answer|
      ensures answer[i].wire == b.blocks[m + 1 + i].wire && answer[i].hash == b.blocks[m + 1 + i].hash
    {
      assert SelfHashed(cfg.crypto, known, b.blocks[m + 1 + i]);
    }
  }

  lemma RestSize(blocks: seq<Block>, m: nat, answer: seq<Block>)
    requires RestOf(blocks, m, answer)
    ensures m + 1 + |answer| == |blocks|
  {}

  lemma RestAt(blocks: seq<Block>, m: nat, answer: seq<Block>, i: nat)
    requires RestOf(blocks, m, answer) && i < |answer|
    ensures m + 1 + i < |blocks| && answer[i].hash == blocks[m + 1 + i].hash
  {}

  lemma RestOfRest(blocks: seq<Block>, m: nat, answer: seq<Block>, start: nat)
    requires RestOf(blocks, m, answer) && start < |answer|
    ensures RestOf(blocks, m + start, answer[start..])
  {}

  // The rest of a proper chain is a branch growing from where it was cut.
  lemma RestIsBranch(cfg: Config, known: iset<Wire>, b: Node, q: nat, branch: seq<Block>)
    requires NodeOk(cfg, known, b) && RestOf(b.blocks, q, branch) && branch != []
    ensures Linked(branch) && branch[0].wire.prevHash == b.blocks[q].hash
  {
    hide RulesOk, PoolSound, MempoolOk, BlocksCollisionFree, WorkExact, Genesis, AllSelfHashed;
  }

  // Skipping what `a` already has leads to a height both share; nothing is left only if `b` is not heavier.
  lemma AnswerAttaches(cfg: Config, known: iset<Wire>, a: Node, b: Node, m: nat, answer: seq<Block>)
    requires NodeOk(cfg, known, a) && NodeOk(cfg, known, b)
    requires Agree(a.blocks, b.blocks, m) && RestOf(b.blocks, m, answer)
    requires TotalWork(a.blocks) < LIMIT64
    ensures var start := KnownFront(a.blocks, answer);
      && Agree(a.blocks, b.blocks, m + start)
      && (start == |answer| ==> TipWork(b.blocks) <= TipWork(a.blocks))
  {
    hide NodeOk, TipWork, KnownFront, HeightOf, TotalWork, Agree, RestOf;
    var start := KnownFront(a.blocks, answer);
    RestSize(b.blocks, m, answer);
    if start > 0 {
      RestAt(b.blocks, m, answer, start - 1);
      KnownIsShared(cfg, known, a, b, m + start, HeightOf(a.blocks, answer[start - 1].hash).value);
    }
    if start == |answer| {
      WholeNotHeavier(cfg, known, a, b, m + start);
    }
  }

  lemma KnownIsShared(cfg: Config, known: iset<Wire>, a: Node, b: Node, q: nat, i: nat)
    requires NodeOk(cfg, known, a) && NodeOk(cfg, known, b)
    requires q < |b.blocks| && i < |a.blocks| && a.blocks[i].hash == b.blocks[q].hash
    ensures Agree(a.blocks, b.blocks, q)
  {
    hide RulesOk, PoolSound, MempoolOk, BlocksCollisionFree, ProperChain, MirrorOf;
    CommonPrefix(cfg.crypto, known, a.blocks, b.blocks, i, q);
  }

  lemma RestView(a: seq<Block>, b: seq<Block>, q: nat, branch: seq<Block>)
    requires Agree(a, b, q) && RestOf(b, q, branch)
    ensures var view := ForkView(a, q, branch);
      |view| == |b| == q + 1 + |branch| && SameBelow(b, view, |view|)
  {
    var view := ForkView(a, q, branch);
    forall i | 0 <= i < |view| ensures b[i].wire == view[i].wire {
      if i <= q {
        assert view[i] == a[..q + 1][i] == b[..q + 1][i];
      } else {
        assert view[i] == branch[i - (q + 1)];
      }
    }
  }

  // Judged by its own history, the new part passes at every height.
  lemma NewPartPasses(cfg: Config, a: Node, b: Node, q: nat, branch: seq<Block>, now: u64)
    requires RulesOk(cfg, b.blocks)
    requires Agree(a.blocks, b.blocks, q) && RestOf(b.blocks, q, branch)
    requires WithinDrift(cfg.params, b.blocks, q, now)
    ensures PassingFrom(cfg.params, ForkView(a.blocks, q, branch), q + 1, now) == |branch|
  {
    hide NextDifficulty, MedianTimePast, AllAuthentic, Transactions, RestOf;
    var view := ForkView(a.blocks, q, branch);
    RestView(a.blocks, b.blocks, q, branch);
    forall i | q + 1 <= i < |view| ensures ContextOk(cfg.params, view, i, now) {
      assert SameBelow(b.blocks, view, i + 1);
      RulesAtHeight(cfg.params, b.blocks, view, i);
    }
    PassingFromSplit(cfg.params, view, q + 1, now, |branch|);
  }

  lemma NewPartAuthentic(cfg: Config, b: Node, q: nat, branch: seq<Block>)
    requires RulesOk(cfg, b.blocks) && RestOf(b.blocks, q, branch)
    ensures AllAuthentic(cfg.crypto, Transactions(branch))
  {
    hide TimestampsOk, DifficultiesOk, Transactions, Authentic;
    assert b.blocks == b.blocks[..q + 1] + b.blocks[q + 1..];
    TransactionsConcat(b.blocks[..q + 1], b.blocks[q + 1..]);
    TransactionsOfWires(branch, b.blocks[q + 1..]);
  }

  lemma HeightAt(cfg: Config, known: iset<Wire>, a: Node, b: Node, q: nat)
    requires NodeOk(cfg, known, a) && Agree(a.blocks, b.blocks, q)
    ensures a.blocks[q] == b.blocks[q] && HeightOf(a.blocks, a.blocks[q].hash) == Some(q)
  {
    hide RulesOk, PoolSound, MempoolOk, BlocksCollisionFree, ProperChain, MirrorOf;
    ProperChainDistinct(cfg.crypto, known, a.blocks);
    assert a.blocks[q] == a.blocks[..q + 1][q] == b.blocks[..q + 1][q];
  }

  // Switching to the rest of `b`'s chain gives `b`'s chain, and carries its work.
  lemma RestRebuilds(cfg: Config, known: iset<Wire>, a: Node, b: Node, q: nat, branch: seq<Block>)
    requires NodeOk(cfg, known, b) && Agree(a.blocks, b.blocks, q) && RestOf(b.blocks, q, branch)
    ensures AppendAll(a.blocks[..q + 1], branch) == b.blocks
    ensures Weight(ForkChain(branch, a.blocks[q])) == TipWork(b.blocks)
  {
    hide RulesOk, PoolSound, MempoolOk, BlocksCollisionFree, AllSelfHashed, Linked, BlockWork;
    AppendAllRebuilds(b.blocks, q + 1, branch);
    AppendAllWork(a.blocks[..q + 1], branch);
    assert a.blocks[..q + 1][q] == a.blocks[q];
  }

  lemma WholeCandidate(p: Params, blocks: seq<Block>, answer: seq<Block>, now: u64, h: nat, branch: seq<Block>)
    requires KnownFront(blocks, answer) < |answer| && branch == answer[KnownFront(blocks, answer)..]
    requires h < |blocks| && branch[0].wire.prevHash == blocks[h].hash && HeightOf(blocks, blocks[h].hash) == Some(h)
    requires Linked(branch) && PassingFrom(p, ForkView(blocks, h, branch), h + 1, now) == |branch|
    ensures AdoptCandidate(p, blocks, answer, now) == Some(ForkChain(branch, blocks[h]))
  {
    hide KnownFront, Linked, HeightOf, PassingFrom, ForkView;
    assert branch[0] == answer[KnownFront(blocks, answer)];
    assert branch[..|branch|] == branch;
  }

  // The branch `adopt_branch` extracts from the answer is exactly the new part.
  lemma AdoptsNewPart(cfg: Config, known: iset<Wire>, a: Node, b: Node, m: nat, answer: seq<Block>, now: u64)
    returns (q: nat, branch: seq<Block>)
    requires NodeOk(cfg, known, a) && NodeOk(cfg, known, b)
    requires Agree(a.blocks, b.blocks, m) && RestOf(b.blocks, m, answer)
    requires TotalWork(a.blocks) < LIMIT64 && KnownFront(a.blocks, answer) < |answer|
    requires WithinDrift(cfg.params, b.blocks, m, now)
    ensures Agree(a.blocks, b.blocks, q) && RestOf(b.blocks, q, branch)
    ensures AdoptCandidate(cfg.params, a.blocks, answer, now) == Some(ForkChain(branch, a.blocks[q]))
  {
    hide NodeOk, TipWork, TotalWork, KnownFront, Linked, HeightOf, PassingFrom, RestOf, AdoptCandidate, ForkView;
    AnswerAttaches(cfg, known, a, b, m, answer);
    var start := KnownFront(a.blocks, answer);
    q, branch := m + start, answer[start..];
    RestOfRest(b.blocks, m, answer, start);
    RestIsBranch(cfg, known, b, q, branch);
    HeightAt(cfg, known, a, b, q);
    Obeys(cfg, known, b);
    NewPartPasses(cfg, a, b, q, branch, now);
    WholeCandidate(cfg.params, a.blocks, answer, now, q, branch);
  }

  lemma Obeys(cfg: Config, known: iset<Wire>, s: Node)
    requires NodeOk(cfg, known, s)
    ensures RulesOk(cfg, s.blocks)
  {}

  // Handed exactly the rest of a chain, `try_reorg` switches to it if and only if it is heavier.
  lemma SwitchesToRest(cfg: Config, known: iset<Wire>, a: Node, b: Node, q: nat, branch: seq<Block>)
    requires NodeOk(cfg, known, a) && NodeOk(cfg, known, b)
    requires Agree(a.blocks, b.blocks, q) && RestOf(b.blocks, q, branch)
    ensures var r := TryReorg(cfg, a, ForkChain(branch, a.blocks[q]));
      && (r.Some? <==> TipWork(b.blocks) > TipWork(a.blocks))
      && (r.Some? ==> r.value.blocks == b.blocks)
  {
    hide NodeOk, TipWork, RestOf, AppendAll, Weight, AllAuthentic, Reorganised, Reoffer, ReplaceFrom, HeightOf;
    HeightAt(cfg, known, a, b, q);
    RestRebuilds(cfg, known, a, b, q, branch);
    Obeys(cfg, known, b);
    NewPartAuthentic(cfg, b, q, branch);
  }

  // A node that has one of `b`'s blocks has all those below it.
  lemma KnownBelow(cfg: Config, known: iset<Wire>, a: Node, b: Node, m: nat, k: nat)
    requires NodeOk(cfg, known, a) && NodeOk(cfg, known, b) && m <= k < |b.blocks|
    requires HeightOf(a.blocks, b.blocks[k].hash).Some?
    ensures HeightOf(a.blocks, b.blocks[m].hash).Some?
  {
    hide NodeOk, HeightOf;
    KnownIsShared(cfg, known, a, b, k, HeightOf(a.blocks, b.blocks[k].hash).value);
    assert a.blocks[..k + 1][m] == b.blocks[..k + 1][m];
    assert a.blocks[m].hash == b.blocks[m].hash;
  }

  lemma NothingNew(p: Params, blocks: seq<Block>, answer: seq<Block>, now: u64)
    requires KnownFront(blocks, answer) == |answer|
    ensures AdoptCandidate(p, blocks, answer, now).None?
  {}

  // An answer that starts above a block `a` does not have leads nowhere.
  lemma DetachedAnswer(cfg: Config, known: iset<Wire>, a: Node, b: Node, m: nat, answer: seq<Block>, now: u64)
    requires NodeOk(cfg, known, a) && NodeOk(cfg, known, b) && RestOf(b.blocks, m, answer)
    requires HeightOf(a.blocks, b.blocks[m].hash).None?
    ensures AdoptCandidate(cfg.params, a.blocks, answer, now).None?
  {
    hide NodeOk, HeightOf, Linked, ValidPrefix;
    if answer != [] {
      assert answer[0].hash == b.blocks[m + 1 + 0].hash;
      RestIsBranch(cfg, known, b, m, answer);
      if HeightOf(a.blocks, b.blocks[m + 1].hash).Some? {
        KnownBelow(cfg, known, a, b, m, m + 1);
      }
    }
  }

  /** Adopting an answer, whenever it arrives. `b` answered some locator from height `m`
      on, with all it has, and its blocks above `m` are within the drift of `a`'s clock.
      Then `a` adopts the answer exactly when it still has `b`'s block at height `m` and
      `b` is strictly heavier than `a` is now; its chain then becomes `b`'s block for block,
      cumulative work included. */
  lemma LateAdoption(cfg: Config, known: iset<Wire>, a: Node, b: Node, m: nat, now: u64)
    requires NodeOk(cfg, known, a) && NodeOk(cfg, known, b) && m < |b.blocks|
    requires TotalWork(a.blocks) < LIMIT64
    requires WithinDrift(cfg.params, b.blocks, m, now)
    ensures var r := AdoptStep(cfg, a, ReceivedAll(cfg.crypto, b.blocks[m + 1..]), now);
      && (r.Some? <==> HeightOf(a.blocks, b.blocks[m].hash).Some? && TipWork(b.blocks) > TipWork(a.blocks))
      && (r.Some? ==> r.value.blocks == b.blocks)
  {
    hide NodeOk, TipWork, TotalWork, KnownFront, AdoptCandidate, WithinDrift, TryReorg, HeightOf;
    hide RestOf, ReceivedAll;
    var answer := ReceivedAll(cfg.crypto, b.blocks[m + 1..]);
    AnswerIsRest(cfg, known, b, m);
    var here := HeightOf(a.blocks, b.blocks[m].hash);
    if here.Some? {
      KnownIsShared(cfg, known, a, b, m, here.value);
      AnswerAttaches(cfg, known, a, b, m, answer);
      if KnownFront(a.blocks, answer) == |answer| {
        NothingNew(cfg.params, a.blocks, answer, now);
      } else {
        var q, branch := AdoptsNewPart(cfg, known, a, b, m, answer, now);
        SwitchesToRest(cfg, known, a, b, q, branch);
      }
    } else {
      DetachedAnswer(cfg, known, a, b, m, answer, now);
    }
  }

  /** Convergence. Two nodes with the same parameters, each in a state some run can
      reach; `b` strictly heavier than `a`, and its blocks above the match within the
      limit of one answer and within the drift of `a`'s clock. Then `a` adopts `b`'s
      answer to its locator, and its chain becomes `b`'s block for block, cumulative
      work included. */
  lemma Convergence(cfg: Config, known: iset<Wire>, a: Node, b: Node, limit: nat, now: u64)
    requires NodeOk(cfg, known, a) && NodeOk(cfg, known, b)
    requires a.blocks != []
    requires TotalWork(a.blocks) < LIMIT64 && TipWork(b.blocks) > TipWork(a.blocks)
    requires var m := LocatorMatch(b.blocks, Locator(a.blocks));
      m.Some? ==> |b.blocks| <= m.value + 1 + limit && WithinDrift(cfg.params, b.blocks, m.value, now)
    ensures var answer := ReceivedAll(cfg.crypto, BlocksAfter(b.blocks, Locator(a.blocks), limit));
      AdoptStep(cfg, a, answer, now).Some? && AdoptStep(cfg, a, answer, now).value.blocks == b.blocks
  {
    hide NodeOk, Locator, LocatorMatch, TipWork, TotalWork, WithinDrift, AdoptStep, ReceivedAll, HeightOf;
    MatchIsCommon(cfg, known, a, b);
    var m := LocatorMatch(b.blocks, Locator(a.blocks)).value;
    HeightAt(cfg, known, a, b, m);
    LateAdoption(cfg, known, a, b, m, now);
  }
}
