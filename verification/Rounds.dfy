/**
 Answers that do not fit one response. At most `limit` blocks are sent at a time, so
 that a node behind a long chain sees only the front of what is missing.
 */
module Rounds {
  import opened Types
  import opened Accounting
  import opened Consensus
  import opened Chain
  import opened Pending
  import opened Disk
  import opened NodeModel
  import opened NodeInvariant
  import opened Sync

  // A node with only the first `n` blocks of `b`'s chain.
  function Front(b: Node, n: nat): Node
    requires n <= |b.blocks|
  {
    b.(blocks := b.blocks[..n], disk := None)
  }

  lemma FrontObeys(cfg: Config, blocks: seq<Block>, n: nat)
    requires RulesOk(cfg, blocks) && n <= |blocks|
    ensures RulesOk(cfg, blocks[..n])
  {
    hide NextDifficulty, MedianTimePast, Transactions, Authentic;
    var front := blocks[..n];
    forall h | 1 <= h < n
      ensures front[h].wire.timestamp > MedianTimePast(h, cfg.params.mtpWindow, front)
      ensures front[h].wire.difficulty == NextDifficulty(h, cfg.params, front)
    {
      assert SameBelow(blocks, front, h);
      RulesReadBelow(cfg.params, blocks, front, h);
    }
    assert blocks == front + blocks[n..];
    TransactionsConcat(front, blocks[n..]);
  }

  lemma FrontOk(cfg: Config, known: iset<Wire>, b: Node, n: nat)
    requires NodeOk(cfg, known, b) && 1 <= n <= |b.blocks|
    ensures NodeOk(cfg, known, Front(b, n))
  {
    hide RulesOk, PoolSound, MempoolOk, BlocksCollisionFree, ProperChain;
    FrontObeys(cfg, b.blocks, n);
    PrefixProper(cfg.crypto, known, b.blocks, n);
  }

  /** An answer cut off at height `n` is adopted exactly when the block it builds on is still
      on `a`'s chain and the part of `b`'s chain up to there outweighs `a`'s tip; `a` then
      has that part, cumulative work included. */
  lemma CutAnswer(cfg: Config, known: iset<Wire>, a: Node, b: Node, m: nat, n: nat, now: u64)
    requires NodeOk(cfg, known, a) && NodeOk(cfg, known, b) && m < n <= |b.blocks|
    requires TotalWork(a.blocks) < LIMIT64 && WithinDrift(cfg.params, b.blocks, m, now)
    ensures var r := AdoptStep(cfg, a, ReceivedAll(cfg.crypto, b.blocks[m + 1..n]), now);
      && (r.Some? <==> && HeightOf(a.blocks, b.blocks[m].hash).Some?
                       && b.blocks[n - 1].cumulativeWork > TipWork(a.blocks))
      && (r.Some? ==> r.value.blocks == b.blocks[..n])
  {
    hide NodeOk, TotalWork, AdoptStep, ReceivedAll, HeightOf;
    var front := Front(b, n);
    FrontOk(cfg, known, b, n);
    assert WithinDrift(cfg.params, front.blocks, m, now) && TipWork(front.blocks) == b.blocks[n - 1].cumulativeWork;
    assert front.blocks[m + 1..] == b.blocks[m + 1..n] && front.blocks[m] == b.blocks[m];
    LateAdoption(cfg, known, a, front, m, now);
  }

  // What `b` answers to `a`'s locator, as it arrives.
  function AnswerTo(cfg: Config, b: Node, a: Node, limit: nat): seq<Block>
    requires a.blocks != []
  {
    ReceivedAll(cfg.crypto, BlocksAfter(b.blocks, Locator(a.blocks), limit))
  }

  // Where one answer from height `m` on ends.
  function EndOf(blocks: seq<Block>, m: nat, limit: nat): nat {
    if |blocks| <= m + 1 + limit then |blocks| else m + 1 + limit
  }

  /** One answer of at most `limit` blocks to `a`'s locator: it is adopted exactly when the
      part of `b`'s chain it reaches outweighs `a`'s tip. */
  lemma LimitedAnswer(cfg: Config, known: iset<Wire>, a: Node, b: Node, limit: nat, now: u64) returns (m: nat)
    requires NodeOk(cfg, known, a) && NodeOk(cfg, known, b) && a.blocks != []
    requires TotalWork(a.blocks) < LIMIT64
    requires var start := LocatorMatch(b.blocks, Locator(a.blocks));
      start.Some? ==> WithinDrift(cfg.params, b.blocks, start.value, now)
    ensures LocatorMatch(b.blocks, Locator(a.blocks)) == Some(m) && m < EndOf(b.blocks, m, limit) <= |b.blocks|
    ensures var n := EndOf(b.blocks, m, limit);
      var r := AdoptStep(cfg, a, AnswerTo(cfg, b, a, limit), now);
      && (r.Some? <==> b.blocks[n - 1].cumulativeWork > TipWork(a.blocks))
      && (r.Some? ==> r.value.blocks == b.blocks[..n])
  {
    hide NodeOk, Locator, LocatorMatch, TipWork, TotalWork, WithinDrift, AdoptStep, ReceivedAll, HeightOf, Agree;
    hide BlocksAfter, EndOf;
    MatchIsCommon(cfg, known, a, b);
    m := LocatorMatch(b.blocks, Locator(a.blocks)).value;
    HeightAt(cfg, known, a, b, m);
    AnswerSlice(b.blocks, Locator(a.blocks), m, limit);
    CutAnswer(cfg, known, a, b, m, EndOf(b.blocks, m, limit), now);
  }

  lemma AnswerSlice(blocks: seq<Block>, locator: seq<Hash>, m: nat, limit: nat)
    requires LocatorMatch(blocks, locator) == Some(m) && m < |blocks|
    ensures m < EndOf(blocks, m, limit) <= |blocks|
    ensures BlocksAfter(blocks, locator, limit) == blocks[m + 1..EndOf(blocks, m, limit)]
  {
    hide LocatorMatch;
  }

  // ---- Round after round ----

  // `a` has the first blocks of `b`'s chain and nothing else.
  predicate Behind(a: Node, b: Node) {
    a.blocks != [] && |a.blocks| <= |b.blocks| && a.blocks == b.blocks[..|a.blocks|]
  }

  // The tip of a node that is behind is the first locator entry, and is known.
  lemma BehindMatchesTip(cfg: Config, known: iset<Wire>, a: Node, b: Node)
    requires NodeOk(cfg, known, b) && Behind(a, b)
    ensures LocatorMatch(b.blocks, Locator(a.blocks)) == Some(|a.blocks| - 1)
  {
    hide NodeOk, HeightOf;
    var k := |a.blocks| - 1;
    assert a.blocks[k] == b.blocks[..k + 1][k] == b.blocks[k];
    assert Agree(b.blocks, b.blocks, k);
    HeightAt(cfg, known, b, b, k);
    LocatorUnfolds(a.blocks, k, 1, 0);
    assert Locator(a.blocks)[0] == a.blocks[k].hash;
  }

  // A longer front weighs more.
  lemma LongerWeighsMore(cfg: Config, known: iset<Wire>, b: Node, m: nat, n: nat)
    requires NodeOk(cfg, known, b) && 1 <= m < n <= |b.blocks| && TotalWork(b.blocks) < LIMIT64
    ensures b.blocks[m - 1].cumulativeWork < b.blocks[n - 1].cumulativeWork
    ensures TotalWork(b.blocks[..m]) < LIMIT64
  {
    hide RulesOk, PoolSound, MempoolOk, BlocksCollisionFree, AllSelfHashed, Linked, TotalWork, WorkExact, MirrorOf;
    var size := |b.blocks|;
    assert b.blocks[..size] == b.blocks;
    TotalWorkGrows(b.blocks, m, n);
    TotalWorkGrows(b.blocks, n, size);
    WorkIsSum(b.blocks, n - 1);
    WorkIsSum(b.blocks, m - 1);
  }

  // Each state follows from the one before by adopting one answer of `b` to its locator.
  ghost predicate Answered(cfg: Config, b: Node, limit: nat, now: u64, states: seq<Node>) {
    forall i :: 0 <= i < |states| - 1 ==>
      && states[i].blocks != []
      && AdoptStep(cfg, states[i], AnswerTo(cfg, b, states[i], limit), now) == Some(states[i + 1])
  }

  lemma AnswerIsKnown(cfg: Config, known: iset<Wire>, b: Node, locator: seq<Hash>, limit: nat)
    requires NodeOk(cfg, known, b)
    ensures AllSelfHashed(cfg.crypto, known, ReceivedAll(cfg.crypto, BlocksAfter(b.blocks, locator, limit)))
  {
    hide RulesOk, PoolSound, MempoolOk, BlocksCollisionFree, Linked, WorkExact, Genesis, LocatorMatch;
    var blocks := BlocksAfter(b.blocks, locator, limit);
    forall i | 0 <= i < |blocks| ensures blocks[i].wire in known {
      var m := LocatorMatch(b.blocks, locator).value;
      assert blocks[i] == b.blocks[m + 1 + i];
      assert SelfHashed(cfg.crypto, known, b.blocks[m + 1 + i]);
    }
  }

  lemma OneRound(cfg: Config, known: iset<Wire>, a: Node, b: Node, limit: nat, now: u64) returns (a': Node)
    requires NodeOk(cfg, known, a) && NodeOk(cfg, known, b) && Behind(a, b) && |a.blocks| < |b.blocks| && limit >= 1
    requires TotalWork(b.blocks) < LIMIT64 && WithinDrift(cfg.params, b.blocks, |a.blocks| - 1, now)
    ensures AdoptStep(cfg, a, AnswerTo(cfg, b, a, limit), now) == Some(a')
    ensures NodeOk(cfg, known, a') && Behind(a', b) && |a'.blocks| == EndOf(b.blocks, |a.blocks| - 1, limit)
  {
    hide NodeOk, Locator, LocatorMatch, TotalWork, WithinDrift, AdoptStep, ReceivedAll, BlocksAfter, AllSelfHashed;
    var k := |a.blocks|;
    BehindMatchesTip(cfg, known, a, b);
    LongerWeighsMore(cfg, known, b, k, EndOf(b.blocks, k - 1, limit));
    assert a.blocks[k - 1] == b.blocks[..k][k - 1];
    var m := LimitedAnswer(cfg, known, a, b, limit, now);
    var answer := AnswerTo(cfg, b, a, limit);
    a' := AdoptStep(cfg, a, answer, now).value;
    AnswerIsKnown(cfg, known, b, Locator(a.blocks), limit);
    AdoptKeeps(cfg, known, a, answer, now);
  }

  /** A node that is behind catches up however long the gap is: after as many answers as it
      takes, and no more, its chain is `b`'s. */
  lemma {:induction false} RoundsConverge(cfg: Config, known: iset<Wire>, a: Node, b: Node, limit: nat, now: u64)
    returns (states: seq<Node>)
    requires NodeOk(cfg, known, a) && NodeOk(cfg, known, b) && Behind(a, b) && limit >= 1
    requires TotalWork(b.blocks) < LIMIT64 && WithinDrift(cfg.params, b.blocks, |a.blocks| - 1, now)
    ensures states != [] && states[0] == a && states[|states| - 1].blocks == b.blocks
    ensures Answered(cfg, b, limit, now, states)
    ensures (|states| - 1) * limit < |b.blocks| - |a.blocks| + limit
    decreases |b.blocks| - |a.blocks|
  {
    hide NodeOk, TotalWork, AdoptStep, ReceivedAll, BlocksAfter, Locator;
    if |a.blocks| == |b.blocks| {
      states := [a];
      assert b.blocks[..|a.blocks|] == b.blocks;
    } else {
      var a' := OneRound(cfg, known, a, b, limit, now);
      var rest := RoundsConverge(cfg, known, a', b, limit, now);
      states := [a] + rest;
      AnsweredCons(cfg, b, limit, now, a, rest);
      RoundCount(|rest| - 1, limit, |a.blocks|, |a'.blocks|, |b.blocks|);
    }
  }

  lemma AnsweredCons(cfg: Config, b: Node, limit: nat, now: u64, a: Node, rest: seq<Node>)
    requires rest != [] && Answered(cfg, b, limit, now, rest) && a.blocks != []
    requires AdoptStep(cfg, a, AnswerTo(cfg, b, a, limit), now) == Some(rest[0])
    ensures Answered(cfg, b, limit, now, [a] + rest)
  {
    hide AdoptStep, ReceivedAll, BlocksAfter, Locator;
    var states := [a] + rest;
    forall i | 0 <= i < |states| - 1
      ensures states[i].blocks != []
      ensures AdoptStep(cfg, states[i], AnswerTo(cfg, b, states[i], limit), now) == Some(states[i + 1])
    {
      if i > 0 {
        assert states[i] == rest[i - 1] && states[i + 1] == rest[i - 1 + 1];
      }
    }
  }

  lemma RoundCount(rounds: nat, limit: nat, from: nat, next: nat, size: nat)
    requires limit >= 1 && from < next <= size && (next == size || next == from + limit)
    requires rounds * limit < size - next + limit
    ensures (rounds + 1) * limit < size - from + limit
  {
    AtLeastOnce(rounds, limit);
  }

  lemma AtLeastOnce(rounds: nat, limit: nat)
    ensures rounds >= 1 ==> rounds * limit >= limit
    ensures (rounds + 1) * limit == rounds * limit + limit
  {}

  /** A node on another branch: if the part of `b`'s chain that the first answer reaches
      outweighs its tip, it catches up all the way; if not, it adopts nothing. */
  lemma ForkedRounds(cfg: Config, known: iset<Wire>, a: Node, b: Node, limit: nat, now: u64)
    returns (m: nat, states: seq<Node>)
    requires NodeOk(cfg, known, a) && NodeOk(cfg, known, b) && a.blocks != [] && limit >= 1
    requires TotalWork(a.blocks) < LIMIT64 && TotalWork(b.blocks) < LIMIT64
    requires var start := LocatorMatch(b.blocks, Locator(a.blocks));
      start.Some? ==> WithinDrift(cfg.params, b.blocks, start.value, now)
    ensures LocatorMatch(b.blocks, Locator(a.blocks)) == Some(m) && m < EndOf(b.blocks, m, limit) <= |b.blocks|
    ensures states != [] && states[0] == a && Answered(cfg, b, limit, now, states)
    ensures if b.blocks[EndOf(b.blocks, m, limit) - 1].cumulativeWork > TipWork(a.blocks)
            then states[|states| - 1].blocks == b.blocks
            else AdoptStep(cfg, a, AnswerTo(cfg, b, a, limit), now) == None
  {
    hide NodeOk, TotalWork, AdoptStep, ReceivedAll, BlocksAfter, Locator, LocatorMatch, TipWork, AllSelfHashed;
    m := LimitedAnswer(cfg, known, a, b, limit, now);
    var n := EndOf(b.blocks, m, limit);
    states := [a];
    if b.blocks[n - 1].cumulativeWork > TipWork(a.blocks) {
      var answer := AnswerTo(cfg, b, a, limit);
      var a' := AdoptStep(cfg, a, answer, now).value;
      AnswerIsKnown(cfg, known, b, Locator(a.blocks), limit);
      AdoptKeeps(cfg, known, a, answer, now);
      var rest := RoundsConverge(cfg, known, a', b, limit, now);
      states := [a] + rest;
      AnsweredCons(cfg, b, limit, now, a, rest);
    }
  }
}
