/**
 A node that never catches up. Its chain has parted from a heavier node's so long ago that
 one answer does not reach beyond its own weight, and every answer starts at the same place.
 */
module Towers {
  import opened Types
  import opened Consensus
  import opened Chain
  import opened Codec
  import opened NodeModel
  import opened NodeInvariant
  import opened Runs
  import opened Sync
  import opened Rounds
  import opened Witnesses

  /** Wires for empty blocks, one on top of the other from genesis, all before the first
      adjustment. */
  ghost predicate Column(cfg: Config, known: iset<Wire>, ws: seq<Wire>, now: u64) {
    && BlocksCollisionFree(cfg.crypto, known) && Genesis(cfg.crypto).wire in known
    && 1 <= cfg.orphanCapacity && 1 <= cfg.mempoolCapacity
    && (cfg.params.retargetInterval < 2 || |ws| <= cfg.params.retargetInterval)
    && (forall i :: 0 <= i < |ws| ==>
          && ws[i] in known && ws[i].transactions == [] && ws[i].difficulty == cfg.params.initialDifficulty
          && MeetsTarget(cfg.crypto.blockHash(ws[i]), ws[i].difficulty)
          && 0 < ws[i].timestamp <= now + cfg.params.maxFutureDrift
          && ws[i].prevHash == if i == 0 then Genesis(cfg.crypto).hash else cfg.crypto.blockHash(ws[i - 1]))
    && (forall i, j :: 0 <= i < j < |ws| ==> ws[i].timestamp < ws[j].timestamp)
  }

  // The chain of genesis and the first `n` of them.
  function Tower(c: Crypto, ws: seq<Wire>, n: nat): seq<Block>
    requires n <= |ws|
  {
    if n == 0 then [Genesis(c)] else Append(Tower(c, ws, n - 1), Received(c, ws[n - 1]))
  }

  lemma {:induction false} TowerShape(c: Crypto, ws: seq<Wire>, n: nat)
    requires n <= |ws|
    ensures var t := Tower(c, ws, n);
      && |t| == n + 1 && t[0] == Genesis(c)
      && (forall i :: 1 <= i <= n ==> t[i].wire == ws[i - 1] && t[i].hash == c.blockHash(ws[i - 1]))
    decreases n
  {
    hide BlockWork, TipWork, Genesis;
    if n > 0 {
      TowerShape(c, ws, n - 1);
    }
  }

  lemma {:induction false} TowerFront(c: Crypto, ws: seq<Wire>, m: nat, n: nat)
    requires m <= n <= |ws|
    ensures |Tower(c, ws, n)| == n + 1 && Tower(c, ws, n)[..m + 1] == Tower(c, ws, m)
    decreases n
  {
    hide Append;
    TowerShape(c, ws, n);
    if m == n {
      assert Tower(c, ws, n)[..n + 1] == Tower(c, ws, n);
    } else {
      TowerFront(c, ws, m, n - 1);
      AppendFront(Tower(c, ws, n - 1), Received(c, ws[n - 1]), m + 1);
    }
  }

  lemma AppendFront(blocks: seq<Block>, b: Block, m: nat)
    requires m <= |blocks|
    ensures Append(blocks, b)[..m] == blocks[..m]
  {}

  lemma {:induction false} EqualTotal(blocks: seq<Block>, d: u32)
    requires blocks != [] && forall i :: 1 <= i < |blocks| ==> blocks[i].wire.difficulty == d
    ensures TotalWork(blocks) == (|blocks| - 1) * BlockWork(d)
    decreases |blocks|
  {
    hide BlockWork;
    if |blocks| > 1 {
      var init := blocks[..|blocks| - 1];
      EqualTotal(init, d);
      OnceMore(|blocks| - 2, BlockWork(d));
    }
  }

  lemma OnceMore(n: nat, w: nat)
    ensures (n + 1) * w == n * w + w
  {}

  lemma TowerWork(cfg: Config, known: iset<Wire>, ws: seq<Wire>, n: nat, now: u64)
    requires Column(cfg, known, ws, now) && n <= |ws|
    ensures TotalWork(Tower(cfg.crypto, ws, n)) == n * BlockWork(cfg.params.initialDifficulty)
  {
    hide BlockWork, BlocksCollisionFree, MeetsTarget, TotalWork, Genesis, Tower;
    TowerShape(cfg.crypto, ws, n);
    EqualTotal(Tower(cfg.crypto, ws, n), cfg.params.initialDifficulty);
  }

  lemma TowerYoung(cfg: Config, known: iset<Wire>, ws: seq<Wire>, n: nat, now: u64)
    requires Column(cfg, known, ws, now) && n < |ws|
    ensures var t := Tower(cfg.crypto, ws, n);
      && Young(cfg.params, t + [Received(cfg.crypto, ws[n])], now)
      && |t| == n + 1 && ws[n].prevHash == t[n].hash
  {
    hide BlocksCollisionFree, MeetsTarget, Tower;
    var t := Tower(cfg.crypto, ws, n);
    TowerShape(cfg.crypto, ws, n);
    var view := t + [Received(cfg.crypto, ws[n])];
    assert forall i :: 1 <= i < |view| ==> view[i].wire == ws[i - 1];
    assert view[0].wire.timestamp == 0;
    assert ws[n].prevHash == if n == 0 then Genesis(cfg.crypto).hash else cfg.crypto.blockHash(ws[n - 1]);
    assert n > 0 ==> t[n].hash == cfg.crypto.blockHash(ws[n - 1]);
  }

  lemma ColumnFacts(cfg: Config, known: iset<Wire>, ws: seq<Wire>, now: u64)
    requires Column(cfg, known, ws, now)
    ensures BlocksCollisionFree(cfg.crypto, known) && Genesis(cfg.crypto).wire in known
    ensures 1 <= cfg.orphanCapacity && 1 <= cfg.mempoolCapacity
    ensures forall i :: 0 <= i < |ws| ==>
              ws[i] in known && ws[i].transactions == [] && MeetsTarget(cfg.crypto.blockHash(ws[i]), ws[i].difficulty)
  {
    hide BlocksCollisionFree, MeetsTarget;
  }

  lemma RunOfNone(cfg: Config, known: iset<Wire>, withDisk: bool)
    requires BlocksCollisionFree(cfg.crypto, known) && Genesis(cfg.crypto).wire in known
    requires 1 <= cfg.orphanCapacity && 1 <= cfg.mempoolCapacity
    ensures Run(cfg, known, [Initial(cfg, withDisk)], [])
    ensures Initial(cfg, withDisk).blocks == [Genesis(cfg.crypto)]
  {
    hide BlocksCollisionFree, Genesis;
  }

  // Submitting them one after the other to a fresh node.
  lemma {:induction false} TowerRun(cfg: Config, known: iset<Wire>, withDisk: bool, ws: seq<Wire>, n: nat, now: u64)
    returns (states: seq<Node>, events: seq<Event>)
    requires Column(cfg, known, ws, now) && n <= |ws|
    ensures |states| == n + 1 && |events| == n && Run(cfg, known, states, events)
    ensures forall i :: 0 <= i < n ==> events[i] == SubmitBlock(Received(cfg.crypto, ws[i]), now)
    ensures states[n].blocks == Tower(cfg.crypto, ws, n)
    decreases n
  {
    hide Column, BlocksCollisionFree, MeetsTarget, Run, Young, Append, Genesis, Initial;
    ColumnFacts(cfg, known, ws, now);
    if n == 0 {
      states, events := [Initial(cfg, withDisk)], [];
      RunOfNone(cfg, known, withDisk);
    } else {
      states, events := TowerRun(cfg, known, withDisk, ws, n - 1, now);
      TowerYoung(cfg, known, ws, n - 1, now);
      var s := GrowsBy(cfg, known, states, events, ws[n - 1], now);
      states, events := states + [s], events + [SubmitBlock(Received(cfg.crypto, ws[n - 1]), now)];
    }
  }

  // Chains that part right above genesis share nothing else.
  lemma PartAtGenesis(cfg: Config, known: iset<Wire>, a: Node, b: Node)
    requires NodeOk(cfg, known, a) && NodeOk(cfg, known, b) && |a.blocks| >= 2 && |b.blocks| >= 2
    requires a.blocks[1].wire != b.blocks[1].wire
    ensures LocatorMatch(b.blocks, Locator(a.blocks)) == Some(0)
  {
    hide NodeOk, LocatorMatch, Locator;
    MatchIsCommon(cfg, known, a, b);
    AgreeBelow(a.blocks, b.blocks, LocatorMatch(b.blocks, Locator(a.blocks)).value, 1);
  }

  lemma AgreeBelow(s: seq<Block>, t: seq<Block>, m: nat, i: nat)
    requires Agree(s, t, m)
    ensures i <= m ==> s[i] == t[i]
  {
    assert i <= m ==> s[..m + 1][i] == t[..m + 1][i];
  }

  lemma WorkAt(cfg: Config, known: iset<Wire>, s: Node, ws: seq<Wire>, n: nat, k: nat, now: u64)
    requires NodeOk(cfg, known, s) && Column(cfg, known, ws, now) && k <= n <= |ws|
    requires s.blocks == Tower(cfg.crypto, ws, n) && n * BlockWork(cfg.params.initialDifficulty) < LIMIT64
    ensures k < |s.blocks| && s.blocks[k].cumulativeWork == k * BlockWork(cfg.params.initialDifficulty)
  {
    hide RulesOk, PoolSound, BlocksCollisionFree, AllSelfHashed, Linked, BlockWork, TotalWork, Column, Tower, WorkExact;
    TowerFront(cfg.crypto, ws, k, n);
    TowerWork(cfg, known, ws, k, now);
    LessOften(k, n, BlockWork(cfg.params.initialDifficulty));
    WorkIsSum(s.blocks, k);
  }

  lemma LessOften(k: nat, n: nat, w: nat)
    requires k <= n
    ensures k * w <= n * w && (k < n && w >= 1 ==> k * w < n * w)
  {}

  /** A heavier node can stay out of reach. The chains part right above genesis; `a`'s has at
      least as many blocks as one answer carries, and `b`'s has more. Both are in states of
      runs of submitted blocks, and `b` is strictly heavier. Its answer is not adopted; and as
      neither chain moves, it is the same the next time. */
  lemma NeverReached(cfg: Config, known: iset<Wire>, withDisk: bool, xs: seq<Wire>, ys: seq<Wire>, limit: nat, now: u64)
    returns (one: seq<Node>, oneEvents: seq<Event>, two: seq<Node>, twoEvents: seq<Event>)
    requires Column(cfg, known, xs, now) && Column(cfg, known, ys, now)
    requires 1 <= limit <= |xs| < |ys| && xs[0] != ys[0]
    requires |ys| * BlockWork(cfg.params.initialDifficulty) < LIMIT64
    ensures |one| == |xs| + 1 && Run(cfg, known, one, oneEvents)
    ensures |two| == |ys| + 1 && Run(cfg, known, two, twoEvents)
    ensures var a, b := one[|xs|], two[|ys|];
      && a.blocks == Tower(cfg.crypto, xs, |xs|) && b.blocks == Tower(cfg.crypto, ys, |ys|)
      && TipWork(b.blocks) > TipWork(a.blocks) && a.blocks != []
      && AdoptStep(cfg, a, AnswerTo(cfg, b, a, limit), now) == None
  {
    hide Run, Column, Tower, BlockWork, AdoptStep, NodeOk, LocatorMatch, Locator, AnswerTo;
    one, oneEvents := TowerRun(cfg, known, withDisk, xs, |xs|, now);
    two, twoEvents := TowerRun(cfg, known, withDisk, ys, |ys|, now);
    var a, b := one[|xs|], two[|ys|];
    RunInvariant(cfg, known, one, oneEvents, |xs|);
    RunInvariant(cfg, known, two, twoEvents, |ys|);
    TowerShape(cfg.crypto, xs, |xs|);
    TowerShape(cfg.crypto, ys, |ys|);
    PartAtGenesis(cfg, known, a, b);
    var w := BlockWork(cfg.params.initialDifficulty);
    LessOften(|xs|, |ys|, w);
    LessOften(limit, |xs|, w);
    WorkAt(cfg, known, a, xs, |xs|, |xs|, now);
    WorkAt(cfg, known, b, ys, |ys|, |ys|, now);
    WorkAt(cfg, known, b, ys, |ys|, limit, now);
    TowerWork(cfg, known, xs, |xs|, now);
    TowerInTime(cfg, known, b.blocks, ys, now);
    var m := LimitedAnswer(cfg, known, a, b, limit, now);
  }

  lemma TowerInTime(cfg: Config, known: iset<Wire>, blocks: seq<Block>, ws: seq<Wire>, now: u64)
    requires Column(cfg, known, ws, now) && blocks == Tower(cfg.crypto, ws, |ws|)
    ensures WithinDrift(cfg.params, blocks, 0, now)
  {
    hide BlocksCollisionFree, MeetsTarget, Tower, Genesis;
    TowerShape(cfg.crypto, ws, |ws|);
  }
}
