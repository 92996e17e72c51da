/**
 Catch-up answers with other blocks among them. During a catch-up everything that the
 chosen peer sends is buffered, not only its answer; the buffer is adopted as a whole or
 not at all.
 */
module Noise {
  import opened Types
  import opened Accounting
  import opened LedgerReorg
  import opened Consensus
  import opened Chain
  import opened Forks
  import opened Pending
  import opened Disk
  import opened NodeModel
  import opened NodeInvariant
  import opened Sync

  // What is left of the buffer after the blocks at its front that `a` already has.
  function Unknown(a: Node, buffer: seq<Block>): seq<Block> {
    buffer[KnownFront(a.blocks, buffer)..]
  }

  // How many of the blocks `more` are valid, one after the other, on top of `blocks`.
  function ValidOnTop(p: Params, blocks: seq<Block>, more: seq<Block>, now: u64): (k: nat)
    ensures k <= |more|
  {
    PassingFrom(p, blocks + more, |blocks|, now)
  }

  /** The unknown part of the buffer is a linked branch that starts with exactly `b`'s blocks
      above height `h`, up to which the chains agree. */
  ghost predicate StartsWith(a: Node, b: Node, buffer: seq<Block>, h: nat) {
    var rest := Unknown(a, buffer);
    && Agree(a.blocks, b.blocks, h) && Linked(rest)
    && |b.blocks| - (h + 1) <= |rest| && RestOf(b.blocks, h, rest[..|b.blocks| - (h + 1)])
  }

  // What follows them.
  function Extra(a: Node, b: Node, buffer: seq<Block>, h: nat): seq<Block>
    requires h < |b.blocks| && |b.blocks| - (h + 1) <= |Unknown(a, buffer)|
  {
    Unknown(a, buffer)[|b.blocks| - (h + 1)..]
  }

  // `b`'s blocks that `a` does not have are within the drift allowed at time `now`.
  ghost predicate NewWithinDrift(p: Params, a: Node, b: Node, now: u64) {
    forall i :: 0 <= i < |b.blocks| && HeightOf(a.blocks, b.blocks[i].hash).None? ==>
      b.blocks[i].wire.timestamp <= now + p.maxFutureDrift
  }

  // ---- Where the buffer can attach ----

  lemma SliceKnown(c: Crypto, known: iset<Wire>, blocks: seq<Block>, n: nat)
    requires AllSelfHashed(c, known, blocks) && n <= |blocks|
    ensures AllSelfHashed(c, known, blocks[n..])
  {}

  lemma Attached(cfg: Config, known: iset<Wire>, a: Node, rest: seq<Block>, h: nat)
    requires NodeOk(cfg, known, a) && AllSelfHashed(cfg.crypto, known, rest) && Linked(rest) && rest != []
    requires h < |a.blocks| && rest[0].wire.prevHash == a.blocks[h].hash
    ensures ProperChain(cfg.crypto, known, AppendAll(a.blocks[..h + 1], rest))
  {
    hide RulesOk, PoolSound, MempoolOk, BlocksCollisionFree, WorkExact, Genesis, AllSelfHashed, MirrorOf;
    var keep := a.blocks[..h + 1];
    hide ProperChain;
    PrefixProper(cfg.crypto, known, a.blocks, h + 1);
    assert keep[|keep| - 1] == a.blocks[h];
    AppendAllProper(cfg.crypto, known, keep, rest);
  }

  // A linked branch from `a`'s chain that contains `b`'s tip contains all of `b` above the fork.
  lemma ContainsTip(cfg: Config, known: iset<Wire>, a: Node, b: Node, rest: seq<Block>, h: nat, j: nat)
    requires NodeOk(cfg, known, a) && NodeOk(cfg, known, b) && b.blocks != []
    requires AllSelfHashed(cfg.crypto, known, rest) && Linked(rest) && j < |rest|
    requires h < |a.blocks| && rest[0].wire.prevHash == a.blocks[h].hash
    requires rest[j].hash == b.blocks[|b.blocks| - 1].hash
    ensures h + 1 + j == |b.blocks| - 1 && Agree(a.blocks, b.blocks, h)
    ensures RestOf(b.blocks, h, rest[..j + 1])
  {
    hide RulesOk, PoolSound, MempoolOk, BlocksCollisionFree, ProperChain, MirrorOf, AppendAll, Linked, AllSelfHashed;
    var keep := a.blocks[..h + 1];
    var joined := AppendAll(keep, rest);
    Attached(cfg, known, a, rest, h);
    AppendAllShape(keep, rest);
    assert joined[|keep| + j].hash == rest[j].hash;
    CommonPrefix(cfg.crypto, known, joined, b.blocks, h + 1 + j, |b.blocks| - 1);
    JoinedIs(a.blocks, b.blocks, joined, rest, h, j);
  }

  lemma JoinedIs(a: seq<Block>, b: seq<Block>, joined: seq<Block>, rest: seq<Block>, h: nat, j: nat)
    requires h < |a| && j < |rest| && |joined| == h + 1 + |rest| && joined[..h + 1] == a[..h + 1]
    requires forall i :: 0 <= i < |rest| ==>
               joined[h + 1 + i].wire == rest[i].wire && joined[h + 1 + i].hash == rest[i].hash
    requires |b| == h + 2 + j && joined[..|b|] == b
    ensures Agree(a, b, h) && RestOf(b, h, rest[..j + 1])
  {
    assert joined[..|b|][..h + 1] == joined[..h + 1];
    forall i | 0 <= i < j + 1 ensures rest[i].wire == b[h + 1 + i].wire && rest[i].hash == b[h + 1 + i].hash {
      assert joined[..|b|][h + 1 + i] == joined[h + 1 + i];
    }
  }

  // A strictly heavier node's tip is not among the blocks that are skipped.
  lemma TipIsUnknown(cfg: Config, known: iset<Wire>, a: Node, b: Node, buffer: seq<Block>, i: nat) returns (j: nat)
    requires NodeOk(cfg, known, a) && NodeOk(cfg, known, b) && b.blocks != []
    requires TotalWork(a.blocks) < LIMIT64 && TipWork(b.blocks) > TipWork(a.blocks)
    requires i < |buffer| && buffer[i].hash == b.blocks[|b.blocks| - 1].hash
    ensures j < |Unknown(a, buffer)| && Unknown(a, buffer)[j] == buffer[i]
  {
    hide NodeOk, TipWork, TotalWork, KnownFront, HeightOf, Agree;
    var here := HeightOf(a.blocks, buffer[i].hash);
    var start := KnownFront(a.blocks, buffer);
    if here.Some? {
      KnownIsShared(cfg, known, a, b, |b.blocks| - 1, here.value);
      WholeNotHeavier(cfg, known, a, b, |b.blocks| - 1);
    }
    assert start <= i;
    j := i - start;
  }

  // ---- What is adopted ----

  lemma {:induction false} PassingTransfers(p: Params, view: seq<Block>, other: seq<Block>, height: nat, now: u64)
    requires height <= |view| == |other| && SameBelow(view, other, |view|)
    ensures PassingFrom(p, view, height, now) == PassingFrom(p, other, height, now)
    decreases |view| - height
  {
    hide ContextOk;
    if height < |view| {
      PassingTransfers(p, view, other, height + 1, now);
      assert SameBelow(view, other, height + 1);
      ContextTransfers(p, view, other, height, now);
    }
  }

  lemma AboveIsNew(cfg: Config, known: iset<Wire>, a: Node, b: Node, h: nat, now: u64)
    requires NodeOk(cfg, known, a) && NodeOk(cfg, known, b) && NewWithinDrift(cfg.params, a, b, now)
    requires h + 1 < |b.blocks| && HeightOf(a.blocks, b.blocks[h + 1].hash).None?
    ensures WithinDrift(cfg.params, b.blocks, h, now)
  {
    hide NodeOk, HeightOf;
    forall i | h < i < |b.blocks| ensures b.blocks[i].wire.timestamp <= now + cfg.params.maxFutureDrift {
      if HeightOf(a.blocks, b.blocks[i].hash).Some? {
        KnownBelow(cfg, known, a, b, h + 1, i);
      }
    }
  }

  // All of `b`'s part passes, and then as much of the rest as is valid on top of `b`.
  lemma NoisyPrefix(cfg: Config, known: iset<Wire>, a: Node, b: Node, h: nat, part: seq<Block>, extra: seq<Block>,
                    now: u64)
    requires NodeOk(cfg, known, a) && NodeOk(cfg, known, b) && Agree(a.blocks, b.blocks, h)
    requires RestOf(b.blocks, h, part) && WithinDrift(cfg.params, b.blocks, h, now)
    ensures PassingFrom(cfg.params, ForkView(a.blocks, h, part + extra), h + 1, now)
            == |part| + ValidOnTop(cfg.params, b.blocks, extra, now)
  {
    assert h < |a.blocks|;
    hide NodeOk, PassingFrom, ForkView, RestOf, Agree, WithinDrift;
    var p, view, whole := cfg.params, ForkView(a.blocks, h, part), ForkView(a.blocks, h, part + extra);
    Obeys(cfg, known, b);
    NewPartPasses(cfg, a, b, h, part, now);
    WholeView(a.blocks, b.blocks, h, part, extra);
    LongerPasses(p, view, whole, h + 1, now);
    PassingTransfers(p, whole, b.blocks + extra, |b.blocks|, now);
  }

  lemma WholeView(a: seq<Block>, b: seq<Block>, h: nat, part: seq<Block>, extra: seq<Block>)
    requires Agree(a, b, h) && RestOf(b, h, part)
    ensures var view, whole := ForkView(a, h, part), ForkView(a, h, part + extra);
      && whole == view + extra && |view| == |b| == h + 1 + |part|
      && SameBelow(whole, b + extra, |whole|)
  {
    RestView(a, b, h, part);
    var view, whole := ForkView(a, h, part), ForkView(a, h, part + extra);
    assert whole == view + extra;
    hide RestOf, Agree, ForkView;
    forall i | 0 <= i < |whole| ensures whole[i].wire == (b + extra)[i].wire {
      if i < |view| {
        assert whole[i] == view[i] && b[i].wire == view[i].wire;
      }
    }
  }

  // What passes entirely passes at the front of something longer.
  lemma LongerPasses(p: Params, view: seq<Block>, whole: seq<Block>, height: nat, now: u64)
    requires height <= |view| <= |whole| && whole[..|view|] == view
    requires PassingFrom(p, view, height, now) == |view| - height
    ensures PassingFrom(p, whole, height, now) == |view| - height + PassingFrom(p, whole, |view|, now)
  {
    hide PassingFrom, ContextOk;
    forall i | height <= i < |view| ensures ContextOk(p, whole, i, now) {
      PassingFromOk(p, view, height, now, i);
      assert forall j :: 0 <= j < |view| ==> whole[j] == whole[..|view|][j];
      assert SameBelow(view, whole, i + 1);
      ContextTransfers(p, view, whole, i, now);
    }
    PassingFromSplit(p, whole, height, now, |view| - height);
  }

  // Switching to `b`'s part with more on top gives `b`'s chain with that on top.
  lemma NoisySwitch(cfg: Config, known: iset<Wire>, a: Node, b: Node, h: nat, part: seq<Block>, more: seq<Block>)
    requires NodeOk(cfg, known, a) && NodeOk(cfg, known, b) && Agree(a.blocks, b.blocks, h) && RestOf(b.blocks, h, part)
    requires TipWork(b.blocks) > TipWork(a.blocks) && TipWork(b.blocks) + SumWork(more) < LIMIT64
    ensures var r := TryReorg(cfg, a, ForkChain(part + more, a.blocks[h]));
      && (r.Some? <==> AllAuthentic(cfg.crypto, Transactions(more)))
      && (r.Some? ==> r.value.blocks == AppendAll(b.blocks, more))
  {
    hide NodeOk, TipWork, RestOf, AppendAll, BranchWork, SumWork, Reorganised, Reoffer, ReplaceFrom, HeightOf;
    hide Transactions, Authentic;
    HeightAt(cfg, known, a, b, h);
    RestRebuilds(cfg, known, a, b, h, part);
    Obeys(cfg, known, b);
    NewPartAuthentic(cfg, b, h, part);
    AppendAllConcat(a.blocks[..h + 1], part, more);
    AppendAllWork(a.blocks[..h + 1], part + more);
    AppendAllWork(b.blocks, more);
    BranchWorkIsSum(TipWork(b.blocks), more);
    TransactionsConcat(part, more);
    KeptTip(a.blocks, h);
  }

  lemma KeptTip(blocks: seq<Block>, h: nat)
    requires h < |blocks|
    ensures TipWork(blocks[..h + 1]) == blocks[h].cumulativeWork
  {}

  lemma CutRest(p: Params, blocks: seq<Block>, buffer: seq<Block>, h: nat, n: nat, now: u64)
    requires var start := KnownFront(blocks, buffer);
      && start < |buffer| && h < |blocks| && HeightOf(blocks, buffer[start].wire.prevHash) == Some(h)
      && blocks[h].hash == buffer[start].wire.prevHash && Linked(buffer[start..])
      && PassingFrom(p, ForkView(blocks, h, buffer[start..]), h + 1, now) == n && 0 < n <= |buffer| - start
    ensures AdoptCandidate(p, blocks, buffer, now)
            == Some(ForkChain(buffer[KnownFront(blocks, buffer)..][..n], blocks[h]))
  {
    hide KnownFront, Linked, HeightOf, PassingFrom, ForkView;
  }

  // A buffer that attaches is adopted exactly when what it adds on top of `b` is signed.
  lemma AttachedBuffer(cfg: Config, known: iset<Wire>, a: Node, b: Node, buffer: seq<Block>, h: nat, now: u64)
    requires NodeOk(cfg, known, a) && NodeOk(cfg, known, b) && b.blocks != []
    requires TotalWork(a.blocks) < LIMIT64 && TipWork(b.blocks) > TipWork(a.blocks)
    requires TipWork(b.blocks) + SumWork(buffer) < LIMIT64 && NewWithinDrift(cfg.params, a, b, now)
    requires StartsWith(a, b, buffer, h)
    ensures var extra := Extra(a, b, buffer, h);
      var more := extra[..ValidOnTop(cfg.params, b.blocks, extra, now)];
      var r := AdoptStep(cfg, a, buffer, now);
      && (r.Some? <==> AllAuthentic(cfg.crypto, Transactions(more)))
      && (r.Some? ==> r.value.blocks == AppendAll(b.blocks, more))
  {
    hide NodeOk, TotalWork, TipWork, AdoptCandidate, TryReorg, AllAuthentic, Transactions, SumWork, AppendAll;
    hide NewWithinDrift, ValidOnTop, Agree, RestOf, StartsWith, Unknown;
    var part, extra := Parts(a, b, buffer, h);
    var more := extra[..ValidOnTop(cfg.params, b.blocks, extra, now)];
    NoisyCandidate(cfg, known, a, b, buffer, h, part, extra, now);
    ExtraWeighsLess(a, b, buffer, h, more);
    NoisySwitch(cfg, known, a, b, h, part, more);
  }

  lemma Parts(a: Node, b: Node, buffer: seq<Block>, h: nat) returns (part: seq<Block>, extra: seq<Block>)
    requires StartsWith(a, b, buffer, h)
    ensures h < |a.blocks| && h < |b.blocks| && |b.blocks| - (h + 1) <= |Unknown(a, buffer)|
    ensures Agree(a.blocks, b.blocks, h) && RestOf(b.blocks, h, part) && extra == Extra(a, b, buffer, h)
    ensures Unknown(a, buffer) == part + extra && Linked(part + extra)
  {
    var rest, n := Unknown(a, buffer), |b.blocks| - (h + 1);
    part, extra := rest[..n], rest[n..];
    assert rest == part + extra;
  }

  // The branch taken from such a buffer: `b`'s part, and what is valid on top of it.
  lemma NoisyCandidate(cfg: Config, known: iset<Wire>, a: Node, b: Node, buffer: seq<Block>, h: nat,
                       part: seq<Block>, extra: seq<Block>, now: u64)
    requires NodeOk(cfg, known, a) && NodeOk(cfg, known, b) && NewWithinDrift(cfg.params, a, b, now)
    requires TotalWork(a.blocks) < LIMIT64 && TipWork(b.blocks) > TipWork(a.blocks)
    requires h < |a.blocks| && Agree(a.blocks, b.blocks, h) && RestOf(b.blocks, h, part)
    requires Unknown(a, buffer) == part + extra && Linked(part + extra)
    ensures AdoptCandidate(cfg.params, a.blocks, buffer, now)
            == Some(ForkChain(part + extra[..ValidOnTop(cfg.params, b.blocks, extra, now)], a.blocks[h]))
  {
    hide NodeOk, TotalWork, KnownFront, HeightOf, PassingFrom, ForkView, AdoptCandidate, Agree, RestOf;
    hide Linked, NewWithinDrift, WithinDrift, TipWork, ValidOnTop;
    var start, k := KnownFront(a.blocks, buffer), ValidOnTop(cfg.params, b.blocks, extra, now);
    NotAllShared(cfg, known, a, b, h);
    RestSize(b.blocks, h, part);
    RestAt(b.blocks, h, part, 0);
    assert part[0] == (part + extra)[0] == buffer[start];
    RestIsBranch(cfg, known, b, h, part);
    HeightAt(cfg, known, a, b, h);
    AboveIsNew(cfg, known, a, b, h, now);
    NoisyPrefix(cfg, known, a, b, h, part, extra, now);
    CutRest(cfg.params, a.blocks, buffer, h, |part| + k, now);
    assert (part + extra)[..|part| + k] == part + extra[..k];
  }

  lemma ExtraWeighsLess(a: Node, b: Node, buffer: seq<Block>, h: nat, more: seq<Block>)
    requires h < |b.blocks| && |b.blocks| - (h + 1) <= |Unknown(a, buffer)|
    requires |more| <= |Extra(a, b, buffer, h)| && more == Extra(a, b, buffer, h)[..|more|]
    ensures SumWork(more) <= SumWork(buffer)
  {
    hide SumWork, KnownFront;
    var rest, extra := Unknown(a, buffer), Extra(a, b, buffer, h);
    BackWeighsLess(buffer, KnownFront(a.blocks, buffer));
    BackWeighsLess(rest, |b.blocks| - (h + 1));
    FrontWeighsLess(extra, |more|, |extra|);
  }

  lemma NotAllShared(cfg: Config, known: iset<Wire>, a: Node, b: Node, h: nat)
    requires NodeOk(cfg, known, a) && TotalWork(a.blocks) < LIMIT64 && TipWork(b.blocks) > TipWork(a.blocks)
    requires Agree(a.blocks, b.blocks, h)
    ensures h + 1 < |b.blocks|
  {
    assert h < |b.blocks|;
    hide NodeOk, TotalWork, TipWork, Agree;
    if h + 1 == |b.blocks| {
      WholeNotHeavier(cfg, known, a, b, h);
    }
  }

  // A buffer that does not attach, or breaks somewhere, leads nowhere.
  lemma DetachedBuffer(cfg: Config, known: iset<Wire>, a: Node, b: Node, buffer: seq<Block>, i: nat, now: u64)
    requires NodeOk(cfg, known, a) && NodeOk(cfg, known, b) && b.blocks != []
    requires AllSelfHashed(cfg.crypto, known, buffer)
    requires TotalWork(a.blocks) < LIMIT64 && TipWork(b.blocks) > TipWork(a.blocks)
    requires i < |buffer| && buffer[i].hash == b.blocks[|b.blocks| - 1].hash
    requires AdoptStep(cfg, a, buffer, now).Some?
    ensures exists h :: StartsWith(a, b, buffer, h)
  {
    hide NodeOk, TotalWork, TipWork, HeightOf, TryReorg, Linked, AllSelfHashed, ValidPrefix, Agree, RestOf;
    var rest := Unknown(a, buffer);
    var j := TipIsUnknown(cfg, known, a, b, buffer, i);
    var h := HeightOf(a.blocks, rest[0].wire.prevHash).value;
    SliceKnown(cfg.crypto, known, buffer, KnownFront(a.blocks, buffer));
    ContainsTip(cfg, known, a, b, rest, h, j);
    assert StartsWith(a, b, buffer, h);
  }

  /** A buffer that holds `b`'s tip, whatever else is in it. `b` is strictly heavier than `a`
      is now. The buffer is adopted if and only if, once the blocks at its front that `a`
      already has are skipped, it goes on with exactly what `b` has and `a` lacks, everything
      after that is linked to it, and the valid part of that is signed. `a`'s chain is then
      `b`'s with that part on top. */
  lemma NoisyAnswer(cfg: Config, known: iset<Wire>, a: Node, b: Node, buffer: seq<Block>, i: nat, now: u64)
    requires NodeOk(cfg, known, a) && NodeOk(cfg, known, b) && b.blocks != []
    requires AllSelfHashed(cfg.crypto, known, buffer)
    requires TotalWork(a.blocks) < LIMIT64 && TipWork(b.blocks) > TipWork(a.blocks)
    requires TipWork(b.blocks) + SumWork(buffer) < LIMIT64 && NewWithinDrift(cfg.params, a, b, now)
    requires i < |buffer| && buffer[i].hash == b.blocks[|b.blocks| - 1].hash
    ensures AdoptStep(cfg, a, buffer, now).Some? <==>
            exists h :: StartsWith(a, b, buffer, h) && ExtraSigned(cfg, a, b, buffer, h, now)
    ensures forall h :: AdoptStep(cfg, a, buffer, now).Some? && StartsWith(a, b, buffer, h) ==>
              AdoptStep(cfg, a, buffer, now).value.blocks == AppendAll(b.blocks, Kept(cfg, a, b, buffer, h, now))
  {
    hide NodeOk, TotalWork, TipWork, AdoptStep, AllSelfHashed, StartsWith, SumWork, AppendAll, NewWithinDrift, Kept;
    hide AllAuthentic, Transactions;
    forall h | StartsWith(a, b, buffer, h)
      ensures ExtraSigned(cfg, a, b, buffer, h, now) <==> AdoptStep(cfg, a, buffer, now).Some?
      ensures AdoptStep(cfg, a, buffer, now).Some? ==>
                AdoptStep(cfg, a, buffer, now).value.blocks == AppendAll(b.blocks, Kept(cfg, a, b, buffer, h, now))
    {
      KeptIs(cfg, a, b, buffer, h, now);
      AttachedBuffer(cfg, known, a, b, buffer, h, now);
    }
    if AdoptStep(cfg, a, buffer, now).Some? {
      DetachedBuffer(cfg, known, a, b, buffer, i, now);
    }
  }

  // The extra blocks that stay: those that are valid on top of `b`'s chain.
  ghost function Kept(cfg: Config, a: Node, b: Node, buffer: seq<Block>, h: nat, now: u64): seq<Block>
    requires StartsWith(a, b, buffer, h)
  {
    var extra := Extra(a, b, buffer, h);
    extra[..ValidOnTop(cfg.params, b.blocks, extra, now)]
  }

  ghost predicate ExtraSigned(cfg: Config, a: Node, b: Node, buffer: seq<Block>, h: nat, now: u64)
    requires StartsWith(a, b, buffer, h)
  {
    AllAuthentic(cfg.crypto, Transactions(Kept(cfg, a, b, buffer, h, now)))
  }

  lemma KeptIs(cfg: Config, a: Node, b: Node, buffer: seq<Block>, h: nat, now: u64)
    requires StartsWith(a, b, buffer, h)
    ensures h < |b.blocks| && |b.blocks| - (h + 1) <= |Unknown(a, buffer)|
    ensures var extra := Extra(a, b, buffer, h);
      Kept(cfg, a, b, buffer, h, now) == extra[..ValidOnTop(cfg.params, b.blocks, extra, now)]
  {}
}
