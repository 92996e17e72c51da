/**
 Which heights a block locator lists (src/core/BlockLocator.cpp), and how close to
 the point where two chains part the answer to it therefore starts.
 */
module Locators {
  import opened Types
  import opened Consensus
  import opened Chain
  import opened Pending
  import opened NodeModel
  import opened NodeInvariant
  import opened Sync

  // How far below the tip entry `i` lies: ten in a row, then gaps of 2, 4, 8 and so on.
  function Offset(i: nat): nat {
    if i <= 9 then i else 7 + Pow2(i - 8)
  }

  // The gap that led to entry `i`.
  function Gap(i: nat): (g: nat)
    ensures g >= 1
  {
    if i <= 9 then 1
    else
      Pow2Grows(0, i - 9);
      Pow2(i - 9)
  }

  lemma OffsetNext(i: nat)
    ensures var wider := if i + 1 >= 10 then 2 * Gap(i) else Gap(i);
      wider == Gap(i + 1) && Offset(i + 1) == Offset(i) + wider
    ensures i >= 9 ==> Offset(i + 1) == 2 * Offset(i) - 7
  {
    assert Pow2(1) == 2 && Pow2(2) == 4;
    if i > 9 {
      assert Pow2(i - 7) == 2 * Pow2(i - 8) && Pow2(i - 8) == 2 * Pow2(i - 9);
    }
  }

  /** `hs` are the entries from number `i` on: each at its offset below the tip while that is
      above genesis, and then genesis. */
  ghost predicate ListsFrom(tip: nat, i: nat, hs: seq<nat>) {
    && |hs| >= 1 && hs[|hs| - 1] == 0 && Offset(i + |hs| - 1) >= tip
    && forall n: nat :: i <= n < i + |hs| - 1 ==> Offset(n) < tip && hs[n - i] == tip - Offset(n)
  }

  lemma ListsCons(tip: nat, i: nat, rest: seq<nat>)
    requires Offset(i) < tip && ListsFrom(tip, i + 1, rest)
    ensures ListsFrom(tip, i, [tip - Offset(i)] + rest)
  {
    hide Offset;
    var hs := [tip - Offset(i)] + rest;
    assert hs[|hs| - 1] == rest[|rest| - 1] && i + |hs| - 1 == i + 1 + |rest| - 1;
    forall n: nat | i <= n < i + |hs| - 1 ensures Offset(n) < tip && hs[n - i] == tip - Offset(n) {
      if n > i {
        assert hs[n - i] == rest[n - (i + 1)];
      }
    }
  }

  lemma {:induction false} HeightsFrom(tip: nat, i: nat)
    requires Offset(i) <= tip
    ensures ListsFrom(tip, i, LocatorHeights(tip - Offset(i), Gap(i), i))
    decreases tip - Offset(i)
  {
    hide Offset, Gap, ListsFrom;
    OffsetNext(i);
    HeightsUnfold(tip - Offset(i), Gap(i), i);
    if Offset(i) == tip {
      JustGenesis(tip, i);
    } else if Offset(i + 1) > tip {
      JustGenesis(tip, i + 1);
      ListsCons(tip, i, [0]);
    } else {
      HeightsFrom(tip, i + 1);
      ListsCons(tip, i, LocatorHeights(tip - Offset(i + 1), Gap(i + 1), i + 1));
    }
  }

  lemma JustGenesis(tip: nat, i: nat)
    requires Offset(i) >= tip
    ensures ListsFrom(tip, i, [0])
  {}

  // Each hash of a locator is that of the block at the height listed.
  lemma {:induction false} HashesAt(blocks: seq<Block>, height: nat, step: nat, taken: nat)
    requires step >= 1 && height < |blocks|
    ensures var hs, hashes := LocatorHeights(height, step, taken), LocatorFrom(blocks, height, step, taken);
      |hashes| == |hs| && forall k :: 0 <= k < |hs| ==> 0 <= hs[k] < |blocks| && hashes[k] == blocks[hs[k]].hash
    decreases height
  {
    hide LocatorFrom, LocatorHeights;
    LocatorUnfolds(blocks, height, step, taken);
    HeightsUnfold(height, step, taken);
    if height > 0 {
      var wider := if taken + 1 >= 10 then 2 * step else step;
      if wider <= height {
        HashesAt(blocks, height - wider, wider, taken + 1);
      }
    }
  }

  /** A locator lists exactly the tip, the nine blocks below it and then blocks at gaps of 2,
      4, 8 and so on, as long as they are above genesis, and genesis. */
  lemma LocatorIs(blocks: seq<Block>)
    requires blocks != []
    ensures var tip, hashes := |blocks| - 1, Locator(blocks);
      && |hashes| >= 1 && hashes[|hashes| - 1] == blocks[0].hash && Offset(|hashes| - 1) >= tip
      && forall i: nat :: i < |hashes| - 1 ==> Offset(i) < tip && hashes[i] == blocks[tip - Offset(i)].hash
  {
    hide LocatorHeights, LocatorFrom;
    var tip := |blocks| - 1;
    var hs := LocatorHeights(tip, 1, 0);
    assert Offset(0) == 0 && Gap(0) == 1;
    HeightsFrom(tip, 0);
    HashesAt(blocks, tip, 1, 0);
    forall i: nat | i < |hs| - 1 ensures Offset(i) < tip && Locator(blocks)[i] == blocks[tip - Offset(i)].hash {
      assert hs[i - 0] == tip - Offset(i);
    }
  }

  // The match is the first entry that is on the chain.
  lemma {:induction false} FirstOnChain(blocks: seq<Block>, locator: seq<Hash>, n: nat) returns (j: nat)
    requires n < |locator| && HeightOf(blocks, locator[n]).Some?
    ensures j <= n && HeightOf(blocks, locator[j]).Some?
    ensures LocatorMatch(blocks, locator) == HeightOf(blocks, locator[j])
    decreases n
  {
    hide HeightOf;
    if HeightOf(blocks, locator[0]).Some? {
      j := 0;
    } else {
      j := FirstOnChain(blocks, locator[1..], n - 1);
      j := j + 1;
    }
  }

  // Entry `n` is the first at or below height `f`: then it is not far below.
  lemma NotFarBelow(tip: nat, f: nat, n: nat)
    requires f <= tip && (n > 0 ==> tip - Offset(n - 1) > f)
    ensures Offset(n) <= Max(tip - f, 2 * (tip - f) - 9)
  {
    if n > 0 {
      OffsetNext(n - 1);
    }
    hide Pow2;
  }

  // From an entry at or below height `f` back to the first one.
  lemma {:induction false} FirstBelow(tip: nat, f: nat, last: nat) returns (n: nat)
    requires f <= tip && tip - Offset(last) <= f
    ensures n <= last && tip - Offset(n) <= f && (n > 0 ==> tip - Offset(n - 1) > f)
    decreases last
  {
    if last > 0 && tip - Offset(last - 1) <= f {
      n := FirstBelow(tip, f, last - 1);
    } else {
      n := last;
    }
  }

  // A hash of `a` at or below a height where the chains agree is on the chain of `b`.
  lemma SharedHash(a: seq<Block>, b: seq<Block>, f: nat, g: nat)
    requires Agree(a, b, f) && g <= f
    ensures HeightOf(b, a[g].hash).Some?
  {
    hide HeightOf;
    assert a[g] == a[..f + 1][g] == b[..f + 1][g] == b[g];
  }

  lemma {:induction false} OffsetGrows(i: nat, j: nat)
    requires i <= j
    ensures Offset(i) <= Offset(j)
    decreases j - i
  {
    if i < j {
      OffsetNext(j - 1);
      OffsetGrows(i, j - 1);
    }
  }

  /** However far back two chains part, the answer starts close to that point: where they
      agree up to a height `d` below the asking node's tip, the match is at most
      max(d, 2 d - 9) below that tip. */
  lemma MatchIsClose(cfg: Config, known: iset<Wire>, a: Node, b: Node, f: nat)
    requires NodeOk(cfg, known, a) && NodeOk(cfg, known, b) && Agree(a.blocks, b.blocks, f)
    ensures var r, tip := LocatorMatch(b.blocks, Locator(a.blocks)), |a.blocks| - 1;
      r.Some? && tip - r.value <= Max(tip - f, 2 * (tip - f) - 9)
  {
    hide NodeOk, LocatorMatch, LocatorFrom, Offset, HeightOf;
    var hashes, tip := Locator(a.blocks), |a.blocks| - 1;
    LocatorIs(a.blocks);
    var n := FirstBelow(tip, f, |hashes| - 1);
    NotFarBelow(tip, f, n);
    SharedHash(a.blocks, b.blocks, f, if n < |hashes| - 1 then tip - Offset(n) else 0);
    var j := FirstOnChain(b.blocks, hashes, n);
    OffsetGrows(j, n);
    SameOnBoth(cfg, known, a, b, if j < |hashes| - 1 then tip - Offset(j) else 0);
  }

  // A block of `a` that is on `b` has the same height there.
  lemma SameOnBoth(cfg: Config, known: iset<Wire>, a: Node, b: Node, g: nat)
    requires NodeOk(cfg, known, a) && NodeOk(cfg, known, b) && g < |a.blocks|
    ensures HeightOf(b.blocks, a.blocks[g].hash).Some? ==> HeightOf(b.blocks, a.blocks[g].hash).value == g
  {
    hide RulesOk, PoolSound, MempoolOk, BlocksCollisionFree, ProperChain, HeightOf;
    var r := HeightOf(b.blocks, a.blocks[g].hash);
    if r.Some? {
      CommonPrefix(cfg.crypto, known, a.blocks, b.blocks, g, r.value);
    }
  }
}
