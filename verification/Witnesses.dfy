/**
 Short runs in which the node does what one might not expect. Each lemma constructs,
 from blocks of a stated shape, a run of the node model whose last state lacks a
 property that holds only under the condition proved elsewhere.
 */
module Witnesses {
  import opened Types
  import opened Accounting
  import opened LedgerReorg
  import opened Consensus
  import opened Chain
  import opened Forks
  import opened Codec
  import opened Disk
  import opened NodeModel
  import opened NodeInvariant
  import opened Manager
  import opened Runs
  import opened Tracking
  import opened Restart
  import opened Sync

  // ---- Young chains ----

  /** A chain shorter than the first adjustment: timestamps rise, difficulties are the
      initial one, and nothing is too far in the future. */
  ghost predicate Young(p: Params, view: seq<Block>, now: u64) {
    && (p.retargetInterval < 2 || |view| <= p.retargetInterval + 1)
    && (forall i, j :: 0 <= i < j < |view| ==> view[i].wire.timestamp < view[j].wire.timestamp)
    && (forall i :: 1 <= i < |view| ==>
          view[i].wire.difficulty == p.initialDifficulty && view[i].wire.timestamp <= now + p.maxFutureDrift)
  }

  lemma {:induction false} AllEarly(chain: seq<Block>, lo: nat, hi: nat, m: int)
    requires lo <= hi <= |chain|
    requires forall i :: lo <= i < hi ==> chain[i].wire.timestamp < m
    ensures Early(chain, lo, hi, m) == hi - lo
    decreases hi - lo
  {
    if lo < hi {
      AllEarly(chain, lo, hi - 1, m);
    }
  }

  lemma MedianBelow(chain: seq<Block>, height: nat, window: nat, t: int)
    requires 1 <= height <= |chain| && t > 0
    requires forall i :: 0 <= i < height ==> chain[i].wire.timestamp < t
    ensures MedianTimePast(height, window, chain) < t
  {
    hide MedianTimePast, Early;
    if window == 0 {
      ZeroWindow(height, chain);
    } else {
      MedianReaches(height, window, chain, t);
      AllEarly(chain, WindowStart(height, window), height, t);
    }
  }

  lemma YoungPasses(p: Params, view: seq<Block>, from: nat, now: u64)
    requires Young(p, view, now) && 1 <= from <= |view|
    ensures PassingFrom(p, view, from, now) == |view| - from
  {
    hide MedianTimePast, PassingFrom;
    forall i | from <= i < |view| ensures ContextOk(p, view, i, now) {
      assert view[0].wire.timestamp < view[i].wire.timestamp;
      MedianBelow(view, i, p.mtpWindow, view[i].wire.timestamp);
    }
    PassingFromSplit(p, view, from, now, |view| - from);
    NonePassLast(p, view, now);
  }

  lemma NonePassLast(p: Params, view: seq<Block>, now: u64)
    ensures PassingFrom(p, view, |view|, now) == 0
  {}

  // ---- Steps on young chains ----

  // A block on top of the tip that meets every check.
  lemma Submits(cfg: Config, s: Node, b: Block, now: u64)
    requires s.blocks != [] && b.hash == cfg.crypto.blockHash(b.wire)
             && b.wire.prevHash == s.blocks[|s.blocks| - 1].hash
    requires Young(cfg.params, s.blocks + [b], now) && ContextFree(b)
    requires forall i :: 0 < i < |b.wire.transactions| ==> b.wire.transactions[i].sender != COINBASE
    requires AllAuthentic(cfg.crypto, b.wire.transactions) && Replay(s.accounts, b.wire.transactions).Some?
    ensures SubmitStep(cfg, s, b, now, Outcome(Accepted, [b.hash], None),
                       Extended(cfg, s, b, Replay(s.accounts, b.wire.transactions).value))
  {
    hide ContextFree, AllAuthentic, Replay, ApplyBlock, Extended, FirstRefused, ReverseAll, AllReverse, Covers;
    hide Young, TimestampOk, NextDifficulty;
    TopPasses(cfg.params, s.blocks, b, now);
    BlockAtomicity(cfg.crypto, s.accounts, b.wire.transactions);
  }

  lemma TopPasses(p: Params, blocks: seq<Block>, b: Block, now: u64)
    requires blocks != [] && Young(p, blocks + [b], now)
    ensures TimestampOk(b, |blocks|, now, p, blocks) && b.wire.difficulty == NextDifficulty(|blocks|, p, blocks)
  {
    hide MedianTimePast;
    var height, view := |blocks|, blocks + [b];
    assert view[height] == b && view[0].wire.timestamp < view[height].wire.timestamp;
    MedianBelow(view, height, p.mtpWindow, b.wire.timestamp);
    assert SameBelow(view, blocks, height);
    RulesReadBelow(p, view, blocks, height);
  }

  // Likewise, but the ledger refuses it.
  lemma Refused(cfg: Config, s: Node, b: Block, now: u64)
    requires s.blocks != [] && b.hash == cfg.crypto.blockHash(b.wire)
    requires b.wire.prevHash == s.blocks[|s.blocks| - 1].hash
    requires Young(cfg.params, s.blocks + [b], now) && ContextFree(b)
    requires forall i :: 0 < i < |b.wire.transactions| ==> b.wire.transactions[i].sender != COINBASE
    requires !ApplyBlock(cfg.crypto, s.accounts, b.wire.transactions).0
    ensures SubmitStep(cfg, s, b, now, REJECTED,
                       s.(accounts := ApplyBlock(cfg.crypto, s.accounts, b.wire.transactions).1))
  {
    hide ContextFree, ApplyBlock, Young, TimestampOk, NextDifficulty;
    TopPasses(cfg.params, s.blocks, b, now);
  }

  // An answer none of which is known yet, judged only by its timestamps, difficulties and signatures.
  lemma Adopts(cfg: Config, known: iset<Wire>, s: Node, h: nat, answer: seq<Block>, now: u64)
    requires NodeOk(cfg, known, s) && h < |s.blocks| && answer != []
    requires BranchFrom(s.blocks[h].hash, answer) && HeightOf(s.blocks, answer[0].hash).None?
    requires Young(cfg.params, ForkView(s.blocks, h, answer), now)
    requires Prevails(cfg.crypto, s.blocks, ForkChain(answer, s.blocks[h]))
    ensures AdoptStep(cfg, s, answer, now) == Some(Switched(cfg, s, ForkChain(answer, s.blocks[h]), h))
  {
    hide NodeOk, HeightOf, Young, Prevails, Switched, AdoptCandidate, PassingFrom, ForkView;
    assert KnownFront(s.blocks, answer) == 0 && answer[0..] == answer;
    assert Agree(s.blocks, s.blocks, h);
    HeightAt(cfg, known, s, s, h);
    ViewSize(s.blocks, h, answer);
    YoungPasses(cfg.params, ForkView(s.blocks, h, answer), h + 1, now);
    WholeCandidate(cfg.params, s.blocks, answer, now, h, answer);
  }

  lemma ViewSize(blocks: seq<Block>, h: nat, branch: seq<Block>)
    requires h < |blocks|
    ensures |ForkView(blocks, h, branch)| == h + 1 + |branch|
  {}

  lemma RunMore(cfg: Config, known: iset<Wire>, states: seq<Node>, events: seq<Event>, e: Event, s: Node)
    requires Run(cfg, known, states, events) && EventKnown(cfg, known, e)
    requires Next(cfg, states[|states| - 1], e, s)
    ensures Run(cfg, known, states + [s], events + [e])
  {
    hide Next, EventKnown, BlocksCollisionFree, Genesis;
    var longer, more := states + [s], events + [e];
    forall i | 0 <= i < |more| ensures EventKnown(cfg, known, more[i]) && Next(cfg, longer[i], more[i], longer[i + 1]) {
      if i < |events| {
        assert more[i] == events[i] && longer[i] == states[i] && longer[i + 1] == states[i + 1];
      }
    }
    assert longer[0] == states[0];
  }

  // ---- One block from a catch-up ----

  // A wire on top of genesis that a fresh node adopts from a catch-up.
  ghost predicate Adoptable(cfg: Config, known: iset<Wire>, w: Wire, now: u64) {
    && BlocksCollisionFree(cfg.crypto, known) && Genesis(cfg.crypto).wire in known && w in known
    && 1 <= cfg.orphanCapacity && 1 <= cfg.mempoolCapacity
    && w.prevHash == Genesis(cfg.crypto).hash && w.difficulty == cfg.params.initialDifficulty
    && 0 < w.timestamp <= now + cfg.params.maxFutureDrift
    && AllAuthentic(cfg.crypto, w.transactions)
  }

  lemma AdoptsOne(cfg: Config, known: iset<Wire>, withDisk: bool, w: Wire, now: u64) returns (s: Node)
    requires Adoptable(cfg, known, w, now)
    ensures var b := Received(cfg.crypto, w);
      && Run(cfg, known, [Initial(cfg, withDisk), s], [Adopt([b], now)])
      && AdoptStep(cfg, Initial(cfg, withDisk), [b], now) == Some(s)
      && s.blocks == Append([Genesis(cfg.crypto)], b) && s.disk.Some? == withDisk
      && s.accounts == Reorganised(cfg.crypto, EMPTY, [], w.transactions)
  {
    hide NodeOk, BlocksCollisionFree, AdoptStep, Switched, AppendAll, BranchWork, Append, Transactions, BlockWork;
    hide HeightOf;
    hide MirrorOf, AllAuthentic;
    var start, b := Initial(cfg, withDisk), Received(cfg.crypto, w);
    InitialOk(cfg, known, withDisk);
    OneBlock(b);
    OneMore(start.blocks, b);
    AtGenesis(cfg.crypto, b.hash);
    DistinctFromGenesis(cfg, known, w);
    assert ForkView(start.blocks, 0, [b]) == [Genesis(cfg.crypto), b];
    Adopts(cfg, known, start, 0, [b], now);
    s := AdoptStep(cfg, start, [b], now).value;
    SwitchedBlocks(cfg, start, ForkChain([b], start.blocks[0]), 0);
    assert start.blocks[..1] == start.blocks && start.blocks[1..] == [];
    NoTransactions();
    RunOfOne(cfg, known, withDisk, Adopt([b], now), s);
  }

  lemma SwitchedBlocks(cfg: Config, s: Node, fork: ForkChain, h: nat)
    requires h < |s.blocks|
    ensures var t := Switched(cfg, s, fork, h);
      && t.blocks == AppendAll(s.blocks[..h + 1], fork.blocks) && t.disk.Some? == s.disk.Some?
      && t.accounts == Reorganised(cfg.crypto, s.accounts, Transactions(s.blocks[h + 1..]), Transactions(fork.blocks))
  {}

  lemma NoTransactions()
    ensures Transactions([]) == []
  {}

  lemma RunOfOne(cfg: Config, known: iset<Wire>, withDisk: bool, e: Event, s: Node)
    requires BlocksCollisionFree(cfg.crypto, known) && Genesis(cfg.crypto).wire in known
    requires 1 <= cfg.orphanCapacity && 1 <= cfg.mempoolCapacity
    requires EventKnown(cfg, known, e) && Next(cfg, Initial(cfg, withDisk), e, s)
    ensures Run(cfg, known, [Initial(cfg, withDisk), s], [e])
  {
    hide BlocksCollisionFree, Genesis, EventKnown, Next;
  }

  lemma OneMore(blocks: seq<Block>, b: Block)
    ensures AppendAll(blocks, [b]) == Append(blocks, b)
    ensures forall work: u64 :: BranchWork(work, [b]) == Add64(work, BlockWork(b.wire.difficulty))
  {
    assert [b][1..] == [];
  }

  lemma AtGenesis(c: Crypto, h: Hash)
    ensures HeightOf([Genesis(c)], h).None? <==> h != Genesis(c).hash
    ensures TipWork([Genesis(c)]) == Genesis(c).cumulativeWork == 0
  {}

  lemma DistinctFromGenesis(cfg: Config, known: iset<Wire>, w: Wire)
    requires BlocksCollisionFree(cfg.crypto, known) && Genesis(cfg.crypto).wire in known && w in known
    requires w.prevHash == Genesis(cfg.crypto).hash
    ensures cfg.crypto.blockHash(w) != Genesis(cfg.crypto).hash
  {}

  /** A catch-up brings in whatever `submit_block` would have turned away: any block that
      misses its target, overdraws its coinbase or has it behind the front, if it passes
      the rules that are asked. */
  lemma UncheckedIsAdopted(check: Check, cfg: Config, known: iset<Wire>, withDisk: bool, w: Wire, now: u64)
    returns (s: Node)
    requires Adoptable(cfg, known, w, now) && !Passes(check, Received(cfg.crypto, w))
    ensures Run(cfg, known, [Initial(cfg, withDisk), s], [Adopt([Received(cfg.crypto, w)], now)])
    ensures |s.blocks| == 2 && s.blocks[1].wire == w && !Passes(check, s.blocks[1])
    ensures Checked(check, Initial(cfg, withDisk)) && !Checked(check, s)
  {
    hide Run, AdoptStep, Passes, BlockWork;
    s := AdoptsOne(cfg, known, withDisk, w, now);
    PassesAgree(check, s.blocks[1], Received(cfg.crypto, w));
  }

  /** So does it bring in a block that no ledger could apply: one with a signed transaction
      of a sender who owns nothing. The chain then does not replay, and the node's own
      database stops it from starting again. */
  lemma UnfundedIsAdopted(cfg: Config, known: iset<Wire>, w: Wire, tx: Transaction, now: u64) returns (s: Node)
    requires Adoptable(cfg, known, w, now) && w.transactions == [tx] && tx.sender != COINBASE
    ensures Run(cfg, known, [Initial(cfg, true), s], [Adopt([Received(cfg.crypto, w)], now)])
    ensures NodeOk(cfg, known, s) && s.blocks == Append([Genesis(cfg.crypto)], Received(cfg.crypto, w))
    ensures Replay(EMPTY, Transactions(s.blocks)).None? && !LedgerTracks(s)
    ensures s.disk.Some?
    ensures WireFits(Genesis(cfg.crypto).wire) && WireFits(w) ==>
              LoadFrom(cfg.crypto, s.disk.value, 1, |s.disk.value|, Opened(cfg, s.disk)) == None
  {
    hide Run, NodeOk, AdoptStep, BlockWork, LoadFrom, WireFits, Opened, Adoptable, Transactions, Replay, Initial;
    s := AdoptsOne(cfg, known, true, w, now);
    RunInvariant(cfg, known, [Initial(cfg, true), s], [Adopt([Received(cfg.crypto, w)], now)], 1);
    OnGenesis(cfg.crypto, Received(cfg.crypto, w));
    NoneOwnsNothing(tx);
    if WireFits(Genesis(cfg.crypto).wire) && WireFits(w) {
      RestartRebuilds(cfg, known, s);
    }
  }

  lemma NoneOwnsNothing(tx: Transaction)
    requires tx.sender != COINBASE
    ensures Replay(EMPTY, [tx]).None?
  {}

  // ---- A block, and a heavier branch of two ----

  /** Three wires: `b` on genesis, and `c` on genesis with `d` on top of it. They come before
      the first adjustment, and the work of two of them does not wrap. */
  ghost predicate Scene(cfg: Config, known: iset<Wire>, b: Wire, c: Wire, d: Wire, now: u64) {
    && BlocksCollisionFree(cfg.crypto, known) && Genesis(cfg.crypto).wire in known
    && b in known && c in known && d in known && b != c
    && 1 <= cfg.orphanCapacity && 1 <= cfg.mempoolCapacity
    && (cfg.params.retargetInterval < 2 || cfg.params.retargetInterval >= 3) && cfg.params.initialDifficulty <= 62
    && b.difficulty == c.difficulty == d.difficulty == cfg.params.initialDifficulty
    && b.prevHash == c.prevHash == Genesis(cfg.crypto).hash && d.prevHash == cfg.crypto.blockHash(c)
    && 0 < b.timestamp <= now + cfg.params.maxFutureDrift
    && 0 < c.timestamp < d.timestamp <= now + cfg.params.maxFutureDrift
  }

  lemma TwoBlocks(blocks: seq<Block>, c: Block, d: Block)
    ensures Transactions([c, d]) == c.wire.transactions + d.wire.transactions
    ensures AppendAll(blocks, [c, d]) == Append(Append(blocks, c), d)
    ensures forall work: u64 ::
              BranchWork(work, [c, d]) == Add64(Add64(work, BlockWork(c.wire.difficulty)), BlockWork(d.wire.difficulty))
  {
    hide BlockWork;
    assert [c, d][1..] == [d] && [c, d][..1] == [c];
    OneBlock(c);
    OneMore(Append(blocks, c), d);
    forall work: u64 ensures BranchWork(work, [c, d]) == BranchWork(Add64(work, BlockWork(c.wire.difficulty)), [d]) {}
  }

  // Two blocks of one difficulty outweigh one.
  lemma TwoOutweighOne(difficulty: u32)
    requires difficulty <= 62
    ensures var w := BlockWork(difficulty); Add64(Add64(0, w), w) > Add64(w, 0)
  {
    PowersFit(difficulty + 1);
  }

  // On a chain of genesis and `b`, the hash of a third block is unknown.
  lemma ThirdIsUnknown(cfg: Config, known: iset<Wire>, b: Wire, c: Wire, d: Wire, now: u64)
    requires Scene(cfg, known, b, c, d, now)
    ensures HeightOf(Append([Genesis(cfg.crypto)], Received(cfg.crypto, b)), cfg.crypto.blockHash(c)).None?
  {
    hide BlockWork, HeightOf, TipWork;
    DistinctFromGenesis(cfg, known, c);
    var blocks := Append([Genesis(cfg.crypto)], Received(cfg.crypto, b));
    assert blocks[0] == Genesis(cfg.crypto) && blocks[1].hash == cfg.crypto.blockHash(b) != cfg.crypto.blockHash(c);
  }

  /** `b` is submitted to a fresh node, and then the branch of `c` and `d` arrives in a
      catch-up: the node accepts the one and switches to the other. */
  lemma SubmitsThenAdopts(cfg: Config, known: iset<Wire>, withDisk: bool, b: Wire, c: Wire, d: Wire, now: u64)
    returns (s: Node, t: Node)
    requires Scene(cfg, known, b, c, d, now) && ContextFree(Received(cfg.crypto, b))
    requires forall i :: 0 < i < |b.transactions| ==> b.transactions[i].sender != COINBASE
    requires AllAuthentic(cfg.crypto, b.transactions) && Replay(EMPTY, b.transactions).Some?
    requires AllAuthentic(cfg.crypto, c.transactions + d.transactions)
    ensures var x, y, z := Received(cfg.crypto, b), Received(cfg.crypto, c), Received(cfg.crypto, d);
      && Run(cfg, known, [Initial(cfg, withDisk), s, t], [SubmitBlock(x, now), Adopt([y, z], now)])
      && s.blocks == Append([Genesis(cfg.crypto)], x) && s.accounts == Replay(EMPTY, b.transactions).value
      && t.blocks == Append(Append([Genesis(cfg.crypto)], y), z)
      && t.accounts == Reorganised(cfg.crypto, s.accounts, b.transactions, c.transactions + d.transactions)
  {
    var start := Initial(cfg, withDisk);
    var x, y, z := Received(cfg.crypto, b), Received(cfg.crypto, c), Received(cfg.crypto, d);
    hide BlocksCollisionFree, ContextFree, AllAuthentic, Replay, BlockWork, Reorganised, SubmitStep, AdoptStep;
    hide HeightOf;
    hide Transactions, AppendAll, BranchWork;
    assert start.blocks + [x] == [Genesis(cfg.crypto), x];
    Submits(cfg, start, x, now);
    s := Extended(cfg, start, x, Replay(EMPTY, b.transactions).value);
    assert Next(cfg, start, SubmitBlock(x, now), s);
    RunOfOne(cfg, known, withDisk, SubmitBlock(x, now), s);
    RunInvariant(cfg, known, [start, s], [SubmitBlock(x, now)], 1);
    hide NodeOk, Run, Scene, Initial, Extended;
    t := Overtakes(cfg, known, s, b, c, d, now);
    RunMore(cfg, known, [start, s], [SubmitBlock(x, now)], Adopt([y, z], now), t);
    assert [start, s] + [t] == [start, s, t]
           && [SubmitBlock(x, now)] + [Adopt([y, z], now)] == [SubmitBlock(x, now), Adopt([y, z], now)];
  }

  lemma Overtakes(cfg: Config, known: iset<Wire>, s: Node, b: Wire, c: Wire, d: Wire, now: u64) returns (t: Node)
    requires Scene(cfg, known, b, c, d, now) && NodeOk(cfg, known, s)
    requires s.blocks == Append([Genesis(cfg.crypto)], Received(cfg.crypto, b))
    requires AllAuthentic(cfg.crypto, c.transactions + d.transactions)
    ensures var y, z := Received(cfg.crypto, c), Received(cfg.crypto, d);
      && AdoptStep(cfg, s, [y, z], now) == Some(t)
      && AllSelfHashed(cfg.crypto, known, [y, z])
      && t.blocks == Append(Append([Genesis(cfg.crypto)], y), z)
      && t.accounts == Reorganised(cfg.crypto, s.accounts, b.transactions, c.transactions + d.transactions)
  {
    var g, y, z := Genesis(cfg.crypto), Received(cfg.crypto, c), Received(cfg.crypto, d);
    hide NodeOk, BlocksCollisionFree, AllAuthentic, BlockWork, Reorganised, AdoptStep, HeightOf, Reoffer, ReplaceFrom;
    hide Transactions, AppendAll, BranchWork;
    assert s.blocks[..1] == [g] && s.blocks[1..] == [s.blocks[1]];
    OneBlock(s.blocks[1]);
    TwoBlocks([g], y, z);
    TwoOutweighOne(cfg.params.initialDifficulty);
    ThirdIsUnknown(cfg, known, b, c, d, now);
    assert ForkView(s.blocks, 0, [y, z]) == [g, y, z];
    Adopts(cfg, known, s, 0, [y, z], now);
    t := AdoptStep(cfg, s, [y, z], now).value;
  }

  // ---- A reward on both branches ----

  function Reward(m: Str, amount: u64): Transaction {
    Transaction(COINBASE, m, [], amount, [], 0, 0)
  }

  // `m` pays someone else out of a reward, in its first transaction.
  predicate Spends(pay: Transaction, m: Str, reward: u64) {
    && pay.sender == m && pay.recipient != m && pay.nonce == 0
    && 0 < pay.amount + pay.fee <= reward <= MINING_REWARD
  }

  lemma SpentIsValid(c: Crypto, m: Str, pay: Transaction, reward: u64)
    requires Spends(pay, m, reward) && HasValidSignature(c, pay)
    ensures var txs := [Reward(m, reward), pay];
      && CoinbaseAmountOk(txs) && AllAuthentic(c, txs)
      && Replay(EMPTY, txs).Some? && Balance(Replay(EMPTY, txs).value, m) == reward - (pay.amount + pay.fee)
  {
    var txs := [Reward(m, reward), pay];
    assert OnlyCoinbase(txs, 0) && txs[..0] + txs[1..] == [pay];
    assert [pay][..0] == [] && Fees64([pay]) == pay.fee;
    assert txs[0].amount <= Add64(MINING_REWARD, Fees64(txs[..0] + txs[1..]));
    assert txs[1..] == [pay] && [pay][1..] == [];
    var one := Apply(EMPTY, txs[0]).value;
    assert one.balances == map[m := reward] && CanApply(one, pay);
    assert Replay(EMPTY, txs) == Replay(one, [pay]) == Some(Apply(one, pay).value);
  }

  // The old reward can no longer be taken back, and the new one is paid all the same.
  lemma RewardedTwice(c: Crypto, a: Accounts, m: Str, pay: Transaction, reward: u64)
    requires Spends(pay, m, reward) && pay.sender != COINBASE && TxHash(c, pay) != TxHash(c, Reward(m, reward))
    requires Balance(a, m) < reward
    ensures var txs := [Reward(m, reward), pay];
      Balance(Reorganised(c, a, txs, txs), m) == Balance(a, m) + reward
  {
    var r := Reward(m, reward);
    var txs := [r, pay];
    hide TxHash;
    assert pay in txs;
    assert Hashes(c, txs) == {TxHash(c, pay)};
    assert txs[1..] == [pay] && Without(c, [pay], {TxHash(c, pay)}) == [];
    assert Without(c, txs, {TxHash(c, pay)}) == [r];
    assert [r][..0] == [] && [r][1..] == [];
    assert ReverseAll(a, [r]) == a;
    assert ApplyAll(a, [r]) == Apply(a, r).value;
    assert Reorganised(c, a, txs, txs) == Apply(a, r).value;
  }

  /** A reorganisation can leave the ledger behind. A miner is rewarded on both branches
      and spends some of it in a signed payment that both contain. The payment is shared and
      stays; the old reward is spent, so that taking it back is refused, and the refusal is
      ignored. The node then credits the miner with both rewards, though only one is on the
      chain. */
  lemma SpentRewardIsKept(cfg: Config, known: iset<Wire>, withDisk: bool, b: Wire, c: Wire, d: Wire,
                          m: Str, pay: Transaction, reward: u64, now: u64) returns (s: Node, t: Node)
    requires Scene(cfg, known, b, c, d, now) && MeetsTarget(cfg.crypto.blockHash(b), b.difficulty)
    requires b.transactions == c.transactions == [Reward(m, reward), pay] && d.transactions == []
    requires Spends(pay, m, reward) && HasValidSignature(cfg.crypto, pay)
    requires TxHash(cfg.crypto, pay) != TxHash(cfg.crypto, Reward(m, reward))
    ensures var x, y, z := Received(cfg.crypto, b), Received(cfg.crypto, c), Received(cfg.crypto, d);
      && Run(cfg, known, [Initial(cfg, withDisk), s, t], [SubmitBlock(x, now), Adopt([y, z], now)])
      && t.blocks == Append(Append([Genesis(cfg.crypto)], y), z)
    ensures LedgerTracks(s) && !LedgerTracks(t)
    ensures var replayed := Replay(EMPTY, Transactions(t.blocks));
      replayed.Some? && Balance(t.accounts, m) == Balance(replayed.value, m) + reward
  {
    var txs := [Reward(m, reward), pay];
    hide Scene, Run, MeetsTarget, CoinbaseAmountOk, Append, AllAuthentic, Replay, Reorganised, Transactions;
    hide HasValidSignature;
    hide TxHash, Balance;
    SpentIsValid(cfg.crypto, m, pay, reward);
    assert c.transactions + d.transactions == txs;
    assert pay.sender != COINBASE by { SignedIsNoCoinbase(cfg.crypto, pay); }
    s, t := SubmitsThenAdopts(cfg, known, withDisk, b, c, d, now);
    OnGenesis(cfg.crypto, Received(cfg.crypto, b));
    TwoOnGenesis(cfg.crypto, Received(cfg.crypto, c), Received(cfg.crypto, d));
    RewardedTwice(cfg.crypto, s.accounts, m, pay, reward);
  }

  lemma OnGenesis(c: Crypto, b: Block)
    ensures Transactions(Append([Genesis(c)], b)) == b.wire.transactions
  {
    var blocks := Append([Genesis(c)], b);
    assert blocks[..1] == [Genesis(c)];
    OneBlock(Genesis(c));
  }

  lemma TwoOnGenesis(c: Crypto, x: Block, y: Block)
    ensures Transactions(Append(Append([Genesis(c)], x), y)) == x.wire.transactions + y.wire.transactions
  {
    OnGenesis(c, x);
    var blocks := Append(Append([Genesis(c)], x), y);
    assert blocks[..2] == Append([Genesis(c)], x);
  }

  // ---- An address at zero is not an address without an entry ----

  // Taking back the only reward leaves its address at zero.
  lemma TakenBack(c: Crypto, x: Str, reward: u64)
    ensures var txs := [Reward(x, reward)];
      && CoinbaseAmountOk(txs) == (reward <= MINING_REWARD) && AllAuthentic(c, txs) && Replay(EMPTY, txs).Some?
      && Reorganised(c, Replay(EMPTY, txs).value, txs, []) == Accounts(map[x := 0], map[])
  {
    var r := Reward(x, reward);
    var txs := [r];
    assert OnlyCoinbase(txs, 0) && txs[..0] + txs[1..] == [];
    assert forall k: nat :: OnlyCoinbase(txs, k) ==> k == 0;
    assert txs[1..] == [] && txs[..0] == [];
    var one := Apply(EMPTY, r).value;
    assert one == Accounts(map[x := reward], map[]);
    assert Hashes(c, []) == {};
    WithoutNothing(c, txs, {});
    WithoutNothing(c, [], Hashes(c, txs));
    assert ReverseAll(one, txs) == Reverse(one, r).value == Accounts(map[x := 0], map[]);
  }

  // A transaction that costs nothing.
  predicate Free(tx: Transaction) {
    tx.amount == tx.fee == tx.nonce == 0
  }

  lemma FreeNeedsEntry(x: Str, free: Transaction)
    requires Free(free) && free.sender == x && x != COINBASE
    ensures Replay(Accounts(map[x := 0], map[]), [free]).Some? && Replay(EMPTY, [free]).None?
    ensures CoinbaseAmountOk([free])
    ensures Same(Accounts(map[x := 0], map[]), EMPTY)
  {
    assert [free][1..] == [];
  }

  /** A reversal leaves its address at zero instead of removing it, and a sender at zero may
      send a transaction that costs nothing. A node that has seen the reward of `x` come and
      go accepts such a transaction; one that replays the chain refuses it. */
  lemma FreeTransactionDivides(cfg: Config, known: iset<Wire>, withDisk: bool, b: Wire, c: Wire, d: Wire, e: Wire,
                               reward: u64, free: Transaction, now: u64) returns (s: Node, t: Node, u: Node)
    requires Scene(cfg, known, b, c, d, now) && e in known && e.prevHash == cfg.crypto.blockHash(d)
    requires e.difficulty == cfg.params.initialDifficulty
             && d.timestamp < e.timestamp <= now + cfg.params.maxFutureDrift
    requires MeetsTarget(cfg.crypto.blockHash(b), b.difficulty) && MeetsTarget(cfg.crypto.blockHash(e), e.difficulty)
    requires b.transactions == [Reward(free.sender, reward)] && reward <= MINING_REWARD
    requires c.transactions == d.transactions == [] && e.transactions == [free]
    requires Free(free) && HasValidSignature(cfg.crypto, free)
    ensures var v, x := Received(cfg.crypto, b), Received(cfg.crypto, c);
      var y, z := Received(cfg.crypto, d), Received(cfg.crypto, e);
      && Run(cfg, known, [Initial(cfg, withDisk), s, t] + [u],
             [SubmitBlock(v, now), Adopt([x, y], now)] + [SubmitBlock(z, now)])
      && u.blocks == Append(t.blocks, z)
    ensures LedgerTracks(s) && LedgerTracks(t) && !LedgerTracks(u)
  {
    var x := free.sender;
    hide Run, MeetsTarget, CoinbaseAmountOk, AllAuthentic, Replay, Reorganised, Transactions, BlockWork, Same;
    hide BlocksCollisionFree;
    hide SubmitStep;
    TakenBack(cfg.crypto, x, reward);
    FreeNeedsEntry(x, free);
    assert c.transactions + d.transactions == [] && AllAuthentic(cfg.crypto, [])
           && AllAuthentic(cfg.crypto, [free]) by {
      AloneAuthentic(cfg.crypto, free);
    }
    s, t := SubmitsThenAdopts(cfg, known, withDisk, b, c, d, now);
    OnGenesis(cfg.crypto, Received(cfg.crypto, b));
    TwoOnGenesis(cfg.crypto, Received(cfg.crypto, c), Received(cfg.crypto, d));
    NothingReplays();
    var z := Received(cfg.crypto, e);
    ThirdIsYoung(cfg, known, b, c, d, e, now);
    Submits(cfg, t, z, now);
    u := Extended(cfg, t, z, Replay(t.accounts, e.transactions).value);
    assert Next(cfg, t, SubmitBlock(z, now), u);
    RunMore(cfg, known, [Initial(cfg, withDisk), s, t],
            [SubmitBlock(Received(cfg.crypto, b), now), Adopt([Received(cfg.crypto, c), Received(cfg.crypto, d)], now)],
            SubmitBlock(z, now), u);
    MoreTransactions(t.blocks, z);
    assert [] + [free] == [free];
    SameAsSelf(s.accounts);
  }

  lemma AloneAuthentic(c: Crypto, tx: Transaction)
    ensures AllAuthentic(c, []) && (HasValidSignature(c, tx) ==> AllAuthentic(c, [tx]))
  {}

  lemma NothingReplays()
    ensures Replay(EMPTY, []) == Some(EMPTY)
  {}

  lemma SameAsSelf(a: Accounts)
    ensures Same(a, a)
  {}

  lemma MoreTransactions(blocks: seq<Block>, b: Block)
    ensures Transactions(Append(blocks, b)) == Transactions(blocks) + b.wire.transactions
  {
    var longer := Append(blocks, b);
    assert longer[..|blocks|] == blocks;
  }

  lemma ThirdIsYoung(cfg: Config, known: iset<Wire>, b: Wire, c: Wire, d: Wire, e: Wire, now: u64)
    requires Scene(cfg, known, b, c, d, now)
    requires e.difficulty == cfg.params.initialDifficulty
             && d.timestamp < e.timestamp <= now + cfg.params.maxFutureDrift
    ensures var two := Append(Append([Genesis(cfg.crypto)], Received(cfg.crypto, c)), Received(cfg.crypto, d));
      Young(cfg.params, two + [Received(cfg.crypto, e)], now) && two[|two| - 1].hash == cfg.crypto.blockHash(d)
  {
    hide BlockWork, TipWork, BlocksCollisionFree;
  }

  // ---- A credit that wraps ----

  // On a fresh ledger a reorganisation to a single reward pays it.
  lemma RewardPaid(c: Crypto, x: Str, reward: u64)
    ensures var one := Accounts(map[x := reward], map[]);
      && Reorganised(c, EMPTY, [], [Reward(x, reward)]) == one && Replay(EMPTY, [Reward(x, reward)]) == Some(one)
  {
    var txs := [Reward(x, reward)];
    assert Hashes(c, []) == {} && txs[1..] == [];
    WithoutNothing(c, txs, {});
    WithoutNothing(c, [], Hashes(c, txs));
    assert ReverseAll(EMPTY, []) == EMPTY && ApplyAll(EMPTY, txs) == Apply(EMPTY, txs[0]).value;
  }

  // A reward on top of all that 64 bits hold wraps, and can then not be taken back.
  lemma WrapsForGood(c: Crypto, x: Str, reward: u64, bad: Transaction)
    requires 0 < reward && !Authentic(c, bad)
    ensures var full := Accounts(map[x := LIMIT64 - 1], map[]);
      ApplyBlock(c, full, [Reward(x, reward), bad]) == (false, Accounts(map[x := reward - 1], map[]))
  {
    var r, full := Reward(x, reward), Accounts(map[x := LIMIT64 - 1], map[]);
    var txs, next := [r, bad], Apply(full, r).value;
    assert txs[1..] == [bad] && next == Accounts(map[x := reward - 1], map[]) && !CanReverse(next, r);
    assert ApplyBlock(c, next, [bad]) == (false, next);
  }

  lemma RewardedAndBad(x: Str, reward: u64, bad: Transaction)
    requires reward <= MINING_REWARD && bad.sender != COINBASE && MINING_REWARD + bad.fee < LIMIT64
    ensures CoinbaseAmountOk([Reward(x, reward), bad])
  {
    var txs := [Reward(x, reward), bad];
    assert OnlyCoinbase(txs, 0) && txs[..0] + txs[1..] == [bad];
    assert [bad][..0] == [] && Fees64([bad]) == bad.fee;
    assert txs[0].amount <= Add64(MINING_REWARD, Fees64(txs[..0] + txs[1..]));
  }

  /** A refused block can leave its mark. A catch-up brings a coinbase that pays `x` all that
      64 bits hold. Then a block arrives that meets every check but one: it pays `x` a proper
      reward, and its second transaction is not signed. It is refused; but the reward has
      taken the balance of `x` around to where it cannot be taken back. */
  lemma WrappedCreditStays(cfg: Config, known: iset<Wire>, withDisk: bool, w: Wire, v: Wire, x: Str, reward: u64,
                           bad: Transaction, now: u64) returns (s: Node, t: Node)
    requires Adoptable(cfg, known, w, now) && w.transactions == [Reward(x, LIMIT64 - 1)]
    requires v in known && v.prevHash == cfg.crypto.blockHash(w) && v.difficulty == cfg.params.initialDifficulty
    requires w.timestamp < v.timestamp <= now + cfg.params.maxFutureDrift
    requires MeetsTarget(cfg.crypto.blockHash(v), v.difficulty) && v.transactions == [Reward(x, reward), bad]
    requires 0 < reward <= MINING_REWARD && !Authentic(cfg.crypto, bad) && MINING_REWARD + bad.fee < LIMIT64
    ensures Run(cfg, known, [Initial(cfg, withDisk), s] + [t],
                [Adopt([Received(cfg.crypto, w)], now)] + [SubmitBlock(Received(cfg.crypto, v), now)])
    ensures t.blocks == s.blocks && t.version == s.version
    ensures LedgerTracks(s) && !LedgerTracks(t)
    ensures Balance(s.accounts, x) == LIMIT64 - 1 && Balance(t.accounts, x) == reward - 1
  {
    var b := Received(cfg.crypto, v);
    hide Run, AdoptStep, MeetsTarget, CoinbaseAmountOk, BlockWork, Transactions, Replay, Reorganised, ApplyBlock;
    hide BlocksCollisionFree;
    s := AdoptsOne(cfg, known, withDisk, w, now);
    RewardPaid(cfg.crypto, x, LIMIT64 - 1);
    WrapsForGood(cfg.crypto, x, reward, bad);
    RewardedAndBad(x, reward, bad);
    OnGenesis(cfg.crypto, Received(cfg.crypto, w));
    t := s.(accounts := Accounts(map[x := reward - 1], map[]));
    assert Young(cfg.params, s.blocks + [b], now);
    Refused(cfg, s, b, now);
    assert Next(cfg, s, SubmitBlock(b, now), t);
    RunMore(cfg, known, [Initial(cfg, withDisk), s], [Adopt([Received(cfg.crypto, w)], now)], SubmitBlock(b, now), t);
    assert Balance(t.accounts, x) != Balance(s.accounts, x);
  }

  // ---- A stray block in an answer ----

  /** One block that does not belong spoils an answer. A fresh node adopts the block `w` when it
      comes alone, and adopts nothing when any block that does not build on it follows. */
  lemma StrayBlockSpoils(cfg: Config, known: iset<Wire>, withDisk: bool, w: Wire, stray: Block, now: u64)
    returns (s: Node)
    requires Adoptable(cfg, known, w, now) && SelfHashed(cfg.crypto, known, stray)
    requires stray.wire.prevHash != cfg.crypto.blockHash(w)
    ensures var start, b := Initial(cfg, withDisk), Received(cfg.crypto, w);
      && Run(cfg, known, [start, s], [Adopt([b], now)]) && s.blocks == Append(start.blocks, b)
      && Run(cfg, known, [start, start], [Adopt([b, stray], now)])
      && AdoptStep(cfg, start, [b, stray], now) == None
  {
    hide Run, BlocksCollisionFree, HeightOf, ValidPrefix, TryReorg, BlockWork, Reorganised, AllAuthentic;
    var start, b := Initial(cfg, withDisk), Received(cfg.crypto, w);
    s := AdoptsOne(cfg, known, withDisk, w, now);
    DistinctFromGenesis(cfg, known, w);
    AtGenesis(cfg.crypto, b.hash);
    assert KnownFront(start.blocks, [b, stray]) == 0 && [b, stray][0..] == [b, stray];
    assert !Linked([b, stray]) by {
      assert [b, stray][1].wire.prevHash != [b, stray][0].hash;
    }
    RunOfOne(cfg, known, withDisk, Adopt([b, stray], now), start);
  }

  // ---- An answer that comes too late ----

  /** Two more wires: `e` on top of `b`, and `f` on top of `e`. No block has transactions, those
      that are submitted meet their targets, and the work of three of them does not wrap. */
  ghost predicate Race(cfg: Config, known: iset<Wire>, b: Wire, c: Wire, d: Wire, e: Wire, f: Wire, now: u64) {
    && Scene(cfg, known, b, c, d, now) && e in known && f in known && cfg.params.initialDifficulty <= 61
    && e.prevHash == cfg.crypto.blockHash(b) && f.prevHash == cfg.crypto.blockHash(e)
    && e.difficulty == f.difficulty == cfg.params.initialDifficulty
    && b.timestamp < e.timestamp < f.timestamp <= now + cfg.params.maxFutureDrift
    && b.transactions == c.transactions == d.transactions == e.transactions == f.transactions == []
    && (forall w :: w in {b, e, f} ==> MeetsTarget(cfg.crypto.blockHash(w), w.difficulty))
  }

  lemma EmptyIsFine(c: Crypto, w: Wire)
    requires w.transactions == [] && MeetsTarget(c.blockHash(w), w.difficulty)
    ensures ContextFree(Received(c, w)) && AllAuthentic(c, [])
    ensures forall a: Accounts :: Replay(a, []) == Some(a)
  {}

  // The chain of genesis, `b`, `e` and `f`, as it grows.
  function Grown(c: Crypto, b: Wire, e: Wire, f: Wire): seq<Block> {
    Append(Append(Append([Genesis(c)], Received(c, b)), Received(c, e)), Received(c, f))
  }

  // One more empty block on top of the tip of a run.
  lemma GrowsBy(cfg: Config, known: iset<Wire>, states: seq<Node>, events: seq<Event>, w: Wire, now: u64)
    returns (s: Node)
    requires Run(cfg, known, states, events) && w in known && w.transactions == []
    requires var last := states[|states| - 1].blocks;
      && last != [] && w.prevHash == last[|last| - 1].hash && Young(cfg.params, last + [Received(cfg.crypto, w)], now)
    requires MeetsTarget(cfg.crypto.blockHash(w), w.difficulty)
    ensures Run(cfg, known, states + [s], events + [SubmitBlock(Received(cfg.crypto, w), now)])
    ensures s.blocks == Append(states[|states| - 1].blocks, Received(cfg.crypto, w))
  {
    var last, x := states[|states| - 1], Received(cfg.crypto, w);
    hide Run, Young, Append, MeetsTarget, ContextFree, AllAuthentic, Replay, SubmitStep;
    EmptyIsFine(cfg.crypto, w);
    Submits(cfg, last, x, now);
    s := Extended(cfg, last, x, last.accounts);
    assert Next(cfg, last, SubmitBlock(x, now), s);
    RunMore(cfg, known, states, events, SubmitBlock(x, now), s);
  }

  lemma {:induction false} RunFront(cfg: Config, known: iset<Wire>, states: seq<Node>, events: seq<Event>, n: nat)
    requires Run(cfg, known, states, events) && n <= |events|
    ensures Run(cfg, known, states[..n + 1], events[..n])
  {
    hide Next, EventKnown, BlocksCollisionFree, Genesis;
  }

  // Both stages of the longer chain are young, and their works are multiples of one.
  lemma RaceIsYoung(cfg: Config, known: iset<Wire>, b: Wire, c: Wire, d: Wire, e: Wire, f: Wire, now: u64)
    requires Race(cfg, known, b, c, d, e, f, now)
    ensures var one := Append([Genesis(cfg.crypto)], Received(cfg.crypto, b));
      && Young(cfg.params, one + [Received(cfg.crypto, e)], now) && one[|one| - 1].hash == e.prevHash
      && var two := Append(one, Received(cfg.crypto, e));
         Young(cfg.params, two + [Received(cfg.crypto, f)], now) && two[|two| - 1].hash == f.prevHash
  {
    hide BlockWork, TipWork, BlocksCollisionFree, MeetsTarget;
  }

  lemma RaceWork(cfg: Config, known: iset<Wire>, b: Wire, c: Wire, d: Wire, e: Wire, f: Wire, now: u64)
    requires Race(cfg, known, b, c, d, e, f, now)
    ensures var t := Append(Append([Genesis(cfg.crypto)], Received(cfg.crypto, c)), Received(cfg.crypto, d));
      TotalWork(t) < LIMIT64 && TipWork(Grown(cfg.crypto, b, e, f)) > TipWork(t)
  {
    hide BlocksCollisionFree, MeetsTarget, Genesis;
    var t := Append(Append([Genesis(cfg.crypto)], Received(cfg.crypto, c)), Received(cfg.crypto, d));
    PowersFit(cfg.params.initialDifficulty + 2);
    assert Pow2(cfg.params.initialDifficulty + 2) == 2 * Pow2(cfg.params.initialDifficulty + 1);
    var w := BlockWork(cfg.params.initialDifficulty);
    assert 1 <= w && 4 * w < LIMIT64;
    hide BlockWork;
    AtGenesis(cfg.crypto, ZERO_HASH);
    assert TipWork(t) == 2 * w && TipWork(Grown(cfg.crypto, b, e, f)) == 3 * w;
    assert t[..2] == Append([Genesis(cfg.crypto)], Received(cfg.crypto, c)) && t[..2][..1] == [Genesis(cfg.crypto)];
    assert TotalWork(t) == TotalWork(t[..2]) + w && TotalWork(t[..2]) == w;
  }

  // Where the answer starts: at `b`, the tip of the node that asked.
  lemma RaceMatch(cfg: Config, known: iset<Wire>, s: Node, u: Node, b: Wire, e: Wire, f: Wire)
    requires NodeOk(cfg, known, u) && s.blocks == Append([Genesis(cfg.crypto)], Received(cfg.crypto, b))
    requires u.blocks == Grown(cfg.crypto, b, e, f)
    ensures LocatorMatch(u.blocks, Locator(s.blocks)) == Some(1) && u.blocks[1].hash == cfg.crypto.blockHash(b)
  {
    hide NodeOk, HeightOf, BlockWork, TipWork, Genesis;
    assert s.blocks[1] == u.blocks[1] && Agree(u.blocks, u.blocks, 1);
    HeightAt(cfg, known, u, u, 1);
    LocatorUnfolds(s.blocks, 1, 1, 0);
    assert Locator(s.blocks)[0] == s.blocks[1].hash;
  }

  lemma FirstIsGone(cfg: Config, known: iset<Wire>, b: Wire, c: Wire, d: Wire, now: u64)
    requires Scene(cfg, known, b, c, d, now)
    ensures var t := Append(Append([Genesis(cfg.crypto)], Received(cfg.crypto, c)), Received(cfg.crypto, d));
      HeightOf(t, cfg.crypto.blockHash(b)).None?
  {
    hide BlockWork, HeightOf, TipWork;
    DistinctFromGenesis(cfg, known, b);
    DistinctFromGenesis(cfg, known, c);
    var t := Append(Append([Genesis(cfg.crypto)], Received(cfg.crypto, c)), Received(cfg.crypto, d));
    assert d.prevHash != b.prevHash;
    forall i | 0 <= i < |t| ensures t[i].hash != cfg.crypto.blockHash(b) {
      assert i == 0 || i == 1 || i == 2;
    }
  }

  /** The answer to a catch-up can come too late. A node at `b` asks another that has `e` and
      `f` on top of it. Before the answer is adopted the node switches to `c` and `d`. The
      other node is still the heavier, yet its answer is not adopted, because it builds on
      `b`, which is gone. */
  lemma AnswerComesTooLate(cfg: Config, known: iset<Wire>, withDisk: bool, b: Wire, c: Wire, d: Wire, e: Wire, f: Wire,
                           limit: nat, now: u64) returns (s: Node, t: Node, states: seq<Node>, u: Node)
    requires Race(cfg, known, b, c, d, e, f, now) && limit >= 2
    ensures var v, x, y := Received(cfg.crypto, b), Received(cfg.crypto, c), Received(cfg.crypto, d);
      var events := [SubmitBlock(v, now)] + [SubmitBlock(Received(cfg.crypto, e), now)];
      && Run(cfg, known, [Initial(cfg, withDisk), s, t], [SubmitBlock(v, now), Adopt([x, y], now)])
      && Run(cfg, known, states + [u], events + [SubmitBlock(Received(cfg.crypto, f), now)])
    ensures s.blocks != [] && LocatorMatch(u.blocks, Locator(s.blocks)) == Some(1) && |u.blocks| == 4
    ensures TipWork(u.blocks) > TipWork(t.blocks) && HeightOf(t.blocks, u.blocks[1].hash).None?
    ensures AdoptStep(cfg, t, ReceivedAll(cfg.crypto, BlocksAfter(u.blocks, Locator(s.blocks), limit)), now) == None
  {
    hide Run, Young, BlockWork, MeetsTarget, ContextFree, AllAuthentic, Replay, AdoptStep, ReceivedAll, HeightOf;
    hide NodeOk, LocatorMatch, Locator, TotalWork, TipWork, BlocksCollisionFree, Initial;
    var start, v := Initial(cfg, withDisk), Received(cfg.crypto, b);
    var x, y := Received(cfg.crypto, c), Received(cfg.crypto, d);
    EmptyIsFine(cfg.crypto, b);
    assert c.transactions + d.transactions == [];
    s, t := SubmitsThenAdopts(cfg, known, withDisk, b, c, d, now);
    RunFront(cfg, known, [start, s, t], [SubmitBlock(v, now), Adopt([x, y], now)], 1);
    assert [start, s, t][..2] == [start, s] && [SubmitBlock(v, now), Adopt([x, y], now)][..1] == [SubmitBlock(v, now)];
    RaceIsYoung(cfg, known, b, c, d, e, f, now);
    var s2 := GrowsBy(cfg, known, [start, s], [SubmitBlock(v, now)], e, now);
    states := [start, s] + [s2];
    var events := [SubmitBlock(v, now)] + [SubmitBlock(Received(cfg.crypto, e), now)];
    u := GrowsBy(cfg, known, states, events, f, now);
    TooLate(cfg, known, [start, s, t], [SubmitBlock(v, now), Adopt([x, y], now)], states + [u],
            events + [SubmitBlock(Received(cfg.crypto, f), now)], b, c, d, e, f, limit, now);
  }

  lemma TooLate(cfg: Config, known: iset<Wire>, one: seq<Node>, oneEvents: seq<Event>,
                two: seq<Node>, twoEvents: seq<Event>, b: Wire, c: Wire, d: Wire, e: Wire, f: Wire,
                limit: nat, now: u64)
    requires Race(cfg, known, b, c, d, e, f, now) && limit >= 2
    requires Run(cfg, known, one, oneEvents) && |one| == 3 && Run(cfg, known, two, twoEvents) && |two| == 4
    requires one[1].blocks == Append([Genesis(cfg.crypto)], Received(cfg.crypto, b))
    requires one[2].blocks == Append(Append([Genesis(cfg.crypto)], Received(cfg.crypto, c)), Received(cfg.crypto, d))
    requires two[3].blocks == Grown(cfg.crypto, b, e, f)
    ensures var s, t, u := one[1], one[2], two[3];
      && s.blocks != [] && LocatorMatch(u.blocks, Locator(s.blocks)) == Some(1) && |u.blocks| == 4
      && TipWork(u.blocks) > TipWork(t.blocks) && HeightOf(t.blocks, u.blocks[1].hash).None?
      && AdoptStep(cfg, t, ReceivedAll(cfg.crypto, BlocksAfter(u.blocks, Locator(s.blocks), limit)), now) == None
  {
    hide Run, MeetsTarget, AdoptStep, ReceivedAll, HeightOf, NodeOk, LocatorMatch, Locator, TotalWork, TipWork;
    hide BlocksCollisionFree, BlockWork;
    var s, t, u := one[1], one[2], two[3];
    RunInvariant(cfg, known, one, oneEvents, 2);
    RunInvariant(cfg, known, two, twoEvents, 3);
    RaceMatch(cfg, known, s, u, b, e, f);
    RaceWork(cfg, known, b, c, d, e, f, now);
    FirstIsGone(cfg, known, b, c, d, now);
    assert WithinDrift(cfg.params, u.blocks, 1, now);
    LateAdoption(cfg, known, t, u, 1, now);
  }
}
