/**
 Producing a block: the template taken from the node, the coinbase the miner
 prepends (src/app/Orchestrator.cpp), the search for a nonce, and the theorem that
 the node accepts what comes out as long as its tip has not moved.
 */
module Mining {
  import opened Types
  import opened Accounting
  import opened Consensus
  import opened Chain
  import opened Orphans
  import opened Pending
  import opened Disk
  import opened ChainLaws
  import opened NodeModel
  import opened NodeInvariant
  import opened Manager
  import opened Runs
  import opened LedgerReorg
  import opened Tracking

  // ---- Selecting transactions ----

  // The candidates that apply one after the other, skipping those that do not.
  function Selected(a: Accounts, txs: seq<Transaction>): seq<Transaction>
    decreases |txs|
  {
    if txs == [] then []
    else if CanApply(a, txs[0]) then [txs[0]] + Selected(Apply(a, txs[0]).value, txs[1..])
    else Selected(a, txs[1..])
  }

  lemma {:induction false} SelectedReplays(a: Accounts, txs: seq<Transaction>)
    ensures Replay(a, Selected(a, txs)).Some?
    ensures forall tx :: tx in Selected(a, txs) ==> tx in txs
    decreases |txs|
  {
    hide Apply, CanApply;
    if txs != [] {
      assert txs == [txs[0]] + txs[1..];
      if CanApply(a, txs[0]) {
        var next := Apply(a, txs[0]).value;
        SelectedReplays(next, txs[1..]);
        var chosen := Selected(next, txs[1..]);
        assert ([txs[0]] + chosen)[1..] == chosen;
      } else {
        SelectedReplays(a, txs[1..]);
      }
    }
  }

  // ---- Nothing that could be taken is left out ----

  ghost predicate Increasing(picks: seq<nat>, n: nat) {
    && (forall i :: 0 <= i < |picks| ==> picks[i] < n)
    && (forall i, j :: 0 <= i < j < |picks| ==> picks[i] < picks[j])
  }

  // The entries of `txs` at the positions `picks`.
  function At(txs: seq<Transaction>, picks: seq<nat>): (r: seq<Transaction>)
    requires forall i :: 0 <= i < |picks| ==> picks[i] < |txs|
    ensures |r| == |picks| && forall i :: 0 <= i < |r| ==> r[i] == txs[picks[i]]
  {
    seq(|picks|, i requires 0 <= i < |picks| => txs[picks[i]])
  }

  // The first `k` positions are exactly those below `n`.
  ghost predicate SplitsAt(picks: seq<nat>, k: nat, n: nat) {
    && k <= |picks| && (forall i :: 0 <= i < k ==> picks[i] < n) && (forall i :: k <= i < |picks| ==> picks[i] >= n)
  }

  // Position `n` is taken exactly when it applies to the ledger that the first `k` ones taken lead to.
  ghost predicate Decided(a: Accounts, txs: seq<Transaction>, picks: seq<nat>, k: nat, n: nat)
    requires Increasing(picks, |txs|) && k <= |picks| && n < |txs|
  {
    var before := Replay(a, At(txs, picks[..k]));
    before.Some? && (n in picks <==> CanApply(before.value, txs[n]))
  }

  // What going through `txs` in order takes: every position is decided by the ones taken before it.
  ghost predicate Greedy(a: Accounts, txs: seq<Transaction>, picks: seq<nat>)
    requires Increasing(picks, |txs|)
  {
    forall k: nat, n: nat :: n < |txs| && SplitsAt(picks, k, n) ==> Decided(a, txs, picks, k, n)
  }

  function Shifted(picks: seq<nat>): (r: seq<nat>)
    ensures |r| == |picks| && forall i :: 0 <= i < |r| ==> r[i] == picks[i] + 1
  {
    seq(|picks|, i requires 0 <= i < |picks| => picks[i] + 1)
  }

  // The positions of the selection among the candidates.
  lemma {:induction false} SelectedPicks(a: Accounts, txs: seq<Transaction>) returns (picks: seq<nat>)
    ensures Increasing(picks, |txs|) && Selected(a, txs) == At(txs, picks) && Greedy(a, txs, picks)
    decreases |txs|
  {
    hide Apply, CanApply;
    if txs == [] {
      picks := [];
    } else {
      var rest := txs[1..];
      if CanApply(a, txs[0]) {
        var next := Apply(a, txs[0]).value;
        var later := SelectedPicks(next, rest);
        picks := [0] + Shifted(later);
        TakenFirst(a, txs, later);
      } else {
        var later := SelectedPicks(a, rest);
        picks := Shifted(later);
        LeftFirst(a, txs, later);
      }
    }
  }

  lemma TakenFirst(a: Accounts, txs: seq<Transaction>, later: seq<nat>)
    requires txs != [] && CanApply(a, txs[0]) && Increasing(later, |txs| - 1)
    requires Greedy(Apply(a, txs[0]).value, txs[1..], later)
    ensures Increasing([0] + Shifted(later), |txs|)
    ensures At(txs, [0] + Shifted(later)) == [txs[0]] + At(txs[1..], later)
    ensures Greedy(a, txs, [0] + Shifted(later))
  {
    FirstPosition(txs, later);
    var picks := [0] + Shifted(later);
    assert Decided(a, txs, picks, 0, 0) by {
      assert picks[0] == 0 && At(txs, picks[..0]) == [];
    }
    hide Apply, CanApply, Decided, Shifted, SplitsAt, At, Increasing;
    forall k: nat, n: nat | n < |txs| && SplitsAt(picks, k, n) ensures Decided(a, txs, picks, k, n) {
      SplitsLater(later, k, n);
      if n > 0 {
        TakenLater(a, txs, later, k, n);
      }
    }
  }

  lemma FirstPosition(txs: seq<Transaction>, later: seq<nat>)
    requires txs != [] && Increasing(later, |txs| - 1)
    ensures Increasing([0] + Shifted(later), |txs|)
    ensures At(txs, [0] + Shifted(later)) == [txs[0]] + At(txs[1..], later)
  {
    var picks := [0] + Shifted(later);
    assert picks[0] == 0 && forall i :: 1 <= i < |picks| ==> picks[i] == later[i - 1] + 1;
  }

  lemma SplitsLater(later: seq<nat>, k: nat, n: nat)
    requires SplitsAt([0] + Shifted(later), k, n)
    ensures n == 0 ==> k == 0
    ensures n > 0 ==> 1 <= k <= |later| + 1 && SplitsAt(later, k - 1, n - 1)
  {
    var picks := [0] + Shifted(later);
    assert picks[0] == 0 && forall i :: 0 <= i < |later| ==> later[i] + 1 == picks[i + 1];
  }

  lemma TakenLater(a: Accounts, txs: seq<Transaction>, later: seq<nat>, k: nat, n: nat)
    requires txs != [] && CanApply(a, txs[0]) && Increasing(later, |txs| - 1)
    requires Increasing([0] + Shifted(later), |txs|) && 1 <= k <= |later| + 1 && 1 <= n < |txs|
    requires Decided(Apply(a, txs[0]).value, txs[1..], later, k - 1, n - 1)
    ensures Decided(a, txs, [0] + Shifted(later), k, n)
  {
    hide Apply, CanApply;
    var front := At(txs[1..], later[..k - 1]);
    assert At(txs, ([0] + Shifted(later))[..k]) == [txs[0]] + front;
    assert ([txs[0]] + front)[1..] == front;
    ShiftedMember(later, n);
  }

  lemma LeftFirst(a: Accounts, txs: seq<Transaction>, later: seq<nat>)
    requires txs != [] && !CanApply(a, txs[0]) && Increasing(later, |txs| - 1)
    requires Greedy(a, txs[1..], later)
    ensures Increasing(Shifted(later), |txs|) && At(txs, Shifted(later)) == At(txs[1..], later)
    ensures Greedy(a, txs, Shifted(later))
  {
    hide Apply, CanApply;
    var picks := Shifted(later);
    assert Decided(a, txs, picks, 0, 0) by {
      assert At(txs, picks[..0]) == [];
    }
    forall k: nat, n: nat | n < |txs| && SplitsAt(picks, k, n) ensures Decided(a, txs, picks, k, n) {
      if n > 0 {
        assert SplitsAt(later, k, n - 1);
        assert Decided(a, txs[1..], later, k, n - 1);
        assert At(txs, picks[..k]) == At(txs[1..], later[..k]);
        ShiftedMember(later, n);
      }
    }
  }

  lemma ShiftedMember(picks: seq<nat>, n: nat)
    requires n >= 1
    ensures n in Shifted(picks) <==> n - 1 in picks
    ensures n in [0] + Shifted(picks) <==> n - 1 in picks
  {
    if n - 1 in picks {
      var i :| 0 <= i < |picks| && picks[i] == n - 1;
      assert Shifted(picks)[i] == n;
    }
  }

  datatype Template = Template(
    prevHash: Hash,
    height: nat,
    timestamp: u64,
    difficulty: u32,
    version: nat,
    transactions: seq<Transaction>)

  function TemplateOf(cfg: Config, s: Node, limit: nat, now: u64): Template
    requires s.blocks != []
  {
    var height := |s.blocks|;
    var earliest := Add64(MedianTimePast(height, cfg.params.mtpWindow, s.blocks), 1);
    Template(s.blocks[height - 1].hash, height, if now > earliest then now else earliest,
             NextDifficulty(height, cfg.params, s.blocks), s.version,
             Selected(s.accounts, Top(s.pending, limit)))
  }

  // `select_transactions`, on a copy of the ledger.
  method SelectTransactions(node: ChainManager, limit: nat) returns (valid: seq<Transaction>)
    requires node.Valid()
    ensures valid == Selected(node.ledger.View(), Top(node.mempool.pending, limit))
  {
    hide Apply, CanApply, NodeOk, MempoolOk, PoolOk;
    var candidates := node.mempool.GetTransactionsForBlock(limit);
    var simulated := new Ledger();
    simulated.balances, simulated.nonces := node.ledger.balances, node.ledger.nonces;
    valid := [];
    ghost var whole := Selected(node.ledger.View(), candidates);
    for i := 0 to |candidates|
      invariant valid + Selected(simulated.View(), candidates[i..]) == whole
    {
      assert candidates[i..][0] == candidates[i] && candidates[i..][1..] == candidates[i + 1..];
      var applied := simulated.ApplyTransaction(candidates[i]);
      if applied {
        ghost var rest := Selected(simulated.View(), candidates[i + 1..]);
        assert valid + ([candidates[i]] + rest) == (valid + [candidates[i]]) + rest;
        valid := valid + [candidates[i]];
      }
    }
    assert candidates[|candidates|..] == [];
  }

  // `block_template`
  method BlockTemplate(node: ChainManager, limit: nat, now: u64) returns (t: Template)
    requires node.Valid()
    ensures t == TemplateOf(node.cfg, node.View(), limit, now)
  {
    hide NodeOk, MempoolOk, PoolOk, MedianTimePast, NextDifficulty, Selected;
    var height := |node.chain.blocks|;
    var median := ComputeMedianTimePast(height, node.cfg.params.mtpWindow, node.chain.blocks);
    var transactions := SelectTransactions(node, limit);
    t := Template(node.chain.blocks[height - 1].hash, height,
                  if now > Add64(median, 1) then now else Add64(median, 1),
                  NextDifficulty(height, node.cfg.params, node.chain.blocks), node.tipVersion, transactions);
  }

  lemma SplitExists(picks: seq<nat>, n: nat, size: nat) returns (k: nat)
    requires Increasing(picks, size)
    ensures SplitsAt(picks, k, n)
  {
    k := 0;
    while k < |picks| && picks[k] < n
      invariant k <= |picks| && forall i :: 0 <= i < k ==> picks[i] < n
    {
      k := k + 1;
    }
  }

  /** A template takes, among the best `limit` pending transactions and in their order,
      everything it can: whatever it leaves out is refused by the ledger that the ones taken
      before it lead to. */
  lemma TemplateTakesAll(cfg: Config, s: Node, limit: nat, now: u64) returns (picks: seq<nat>)
    requires s.blocks != []
    ensures var candidates, chosen := Top(s.pending, limit), TemplateOf(cfg, s, limit, now).transactions;
      && Increasing(picks, |candidates|) && chosen == At(candidates, picks)
      && forall n: nat :: n < |candidates| && n !in picks ==>
           exists k: nat :: && SplitsAt(picks, k, n) && Replay(s.accounts, chosen[..k]).Some?
                            && !CanApply(Replay(s.accounts, chosen[..k]).value, candidates[n])
  {
    hide MedianTimePast, NextDifficulty, Replay, CanApply, Selected;
    var candidates := Top(s.pending, limit);
    picks := SelectedPicks(s.accounts, candidates);
    var chosen := At(candidates, picks);
    forall n: nat | n < |candidates| && n !in picks
      ensures exists k: nat :: && SplitsAt(picks, k, n) && Replay(s.accounts, chosen[..k]).Some?
                               && !CanApply(Replay(s.accounts, chosen[..k]).value, candidates[n])
    {
      var k := SplitExists(picks, n, |candidates|);
      assert Decided(s.accounts, candidates, picks, k, n);
      assert At(candidates, picks[..k]) == chosen[..k];
    }
  }

  /** A template names the tip as the parent and is dated with the least time that is neither
      before the clock nor at or before the median, if there is one in 64 bits. */
  lemma TemplateIsNext(cfg: Config, s: Node, limit: nat, now: u64)
    requires s.blocks != []
    ensures var t, p := TemplateOf(cfg, s, limit, now), cfg.params;
      var median := MedianTimePast(|s.blocks|, p.mtpWindow, s.blocks);
      && t.height == |s.blocks| && t.prevHash == s.blocks[t.height - 1].hash && t.version == s.version
      && t.difficulty == NextDifficulty(t.height, p, s.blocks)
      && t.timestamp >= now
      && (median + 1 < LIMIT64 ==>
            t.timestamp > median && (t.timestamp == now || t.timestamp == median + 1))
      && (median + 1 == LIMIT64 ==> t.timestamp == now)
  {
    hide MedianTimePast, NextDifficulty, Selected;
  }

  // ---- The miner ----

  function Coinbase(x: Str, txs: seq<Transaction>): Transaction {
    Transaction(COINBASE, x, [], Add64(MINING_REWARD, Fees64(txs)), [], 0, 0)
  }

  // With a reward address configured, the miner's coinbase comes first.
  function Filled(x: Str, txs: seq<Transaction>): seq<Transaction> {
    if x == [] then txs else [Coinbase(x, txs)] + txs
  }

  const MAX_NONCE: u32 := LIMIT32 - 1
  const CANCEL_CHECK_INTERVAL: nat := 0xffff
  const MAX_TIMESTAMP_BUMPS: nat := 60

  // The block content tried after `bumps` timestamp bumps with nonce `nonce`.
  function Attempt(start: Wire, bumps: nat, nonce: u32): Wire
    requires bumps < LIMIT64
  {
    start.(timestamp := Add64(start.timestamp, bumps), nonce := nonce)
  }

  predicate Misses(c: Crypto, start: Wire, bumps: nat, nonce: u32)
    requires bumps < LIMIT64
  {
    var tried := start.(timestamp := Add64(start.timestamp, bumps), nonce := nonce);
    !MeetsTarget(c.blockHash(tried), start.difficulty)
  }

  // Every attempt before (`bumps`, `nonce`) misses the target.
  ghost predicate MissedBefore(c: Crypto, start: Wire, bumps: nat, nonce: nat)
    requires bumps <= MAX_TIMESTAMP_BUMPS
  {
    && (forall k: nat, n: u32 :: k < bumps && n < MAX_NONCE ==> Misses(c, start, k, n))
    && (forall n: u32 :: n < nonce && n < MAX_NONCE ==> Misses(c, start, bumps, n))
  }

  /** The cancellable `mine_block`, given the block with its Merkle root filled in.
      `stop` answers the successive questions whether to give up. A block returned is
      the first attempt that meets the target; giving up means that `stop` said so or
      that no attempt at all meets it. */
  method MineBlock(c: Crypto, start: Wire, stop: nat -> bool) returns (r: Option<Block>)
    ensures r.Some? ==>
              exists bumps: nat, nonce: u32 ::
                && bumps <= 60 && nonce < 0xffff_ffff
                && r.value.wire == start.(timestamp := Add64(start.timestamp, bumps), nonce := nonce)
                && r.value.hash == c.blockHash(r.value.wire)
                && !Misses(c, start, bumps, nonce) && MissedBefore(c, start, bumps, nonce)
    ensures r.None? ==> (exists k: nat :: stop(k)) || MissedBefore(c, start, 60, 0xffff_ffff)
  {
    hide MeetsTarget;
    var nonce: u32, bumps, asked := 0, 0, 0;
    while true
      invariant nonce < MAX_NONCE && bumps <= MAX_TIMESTAMP_BUMPS
      invariant MissedBefore(c, start, bumps, nonce)
      decreases MAX_TIMESTAMP_BUMPS - bumps, MAX_NONCE - nonce
    {
      if nonce % CANCEL_CHECK_INTERVAL == 0 {
        if stop(asked) {
          return None;
        }
        asked := asked + 1;
      }
      var wire := Attempt(start, bumps, nonce);
      var hash := c.blockHash(wire);
      var found := CountMeetsTarget(hash, start.difficulty);
      if found {
        assert !Misses(c, start, bumps, nonce);
        return Some(Block(wire, 0, hash));
      }
      assert MissedBefore(c, start, bumps, nonce + 1);
      nonce := nonce + 1;
      if nonce == MAX_NONCE {
        if bumps == MAX_TIMESTAMP_BUMPS {
          return None;
        }
        bumps, nonce := bumps + 1, 0;
      }
    }
  }

  // `b` was mined on template `t`, paying the reward and the fees to `x`.
  ghost predicate MinedOn(c: Crypto, t: Template, x: Str, b: Block) {
    && b.hash == c.blockHash(b.wire) && MeetsTarget(b.hash, b.wire.difficulty)
    && b.wire.prevHash == t.prevHash && b.wire.difficulty == t.difficulty
    && b.wire.timestamp >= t.timestamp
    && b.wire.transactions == Filled(x, t.transactions)
  }

  // One round of the mining loop, up to the submission.
  method MineOn(c: Crypto, t: Template, x: Str, merkleRoot: seq<Transaction> -> Hash, stop: nat -> bool)
    returns (r: Option<Block>)
    ensures r.Some? && t.timestamp + MAX_TIMESTAMP_BUMPS < LIMIT64 ==> MinedOn(c, t, x, r.value)
    ensures r.Some? ==> r.value.wire.version == 1 && r.value.wire.merkleRoot == merkleRoot(Filled(x, t.transactions))
  {
    hide MeetsTarget, MissedBefore, Fees64;
    var txs := Filled(x, t.transactions);
    r := MineBlock(c, Wire(1, t.prevHash, merkleRoot(txs), t.timestamp, t.difficulty, 0, txs), stop);
  }

  // ---- More money never makes a transaction fail ----

  ghost predicate Richer(b: Accounts, a: Accounts) {
    && a.balances.Keys <= b.balances.Keys
    && forall x: Str :: Balance(a, x) <= Balance(b, x) && NextNonce(a, x) == NextNonce(b, x)
  }

  lemma ApplyMonotone(b: Accounts, a: Accounts, tx: Transaction)
    requires Richer(b, a) && CanApply(a, tx) && CreditFits(b, tx)
    ensures CanApply(b, tx) && Richer(Apply(b, tx).value, Apply(a, tx).value)
  {
    assert Balance(a, tx.sender) <= Balance(b, tx.sender) && NextNonce(a, tx.sender) == NextNonce(b, tx.sender);
    DebitMonotone(b, a, tx);
    var d, e := Debit(a, tx), Debit(b, tx);
    assert Balance(d, tx.recipient) <= Balance(e, tx.recipient);
    hide Debit;
    forall x: Str
      ensures Balance(Apply(a, tx).value, x) <= Balance(Apply(b, tx).value, x)
      ensures NextNonce(Apply(a, tx).value, x) == NextNonce(Apply(b, tx).value, x)
    {
      assert Balance(d, x) <= Balance(e, x) && NextNonce(d, x) == NextNonce(e, x);
    }
  }

  lemma DebitMonotone(b: Accounts, a: Accounts, tx: Transaction)
    requires Richer(b, a) && CanApply(a, tx)
    ensures Richer(Debit(b, tx), Debit(a, tx))
  {
    assert Balance(a, tx.sender) <= Balance(b, tx.sender) && NextNonce(a, tx.sender) == NextNonce(b, tx.sender);
    forall x: Str
      ensures Balance(Debit(a, tx), x) <= Balance(Debit(b, tx), x)
      ensures NextNonce(Debit(a, tx), x) == NextNonce(Debit(b, tx), x)
    {
      assert Balance(a, x) <= Balance(b, x) && NextNonce(a, x) == NextNonce(b, x);
    }
  }

  /** A list that replays cleanly still does from a richer ledger, as long as no credit
      wraps there. */
  lemma {:induction false} ReplayMonotone(b: Accounts, a: Accounts, txs: seq<Transaction>)
    requires Richer(b, a) && Replay(a, txs).Some? && CreditsFit(b, txs)
    ensures Replay(b, txs).Some?
    decreases |txs|
  {
    hide Richer, Apply, CanApply, CreditFits;
    if txs != [] {
      CanStillApply(b, a, txs[0]);
      ApplyMonotone(b, a, txs[0]);
      ReplayMonotone(Apply(b, txs[0]).value, Apply(a, txs[0]).value, txs[1..]);
    }
  }

  lemma CanStillApply(b: Accounts, a: Accounts, tx: Transaction)
    requires Richer(b, a) && CanApply(a, tx)
    ensures CanApply(b, tx)
  {
    assert Balance(a, tx.sender) <= Balance(b, tx.sender) && NextNonce(a, tx.sender) == NextNonce(b, tx.sender);
  }

  // Simulating without the coinbase is sound: the coinbase only adds money.
  lemma RewardedReplays(s: Accounts, s1: Accounts, x: Str, txs: seq<Transaction>)
    requires Replay(s, txs).Some? && Covers(s1, s)
    requires CreditsFit(s1, Filled(x, txs))
    ensures Replay(s1, Filled(x, txs)).Some?
  {
    var reward, all := Coinbase(x, txs), Filled(x, txs);
    assert x != [] ==> all[0] == reward && all[1..] == txs;
    assert CanApply(s1, reward);
    var next := if x == [] then s1 else Apply(s1, reward).value;
    assert Richer(next, s) by {
      forall y: Str ensures Balance(s, y) <= Balance(next, y) && NextNonce(s, y) == NextNonce(next, y) {
        assert Balance(s1, y) == Balance(s, y) && NextNonce(s1, y) == NextNonce(s, y);
      }
    }
    ReplayMonotone(next, s, txs);
  }

  // ---- Acceptance ----

  lemma SelectedSigned(cfg: Config, s: Node, limit: nat)
    requires MempoolOk(cfg.crypto, cfg.mempoolCapacity, s.pending)
    ensures forall tx :: tx in Selected(s.accounts, Top(s.pending, limit)) ==> HasValidSignature(cfg.crypto, tx)
  {
    hide Selected, FeesDescend, HasValidSignature;
    SelectedReplays(s.accounts, Top(s.pending, limit));
    forall tx | tx in Top(s.pending, limit) ensures HasValidSignature(cfg.crypto, tx) {
      var i :| 0 <= i < |Top(s.pending, limit)| && Top(s.pending, limit)[i] == tx;
      assert s.pending[i] == tx;
    }
  }

  // The transactions of a mined block pass every rule that looks at them alone.
  lemma MinedTransactionsOk(c: Crypto, x: Str, txs: seq<Transaction>)
    requires forall tx :: tx in txs ==> HasValidSignature(c, tx)
    ensures CoinbaseAmountOk(Filled(x, txs)) && AllAuthentic(c, Filled(x, txs))
    ensures forall i :: 0 < i < |Filled(x, txs)| ==> Filled(x, txs)[i].sender != COINBASE
  {
    hide Fees64;
    var all := Filled(x, txs);
    var d := if x == [] then 0 else 1;
    forall i | d <= i < |all| ensures all[i].sender != COINBASE {
      assert all[i] == txs[i - d] && txs[i - d] in txs;
    }
    if x != [] {
      assert OnlyCoinbase(all, 0);
      assert all[..0] + all[1..] == txs;
      assert all[0].amount == Add64(MINING_REWARD, Fees64(all[..0] + all[1..]));
    }
    assert CoinbaseAmountOk(all);
    forall tx | tx in all ensures Authentic(c, tx) {
      assert (x != [] && tx == all[0]) || tx in txs;
    }
  }

  /** The node accepts what is mined on its own template. `s` is the state the template
      was taken from and `s1` the one the block is submitted to: the same chain, and a
      ledger that says the same. The block meets its target and is within the drift of
      the clock, and neither the median plus one, nor any cost, nor the money in
      existence plus the coinbase reaches 2^64. */
  lemma TemplateAccepted(cfg: Config, known: iset<Wire>, s: Node, s1: Node, limit: nat, before: u64,
                         x: Str, b: Block, now: u64, out: Outcome, s2: Node)
    requires NodeOk(cfg, known, s) && NodeOk(cfg, known, s1) && s.blocks != []
    requires s1.blocks == s.blocks && Covers(s1.accounts, s.accounts)
    requires MinedOn(cfg.crypto, TemplateOf(cfg, s, limit, before), x, b)
    requires b.wire.timestamp <= now + cfg.params.maxFutureDrift
    requires MedianTimePast(|s.blocks|, cfg.params.mtpWindow, s.blocks) + 1 < LIMIT64
    requires CostsFit(b.wire.transactions)
    requires Total(s1.accounts.balances) + Minted(b.wire.transactions) < LIMIT64
    requires SubmitStep(cfg, s1, b, now, out, s2)
    ensures out == Outcome(Accepted, [b.hash], None)
    ensures s2.blocks == Append(s.blocks, b)
  {
    hide MedianTimePast, NextDifficulty, ProperChain, RulesOk, PoolSound, BlocksCollisionFree, MirrorOf, Selected;
    hide Covers;
    hide Replay, ApplyBlock, CreditsFit, CoinbaseAmountOk, AllAuthentic, MempoolOk, MeetsTarget, ForkStep, Total;
    hide Minted;
    hide CostsFit, Append, Fees64;
    var c, txs := cfg.crypto, Selected(s.accounts, Top(s.pending, limit));
    var all := b.wire.transactions;
    SelectedSigned(cfg, s, limit);
    MinedTransactionsOk(c, x, txs);
    assert Classify(c, s1.blocks, b) == Valid;
    SelectedReplays(s.accounts, Top(s.pending, limit));
    ReplayTotal(s1.accounts, all);
    RewardedReplays(s.accounts, s1.accounts, x, txs);
    BlockAtomicity(c, s1.accounts, all);
  }

  // What the miner puts in front is worth 50 and the fees to `x`, and nothing to anyone else.
  lemma RewardIs(c: Crypto, x: Str, txs: seq<Transaction>)
    requires x != [] && 50 + Paid(txs) < LIMIT64 && forall tx :: tx in txs ==> HasValidSignature(c, tx)
    ensures var all := Filled(x, txs);
      && all == [all[0]] + txs && Minted(all) == 50 + Paid(txs) && Paid(all) == Paid(txs)
      && forall y: Str :: EffectOf(all[0], y) == if y == x then Effect(50 + Paid(txs), 0) else NOTHING
  {
    hide Fees64;
    forall tx | tx in txs ensures tx.sender != COINBASE {
      SignedIsNoCoinbase(c, tx);
    }
    FeesArePaid(txs);
    FeesWithinPaid(txs);
    FlowConcat([Coinbase(x, txs)], txs);
  }

  /** When a block the miner filled is accepted, the money in existence grows by exactly 50,
      and the miner's address gets the reward and the fees on top of what the transactions
      themselves do to it; without an address the fees are destroyed. */
  lemma MinerIsPaid(cfg: Config, s: Node, b: Block, now: u64, out: Outcome, s': Node, x: Str, txs: seq<Transaction>)
    requires s.blocks != [] && SubmitStep(cfg, s, b, now, out, s') && out.status == Accepted
    requires b.wire.transactions == Filled(x, txs) && forall tx :: tx in txs ==> HasValidSignature(cfg.crypto, tx)
    requires CostsFit(b.wire.transactions) && 50 + Paid(txs) < LIMIT64
    requires Total(s.accounts.balances) + Minted(b.wire.transactions) < LIMIT64
    ensures x != [] ==> Total(s'.accounts.balances) == Total(s.accounts.balances) + 50
    ensures x == [] ==> Total(s'.accounts.balances) == Total(s.accounts.balances) - Paid(txs)
    ensures x != [] ==> Congruent(Standing(s'.accounts, x),
                                  Standing(s.accounts, x).Plus(Effect(50 + Paid(txs), 0)).Plus(Sum(txs, x)))
  {
    hide MedianTimePast, NextDifficulty, AllAuthentic, Replay, SubmitStep, Total, Minted, Paid, Sum, CostsFit, Filled;
    hide Congruent, HasValidSignature, Append, Standing;
    AcceptedExactly(cfg, s, b, now, out, s');
    FilledLedger(cfg.crypto, s.accounts, x, txs);
  }

  // What applying such a block does to a ledger.
  lemma FilledLedger(c: Crypto, a: Accounts, x: Str, txs: seq<Transaction>)
    requires Replay(a, Filled(x, txs)).Some? && forall tx :: tx in txs ==> HasValidSignature(c, tx)
    requires CostsFit(Filled(x, txs)) && 50 + Paid(txs) < LIMIT64
    requires Total(a.balances) + Minted(Filled(x, txs)) < LIMIT64
    ensures var after := Replay(a, Filled(x, txs)).value;
      && (x != [] ==> Total(after.balances) == Total(a.balances) + 50)
      && (x == [] ==> Total(after.balances) == Total(a.balances) - Paid(txs))
      && (x != [] ==> Congruent(Standing(after, x),
                                Standing(a, x).Plus(Effect(50 + Paid(txs), 0)).Plus(Sum(txs, x))))
  {
    hide Replay, Total, Minted, Paid, Sum, EffectOf, CostsFit, Coinbase, Congruent, HasValidSignature, Standing;
    hide CreditsFit;
    var all := Filled(x, txs);
    ReplayTotal(a, all);
    if x == [] {
      NothingMinted(c, txs);
    } else {
      RewardIs(c, x, txs);
      SumCons(all[0], txs, x);
      var k, m := ReplayEffect(a, all, x);
      TurnsAreCongruent(Standing(Replay(a, all).value, x),
                        Standing(a, x).Plus(Effect(50 + Paid(txs), 0)).Plus(Sum(txs, x)), k, m);
    }
  }

  lemma NothingMinted(c: Crypto, txs: seq<Transaction>)
    requires forall tx :: tx in txs ==> HasValidSignature(c, tx)
    ensures Minted(txs) == 0
  {
    forall tx | tx in txs ensures tx.sender != COINBASE {
      SignedIsNoCoinbase(c, tx);
    }
    FeesWithinPaid(txs);
  }

  // ---- In a run ----

  /** In any run: a block mined on a template taken in state `i` and submitted in state
      `j` is accepted if the tip version has not moved and the node not restarted in between. */
  lemma MinedBlockAccepted(cfg: Config, known: iset<Wire>, states: seq<Node>, events: seq<Event>, i: nat, j: nat,
                           limit: nat, before: u64, x: Str, b: Block, now: u64, out: Outcome, s2: Node)
    requires Run(cfg, known, states, events) && i <= j < |states|
    requires forall k :: 0 <= k < |states| ==> WorkFits(states[k].blocks)
    requires states[i].version == states[j].version
    requires forall k :: i <= k < j ==> CreditsOk(cfg, states[k], events[k]) && !events[k].Reload?
    requires states[i].blocks != [] && MinedOn(cfg.crypto, TemplateOf(cfg, states[i], limit, before), x, b)
    requires b.wire.timestamp <= now + cfg.params.maxFutureDrift
    requires MedianTimePast(|states[i].blocks|, cfg.params.mtpWindow, states[i].blocks) + 1 < LIMIT64
    requires CostsFit(b.wire.transactions)
    requires Total(states[j].accounts.balances) + Minted(b.wire.transactions) < LIMIT64
    requires states[j].blocks != [] && SubmitStep(cfg, states[j], b, now, out, s2)
    ensures out == Outcome(Accepted, [b.hash], None) && s2.blocks == Append(states[i].blocks, b)
  {
    hide Run, WorkFits, NodeOk, CreditsOk, Covers, MinedOn, TemplateOf, SubmitStep, CostsFit, Total, Minted;
    hide MedianTimePast;
    hide Append;
    QuietRun(cfg, known, states, events, i, j);
    RunInvariant(cfg, known, states, events, i);
    RunInvariant(cfg, known, states, events, j);
    TemplateAccepted(cfg, known, states[i], states[j], limit, before, x, b, now, out, s2);
  }

  // ---- Nothing is mined twice ----

  // What was sent on the chain has a smaller nonce than anything the ledger still accepts.
  lemma AppliesLater(a: Accounts, chain: seq<Transaction>, txs: seq<Transaction>, i: nat, j: nat)
    requires Replay(EMPTY, chain).Some? && Same(a, Replay(EMPTY, chain).value) && Replay(a, txs).Some?
    requires |chain| + |txs| < LIMIT64 && i < |txs| && j < |chain|
    requires txs[i].sender != COINBASE && chain[j].sender == txs[i].sender
    ensures chain[j].nonce < txs[i].nonce
  {
    hide Replay, Sum, EffectOf, NextNonce;
    var x := txs[i].sender;
    NonceLaw(chain);
    assert NextNonce(a, x) == NextNonce(Replay(EMPTY, chain).value, x);
    var m := NonceAt(a, txs, i);
    SentBounds(txs[..i], x);
    SentBounds(chain, x);
    assert chain == chain[..j] + ([chain[j]] + chain[j + 1..]);
    SumConcat(chain[..j], [chain[j]] + chain[j + 1..], x);
    SumCons(chain[j], chain[j + 1..], x);
    SentBounds(chain[j + 1..], x);
    SenderEffect(chain[j]);
  }

  /** A switch leaves the transactions of the new branch in the mempool, so that a pending
      transaction may be on the chain already. While the ledger tracks the chain, none of
      them is selected for a block. */
  lemma SelectedIsFresh(cfg: Config, s: Node, limit: nat, tx: Transaction, mined: Transaction)
    requires MempoolOk(cfg.crypto, cfg.mempoolCapacity, s.pending) && LedgerTracks(s)
    requires |Transactions(s.blocks)| + |s.pending| < LIMIT64
    requires tx in Selected(s.accounts, Top(s.pending, limit)) && mined in Transactions(s.blocks)
    ensures Body(tx) != Body(mined)
  {
    hide MempoolOk, Replay, Transactions, Selected, Same, HasValidSignature;
    var chain, txs := Transactions(s.blocks), Selected(s.accounts, Top(s.pending, limit));
    SelectedReplays(s.accounts, Top(s.pending, limit));
    SelectedSize(s.accounts, Top(s.pending, limit));
    SelectedSigned(cfg, s, limit);
    SignedIsNoCoinbase(cfg.crypto, tx);
    var i :| 0 <= i < |txs| && txs[i] == tx;
    var j :| 0 <= j < |chain| && chain[j] == mined;
    if Body(tx).sender == Body(mined).sender {
      AppliesLater(s.accounts, chain, txs, i, j);
    }
  }

  lemma {:induction false} SelectedSize(a: Accounts, txs: seq<Transaction>)
    ensures |Selected(a, txs)| <= |txs|
    decreases |txs|
  {
    hide CanApply, Apply;
    if txs != [] {
      SelectedSize(if CanApply(a, txs[0]) then Apply(a, txs[0]).value else a, txs[1..]);
    }
  }
}
