/**
 The node as a state machine: what one submitted block, one submitted
 transaction or one answered catch-up may do to the state that `ChainManager`
 owns. Every public operation runs under one lock and is one step.

 Steps are relations where the node's behaviour depends on the iteration order
 of an unordered map, and functions where it does not.
 */
module NodeModel {
  import opened Types
  import opened Accounting
  import opened LedgerReorg
  import opened Consensus
  import opened Chain
  import opened Orphans
  import opened Forks
  import opened Pending
  import opened Disk

  datatype Config = Config(
    crypto: Crypto,
    params: Params,
    orphanCapacity: nat,
    mempoolCapacity: nat)

  datatype Node = Node(
    blocks: seq<Block>,
    accounts: Accounts,
    pool: Pool,
    pending: seq<Transaction>,
    disk: Option<Table>,
    version: nat)

  datatype Status = Rejected | Accepted | Reorged | NeedParent

  datatype Outcome = Outcome(status: Status, toBroadcast: seq<Hash>, missingParent: Option<Hash>)

  const REJECTED: Outcome := Outcome(Rejected, [], None)

  function BlockHashes(blocks: seq<Block>): seq<Hash> {
    if blocks == [] then [] else BlockHashes(blocks[..|blocks| - 1]) + [blocks[|blocks| - 1].hash]
  }

  // Offers `txs` to the mempool, the last one first.
  function Reoffer(c: Crypto, capacity: nat, pending: seq<Transaction>, txs: seq<Transaction>): seq<Transaction>
    decreases |txs|
  {
    if txs == [] then pending
    else Reoffer(c, capacity, Offer(c, capacity, pending, txs[|txs| - 1]), txs[..|txs| - 1])
  }

  // ---- Reorganisation ----

  function Weight(fork: ForkChain): u64 {
    BranchWork(fork.ancestor.cumulativeWork, fork.blocks)
  }

  // The chain switches to a branch that is strictly heavier and whose signatures hold.
  predicate Prevails(c: Crypto, blocks: seq<Block>, fork: ForkChain) {
    Weight(fork) > TipWork(blocks) && AllAuthentic(c, Transactions(fork.blocks))
  }

  // The state after switching to `fork`, whose ancestor is at height `h`.
  function Switched(cfg: Config, s: Node, fork: ForkChain, h: nat): Node
    requires h < |s.blocks|
  {
    var c := cfg.crypto;
    var blocks := AppendAll(s.blocks[..h + 1], fork.blocks);
    var undone, done := Transactions(s.blocks[h + 1..]), Transactions(fork.blocks);
    Node(blocks,
         Reorganised(c, s.accounts, undone, done),
         s.pool,
         Reoffer(c, cfg.mempoolCapacity, s.pending, Without(c, undone, Hashes(c, done))),
         if s.disk.None? then None
         else Some(ReplaceFrom(s.disk.value, h + 1, if h + 1 <= |blocks| then blocks[h + 1..] else [])),
         s.version + 1)
  }

  // `try_reorg`
  function TryReorg(cfg: Config, s: Node, fork: ForkChain): Option<Node> {
    if !Prevails(cfg.crypto, s.blocks, fork) then None
    else match HeightOf(s.blocks, fork.ancestor.hash)
      case None => None
      case Some(h) => Some(Switched(cfg, s, fork, h))
  }

  // ---- A submitted block ----

  ghost predicate ContextFree(b: Block) {
    MeetsTarget(b.hash, b.wire.difficulty) && CoinbaseAmountOk(b.wire.transactions)
  }

  // The state after accepting `b` on top of the tip, with the ledger moved to `accounts`.
  function Extended(cfg: Config, s: Node, b: Block, accounts: Accounts): Node {
    Node(Append(s.blocks, b),
         accounts,
         s.pool,
         RemoveAll(cfg.crypto, s.pending, b.wire.transactions),
         if s.disk.None? then None else Some(Save(s.disk.value, b, |s.blocks|)),
         s.version + 1)
  }

  ghost predicate ExtendStep(cfg: Config, s: Node, b: Block, now: u64, out: Outcome, s': Node)
  {
    if !TimestampOk(b, |s.blocks|, now, cfg.params, s.blocks)
       || b.wire.difficulty != NextDifficulty(|s.blocks|, cfg.params, s.blocks)
    then out == REJECTED && s' == s
    else
      var (ok, accounts) := ApplyBlock(cfg.crypto, s.accounts, b.wire.transactions);
      if ok then out == Outcome(Accepted, [b.hash], None) && s' == Extended(cfg, s, b, accounts)
      else out == REJECTED && s' == s.(accounts := accounts)
  }

  function Cut(fork: ForkChain, n: nat): ForkChain
    requires n <= |fork.blocks|
  {
    fork.(blocks := fork.blocks[..n])
  }

  // What one end contributes to the choice: its branch, cut at its first invalid block.
  function Candidate(p: Params, blocks: seq<Block>, entries: map<Hash, Block>, tip: Block,
                     now: u64): Option<ForkChain> {
    match TraceFork(blocks, entries, tip, MAX_FORK_DEPTH)
    case None => None
    case Some(f) =>
      var n := ValidPrefix(p, blocks, f, now);
      if n == 0 then None else Some(Cut(f, n))
  }

  // `best` is a heaviest candidate among the ends `tips`, if there is any.
  ghost predicate IsBest(p: Params, blocks: seq<Block>, entries: map<Hash, Block>, tips: seq<Block>, now: u64,
                         best: Option<ForkChain>) {
    && (best.Some? ==> exists t :: t in tips && Candidate(p, blocks, entries, t, now) == best)
    && (forall t :: t in tips && Candidate(p, blocks, entries, t, now).Some? ==>
          best.Some? && Weight(Candidate(p, blocks, entries, t, now).value) <= Weight(best.value))
  }

  // Switching to the best branch, if there is one and it prevails.
  ghost predicate ChooseStep(cfg: Config, s: Node, best: Option<ForkChain>, out: Outcome, s': Node) {
    if best.None? || TryReorg(cfg, s, best.value).None? then out == REJECTED && s' == s
    else
      var hashes := BlockHashes(best.value.blocks);
      && out == Outcome(Reorged, hashes, None)
      && s' == TryReorg(cfg, s, best.value).value.(pool := WithoutOrphans(s.pool, hashes))
  }

  // `handle_fork_candidate`
  ghost predicate ForkStep(cfg: Config, s: Node, b: Block, now: u64, out: Outcome, s': Node) {
    var held := s.(pool := WithOrphan(s.pool, cfg.orphanCapacity, b));
    var entries := held.pool.entries;
    if TraceFork(s.blocks, entries, b, MAX_FORK_DEPTH).None?
    then out == Outcome(NeedParent, [], Some(b.wire.prevHash)) && s' == held
    else exists tips, best ::
           && ForkTips(entries, b, tips)
           && IsBest(cfg.params, s.blocks, entries, tips, now, best)
           && ChooseStep(cfg, held, best, out, s')
  }

  // `submit_block`
  ghost predicate SubmitStep(cfg: Config, s: Node, b: Block, now: u64, out: Outcome, s': Node)
    requires s.blocks != []
  {
    if !ContextFree(b) then out == REJECTED && s' == s
    else match Classify(cfg.crypto, s.blocks, b)
      case Invalid => out == REJECTED && s' == s
      case Valid => ExtendStep(cfg, s, b, now, out, s')
      case ForkCandidate => ForkStep(cfg, s, b, now, out, s')
  }

  // ---- A catch-up answer ----

  // How many blocks at the front of `answer` are already on the chain.
  function KnownFront(blocks: seq<Block>, answer: seq<Block>): (n: nat)
    ensures n <= |answer|
    ensures n < |answer| ==> HeightOf(blocks, answer[n].hash).None?
    ensures forall i :: 0 <= i < n ==> HeightOf(blocks, answer[i].hash).Some?
  {
    if answer == [] || HeightOf(blocks, answer[0].hash).None? then 0
    else 1 + KnownFront(blocks, answer[1..])
  }

  // The branch `adopt_branch` hands to `try_reorg`, if it gets that far.
  ghost function AdoptCandidate(p: Params, blocks: seq<Block>, answer: seq<Block>, now: u64): Option<ForkChain> {
    var start := KnownFront(blocks, answer);
    if start == |answer| then None
    else match HeightOf(blocks, answer[start].wire.prevHash)
      case None => None
      case Some(h) =>
        if !Linked(answer[start..]) then None
        else
          var fork := ForkChain(answer[start..], blocks[h]);
          var n := ValidPrefix(p, blocks, fork, now);
          if n == 0 then None else Some(Cut(fork, n))
  }

  // `adopt_branch`
  ghost function AdoptStep(cfg: Config, s: Node, answer: seq<Block>, now: u64): Option<Node> {
    match AdoptCandidate(cfg.params, s.blocks, answer, now)
    case None => None
    case Some(fork) => TryReorg(cfg, s, fork)
  }
}
