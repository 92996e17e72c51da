/**
 Starting on an existing database (src/app/Orchestrator.cpp): every block above
 genesis is loaded in order of height and restored. A missing, undecodable or
 inapplicable block stops the node, which is the result `None`.
 */
module Restart {
  import opened Types
  import opened Accounting
  import opened Consensus
  import opened Chain
  import opened Orphans
  import opened Pending
  import opened Disk
  import opened Codec
  import opened NodeModel
  import opened NodeInvariant
  import opened Manager

  // The state after restoring the rows from height `i` up to `size`.
  function LoadFrom(c: Crypto, table: Table, i: nat, size: nat, s: Node): Option<Node>
    requires s.blocks != []
    decreases size - i
  {
    if i >= size then Some(s)
    else if i !in table then None
    else
      var b :- DecodeBlock(c, table[i].bytes);
      var (ok, accounts) := ApplyBlock(c, s.accounts, b.wire.transactions);
      if !ok then None
      else
        var next := s.(blocks := Append(s.blocks, b), accounts := accounts, version := s.version + 1);
        LoadFrom(c, table, i + 1, size, next)
  }

  method LoadAll(cfg: Config, storage: Storage, ghost known: iset<Wire>) returns (r: Option<ChainManager>)
    requires BlocksCollisionFree(cfg.crypto, known) && Genesis(cfg.crypto).wire in known
    requires 1 <= cfg.orphanCapacity && 1 <= cfg.mempoolCapacity
    modifies storage
    ensures var s := Opened(cfg, Some(old(storage.rows)));
      && storage.rows == s.disk.value
      && match LoadFrom(cfg.crypto, storage.rows, 1, |storage.rows|, s)
         case None => r == None
         case Some(t) =>
           && r.Some? && r.value.cfg == cfg && r.value.known == known
           && r.value.Wired() && r.value.View() == t
  {
    hide ApplyBlock, DecodeBlock, Append, MirrorOf, NodeOk, MempoolOk, PoolOk, DistinctHashes, BlocksCollisionFree;
    var node := new ChainManager(cfg, storage, known);
    ghost var s := node.View();
    var size := storage.BlockCount();
    var i := 1;
    while i < size
      invariant 1 <= i && node.Wired() && storage.rows == s.disk.value
      invariant LoadFrom(cfg.crypto, storage.rows, i, size, node.View())
                == LoadFrom(cfg.crypto, storage.rows, 1, size, s)
    {
      var b := storage.LoadBlock(cfg.crypto, i);
      if b == None {
        return None;
      }
      var ok := node.RestoreBlock(b.value);
      if !ok {
        return None;
      }
      i := i + 1;
    }
    return Some(node);
  }

  // ---- What a restart of a running node's database gives ----

  // The state rebuilt from a chain whose transactions replay to `accounts`.
  function Rebuilt(s: Node, accounts: Accounts): Node
    requires s.blocks != []
  {
    Node(s.blocks, accounts, Pool([], map[]), [], s.disk, |s.blocks| - 1)
  }

  // A stored block comes back with its fields and hash.
  lemma RowDecodes(c: Crypto, known: iset<Wire>, blocks: seq<Block>, i: nat)
    requires i < |blocks| && AllSelfHashed(c, known, blocks) && WireFits(blocks[i].wire)
    ensures i in MirrorOf(blocks) && DecodeBlock(c, MirrorOf(blocks)[i].bytes) == Some(blocks[i].(cumulativeWork := 0))
  {
    hide WireFits, EncodeWire, DecodeBlock;
    BlockRoundTrip(c, blocks[i].wire);
    assert SelfHashed(c, known, blocks[i]);
  }

  // Restoring one more block of a proper chain adds it as it was.
  lemma AppendStored(blocks: seq<Block>, i: nat)
    requires 1 <= i < |blocks| && WorkExact(blocks)
    ensures Append(blocks[..i], blocks[i].(cumulativeWork := 0)) == blocks[..i + 1]
  {
    hide BlockWork;
    assert blocks[..i][i - 1] == blocks[i - 1];
  }

  /** From height `i` on: the load succeeds exactly when the rest of the chain replays on
      the ledger built so far. */
  lemma {:induction false} LoadsRest(c: Crypto, known: iset<Wire>, blocks: seq<Block>, i: nat, s: Node)
    requires ProperChain(c, known, blocks) && 1 <= i <= |blocks| && AllAuthentic(c, Transactions(blocks))
    requires forall k :: 0 <= k < |blocks| ==> WireFits(blocks[k].wire)
    requires s.blocks == blocks[..i] && s.version == i - 1
    ensures LoadFrom(c, MirrorOf(blocks), i, |blocks|, s) ==
            match Replay(s.accounts, Transactions(blocks[i..]))
            case None => None
            case Some(a) => Some(s.(blocks := blocks, accounts := a, version := |blocks| - 1))
    decreases |blocks| - i
  {
    hide WireFits, DecodeBlock, ApplyBlock, Append, AllSelfHashed, Linked, WorkExact, AllAuthentic, MirrorOf, Genesis;
    hide Replay, Transactions;
    if i == |blocks| {
      NoneLeft(s.accounts, blocks);
    } else {
      var b := blocks[i];
      RowDecodes(c, known, blocks, i);
      AppendStored(blocks, i);
      BlockAtomicity(c, s.accounts, b.wire.transactions);
      BlockAuthentic(c, blocks, i);
      ReplayNext(s.accounts, blocks, i);
      if Replay(s.accounts, b.wire.transactions).Some? {
        var accounts := Replay(s.accounts, b.wire.transactions).value;
        var next := s.(blocks := blocks[..i + 1], accounts := accounts, version := i);
        LoadsRest(c, known, blocks, i + 1, next);
      }
    }
  }

  lemma NoneLeft(a: Accounts, blocks: seq<Block>)
    ensures blocks[..|blocks|] == blocks && Replay(a, Transactions(blocks[|blocks|..])) == Some(a)
  {
    assert blocks[|blocks|..] == [];
  }

  lemma ReplayNext(a: Accounts, blocks: seq<Block>, i: nat)
    requires i < |blocks|
    ensures Replay(a, Transactions(blocks[i..])) ==
            match Replay(a, blocks[i].wire.transactions)
            case None => None
            case Some(b) => Replay(b, Transactions(blocks[i + 1..]))
  {
    hide Replay;
    assert blocks[i..] == [blocks[i]] + blocks[i + 1..];
    TransactionsConcat([blocks[i]], blocks[i + 1..]);
    OneBlock(blocks[i]);
    ReplayConcat(a, blocks[i].wire.transactions, Transactions(blocks[i + 1..]));
  }

  lemma BlockAuthentic(c: Crypto, blocks: seq<Block>, i: nat)
    requires i < |blocks| && AllAuthentic(c, Transactions(blocks))
    ensures AllAuthentic(c, blocks[i].wire.transactions)
  {
    hide Transactions, Authentic;
    assert blocks == blocks[..i] + ([blocks[i]] + blocks[i + 1..]);
    TransactionsConcat(blocks[..i], [blocks[i]] + blocks[i + 1..]);
    TransactionsConcat([blocks[i]], blocks[i + 1..]);
    OneBlock(blocks[i]);
  }

  lemma OneBlock(b: Block)
    ensures Transactions([b]) == b.wire.transactions
  {
    assert [b][..0] == [];
  }

  lemma AboveGenesis(c: Crypto, known: iset<Wire>, blocks: seq<Block>)
    requires ProperChain(c, known, blocks)
    ensures Transactions(blocks) == Transactions(blocks[1..])
  {
    hide AllSelfHashed, Linked, WorkExact;
    assert blocks == [blocks[0]] + blocks[1..];
    TransactionsConcat([blocks[0]], blocks[1..]);
    OneBlock(blocks[0]);
  }

  /** Stopping a node in any state a run can reach and starting it on its database
      rebuilds the chain block for block, cumulative work included, with the ledger of a
      replay from genesis, exactly when such a replay is clean; otherwise the start is
      refused. */
  lemma RestartRebuilds(cfg: Config, known: iset<Wire>, s: Node)
    requires NodeOk(cfg, known, s) && s.disk.Some?
    requires forall i :: 0 <= i < |s.blocks| ==> WireFits(s.blocks[i].wire)
    ensures s.blocks != []
    ensures LoadFrom(cfg.crypto, s.disk.value, 1, |s.disk.value|, Opened(cfg, s.disk)) ==
            match Replay(EMPTY, Transactions(s.blocks))
            case None => None
            case Some(a) => Some(Rebuilt(s, a))
  {
    hide WireFits, AllSelfHashed, Linked, WorkExact, AllAuthentic, MirrorOf, Replay, Transactions, LoadFrom;
    hide TimestampsOk, DifficultiesOk, BlocksCollisionFree, MempoolOk;
    MirrorSize(s.blocks);
    var start := Opened(cfg, s.disk);
    assert s.disk.value != map[];
    assert start.blocks == s.blocks[..1];
    LoadsRest(cfg.crypto, known, s.blocks, 1, start);
    AboveGenesis(cfg.crypto, known, s.blocks);
  }

  // What is rebuilt is again a state the invariant allows.
  lemma RebuiltOk(cfg: Config, known: iset<Wire>, s: Node, accounts: Accounts)
    requires NodeOk(cfg, known, s) && s.blocks != []
    ensures NodeOk(cfg, known, Rebuilt(s, accounts))
  {
    hide ProperChain, RulesOk, BlocksCollisionFree, MirrorOf;
  }
}
