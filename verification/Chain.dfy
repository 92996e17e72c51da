/**
 The main chain: the block list, its index from hash to height and the
 cumulative work carried by every block (src/core/Blockchain.cpp).
 */
module Chain {
  import opened Types
  import opened Consensus

  // ---- Work ----

  function BlockWork(difficulty: u32): (w: u64)
    ensures 1 <= w
    ensures difficulty < 64 ==> w == Pow2(difficulty)
  {
    if difficulty >= 64 then LIMIT64 - 1
    else
      PowersFit(difficulty);
      Pow2(difficulty)
  }

  lemma PowersFit(d: nat)
    requires d < 64
    ensures 1 <= Pow2(d) < LIMIT64
  {
    Pow2Grows(0, d);
    Pow2Grows(d, 63);
    TopPower();
  }

  lemma TopPower()
    ensures Pow2(63) == 0x8000_0000_0000_0000
  {
    hide Pow2;
    SmallPowers();
    Pow2Sum(8, 8);
    Pow2Sum(16, 16);
    Pow2Sum(32, 16);
    Pow2Sum(48, 8);
    Pow2Sum(56, 7);
  }

  lemma SmallPowers()
    ensures Pow2(0) == 1 && Pow2(7) == 128 && Pow2(8) == 256
  {}

  // 2^difficulty, or the largest 64-bit number where that does not fit.
  lemma WorkIsCapped(difficulty: u32)
    ensures BlockWork(difficulty) == if Pow2(difficulty) < LIMIT64 then Pow2(difficulty) else LIMIT64 - 1
  {
    if difficulty < 64 {
      PowersFit(difficulty);
    } else {
      TopPower();
      assert Pow2(64) == 2 * Pow2(63);
      Pow2Grows(64, difficulty);
    }
    hide Pow2;
  }

  function TipWork(blocks: seq<Block>): u64 {
    if blocks == [] then 0 else blocks[|blocks| - 1].cumulativeWork
  }

  // `add_block` on the list: the work field is recomputed, whatever it held.
  function Append(blocks: seq<Block>, b: Block): seq<Block> {
    blocks + [b.(cumulativeWork := Add64(BlockWork(b.wire.difficulty), TipWork(blocks)))]
  }

  function AppendAll(blocks: seq<Block>, more: seq<Block>): seq<Block>
    decreases |more|
  {
    if more == [] then blocks else AppendAll(Append(blocks, more[0]), more[1..])
  }

  // The work of `blocks` above the first one, as a number without a bound.
  function TotalWork(blocks: seq<Block>): nat {
    if |blocks| <= 1 then 0
    else TotalWork(blocks[..|blocks| - 1]) + BlockWork(blocks[|blocks| - 1].wire.difficulty)
  }

  function BranchWork(start: u64, blocks: seq<Block>): u64
    decreases |blocks|
  {
    if blocks == [] then start
    else BranchWork(Add64(start, BlockWork(blocks[0].wire.difficulty)), blocks[1..])
  }

  // ---- Proper chains ----

  function Genesis(c: Crypto): Block {
    var w := Wire(1, ZERO_HASH, c.emptyMerkleRoot, 0, 0, 0, []);
    Block(w, 0, c.blockHash(w))
  }

  ghost predicate SelfHashed(c: Crypto, known: iset<Wire>, b: Block) {
    b.wire in known && b.hash == c.blockHash(b.wire)
  }

  ghost predicate AllSelfHashed(c: Crypto, known: iset<Wire>, blocks: seq<Block>) {
    forall i :: 0 <= i < |blocks| ==> SelfHashed(c, known, blocks[i])
  }

  ghost predicate Linked(blocks: seq<Block>) {
    forall i :: 1 <= i < |blocks| ==> blocks[i].wire.prevHash == blocks[i - 1].hash
  }

  ghost predicate WorkExact(blocks: seq<Block>) {
    forall i :: 1 <= i < |blocks| ==>
      blocks[i].cumulativeWork == Add64(BlockWork(blocks[i].wire.difficulty), blocks[i - 1].cumulativeWork)
  }

  // Grown from genesis, each block hashed from its own fields and linked to its parent.
  ghost predicate ProperChain(c: Crypto, known: iset<Wire>, blocks: seq<Block>) {
    && |blocks| >= 1 && blocks[0] == Genesis(c)
    && AllSelfHashed(c, known, blocks) && Linked(blocks) && WorkExact(blocks)
  }

  /** Two chains that share a hash share everything up to it, at the same height,
      cumulative work included. */
  lemma {:induction false} CommonPrefix(c: Crypto, known: iset<Wire>, s: seq<Block>, t: seq<Block>, i: nat, j: nat)
    requires BlocksCollisionFree(c, known)
    requires ProperChain(c, known, s) && ProperChain(c, known, t)
    requires i < |s| && j < |t| && s[i].hash == t[j].hash
    ensures i == j && s[..i + 1] == t[..i + 1]
    decreases i
  {
    hide BlockWork, Genesis;
    assert SelfHashed(c, known, s[i]) && SelfHashed(c, known, t[j]);
    assert s[i].wire == t[j].wire;
    if i == 0 || j == 0 {
      GenesisIsFirst(c, known, s, i);
      GenesisIsFirst(c, known, t, j);
      assert s[..1] == [s[0]] && t[..1] == [t[0]];
    } else {
      assert s[i].wire.prevHash == s[i - 1].hash && t[j].wire.prevHash == t[j - 1].hash;
      CommonPrefix(c, known, s, t, i - 1, j - 1);
      assert s[i - 1] == s[..i][i - 1] == t[..i][i - 1] == t[i - 1];
      assert s[..i + 1] == s[..i] + [s[i]] && t[..i + 1] == t[..i] + [t[i]];
    }
  }

  // Only the block at height 0 names the all-zero parent.
  lemma GenesisIsFirst(c: Crypto, known: iset<Wire>, s: seq<Block>, i: nat)
    requires BlocksCollisionFree(c, known) && ProperChain(c, known, s) && i < |s|
    ensures s[i].wire.prevHash == ZERO_HASH <==> i == 0
  {
    if i > 0 {
      assert SelfHashed(c, known, s[i - 1]);
    }
  }

  ghost predicate DistinctHashes(blocks: seq<Block>) {
    forall i, j :: 0 <= i < |blocks| && 0 <= j < |blocks| && blocks[i].hash == blocks[j].hash ==> i == j
  }

  lemma ProperChainDistinct(c: Crypto, known: iset<Wire>, blocks: seq<Block>)
    requires BlocksCollisionFree(c, known) && ProperChain(c, known, blocks)
    ensures DistinctHashes(blocks)
  {
    forall i, j | 0 <= i < |blocks| && 0 <= j < |blocks| && blocks[i].hash == blocks[j].hash
      ensures i == j
    {
      CommonPrefix(c, known, blocks, blocks, i, j);
    }
  }

  // A branch growing from the block with hash `parent`.
  ghost predicate BranchFrom(parent: Hash, branch: seq<Block>) {
    Linked(branch) && (branch != [] ==> branch[0].wire.prevHash == parent)
  }

  lemma AppendProper(c: Crypto, known: iset<Wire>, blocks: seq<Block>, b: Block)
    requires ProperChain(c, known, blocks)
    requires SelfHashed(c, known, b) && b.wire.prevHash == blocks[|blocks| - 1].hash
    ensures ProperChain(c, known, Append(blocks, b))
  {
    hide BlockWork, Genesis;
  }

  lemma {:induction false} AppendAllProper(c: Crypto, known: iset<Wire>, blocks: seq<Block>, more: seq<Block>)
    requires ProperChain(c, known, blocks)
    requires AllSelfHashed(c, known, more) && BranchFrom(blocks[|blocks| - 1].hash, more)
    ensures ProperChain(c, known, AppendAll(blocks, more))
    decreases |more|
  {
    hide BlockWork, Genesis, SelfHashed;
    if more != [] {
      assert SelfHashed(c, known, more[0]);
      AppendProper(c, known, blocks, more[0]);
      var longer := Append(blocks, more[0]);
      assert longer[|longer| - 1].hash == more[0].hash;
      assert more[1..] != [] ==> more[1].wire.prevHash == more[0].hash;
      AppendAllProper(c, known, longer, more[1..]);
    }
  }

  lemma PrefixProper(c: Crypto, known: iset<Wire>, blocks: seq<Block>, n: nat)
    requires ProperChain(c, known, blocks) && 1 <= n <= |blocks|
    ensures ProperChain(c, known, blocks[..n])
  {
    hide BlockWork, Genesis, SelfHashed;
  }

  // Appending keeps what was there and every wire field of what is added.
  lemma {:induction false} AppendAllShape(blocks: seq<Block>, more: seq<Block>)
    ensures var r := AppendAll(blocks, more);
      && |r| == |blocks| + |more|
      && r[..|blocks|] == blocks
      && (forall i :: 0 <= i < |more| ==> r[|blocks| + i].wire == more[i].wire && r[|blocks| + i].hash == more[i].hash)
    decreases |more|
  {
    hide BlockWork, TipWork;
    if more != [] {
      var longer := Append(blocks, more[0]);
      AppendAllShape(longer, more[1..]);
      var r := AppendAll(longer, more[1..]);
      assert r[..|blocks|] == r[..|longer|][..|blocks|] == blocks;
      assert r[|blocks|] == r[..|longer|][|blocks|] == longer[|blocks|];
      forall i | 1 <= i < |more|
        ensures r[|blocks| + i].wire == more[i].wire && r[|blocks| + i].hash == more[i].hash
      {
        assert r[|longer| + (i - 1)].wire == more[1..][i - 1].wire;
      }
    } else {
      assert blocks[..|blocks|] == blocks;
    }
  }

  // The tip of an extended chain carries exactly the branch's work.
  lemma {:induction false} AppendAllWork(blocks: seq<Block>, more: seq<Block>)
    ensures TipWork(AppendAll(blocks, more)) == BranchWork(TipWork(blocks), more)
    decreases |more|
  {
    hide BlockWork;
    if more != [] {
      AppendAllWork(Append(blocks, more[0]), more[1..]);
    }
  }

  // Re-adding blocks whose work is already right changes nothing.
  lemma {:induction false} AppendAllRebuilds(blocks: seq<Block>, n: nat, more: seq<Block>)
    requires 1 <= n <= |blocks| && WorkExact(blocks) && |more| == |blocks| - n
    requires forall i :: 0 <= i < |more| ==> more[i].wire == blocks[n + i].wire && more[i].hash == blocks[n + i].hash
    ensures AppendAll(blocks[..n], more) == blocks
    decreases |more|
  {
    hide BlockWork;
    if more == [] {
      assert blocks[..n] == blocks;
    } else {
      assert blocks[..n][n - 1] == blocks[n - 1];
      assert Append(blocks[..n], more[0]) == blocks[..n + 1] by {
        assert more[0].wire == blocks[n].wire;
      }
      forall i | 0 <= i < |more| - 1
        ensures more[1..][i].wire == blocks[n + 1 + i].wire && more[1..][i].hash == blocks[n + 1 + i].hash
      {
        assert more[i + 1].wire == blocks[n + (i + 1)].wire;
      }
      AppendAllRebuilds(blocks, n + 1, more[1..]);
    }
  }

  /** Every block's cumulative work is the exact sum of the work from height 1 up to
      it, as long as that sum fits 64 bits; it then grows strictly along the chain. */
  lemma {:induction false} WorkIsSum(blocks: seq<Block>, h: nat)
    requires h < |blocks| && WorkExact(blocks) && blocks[0].cumulativeWork == 0
    requires TotalWork(blocks[..h + 1]) < LIMIT64
    ensures blocks[h].cumulativeWork == TotalWork(blocks[..h + 1])
    decreases h
  {
    if h > 0 {
      assert blocks[..h + 1][..h] == blocks[..h];
      WorkIsSum(blocks, h - 1);
    }
  }

  lemma {:induction false} TotalWorkGrows(blocks: seq<Block>, i: nat, j: nat)
    requires 1 <= i <= j <= |blocks|
    ensures TotalWork(blocks[..i]) + (j - i) <= TotalWork(blocks[..j])
    decreases j - i
  {
    hide BlockWork;
    if i < j {
      TotalWorkGrows(blocks, i, j - 1);
      assert blocks[..j][..j - 1] == blocks[..j - 1];
    }
  }

  lemma AppendDistinct(blocks: seq<Block>, b: Block)
    ensures DistinctHashes(Append(blocks, b)) ==>
              DistinctHashes(blocks) && forall i :: 0 <= i < |blocks| ==> blocks[i].hash != b.hash
  {
    var longer := Append(blocks, b);
    assert forall i :: 0 <= i < |blocks| ==> longer[i] == blocks[i];
    assert longer[|blocks|].hash == b.hash;
  }

  // ---- The work of a branch ----

  function SumWork(blocks: seq<Block>): nat {
    if blocks == [] then 0 else BlockWork(blocks[0].wire.difficulty) + SumWork(blocks[1..])
  }

  lemma {:induction false} BranchWorkIsSum(start: u64, blocks: seq<Block>)
    requires start + SumWork(blocks) < LIMIT64
    ensures BranchWork(start, blocks) == start + SumWork(blocks)
    decreases |blocks|
  {
    hide BlockWork;
    if blocks != [] {
      BranchWorkIsSum(Add64(start, BlockWork(blocks[0].wire.difficulty)), blocks[1..]);
    }
  }

  lemma {:induction false} FrontWeighsLess(blocks: seq<Block>, m: nat, n: nat)
    requires m <= n <= |blocks|
    ensures SumWork(blocks[..m]) <= SumWork(blocks[..n]) <= SumWork(blocks)
    decreases |blocks|
  {
    hide BlockWork;
    if n > 0 {
      FrontWeighsLess(blocks[1..], if m > 0 then m - 1 else 0, n - 1);
      assert blocks[..n][1..] == blocks[1..][..n - 1];
      assert m > 0 ==> blocks[..m][1..] == blocks[1..][..m - 1];
    } else {
      assert blocks[..0] == [];
    }
  }

  lemma {:induction false} BackWeighsLess(blocks: seq<Block>, n: nat)
    requires n <= |blocks|
    ensures SumWork(blocks[n..]) <= SumWork(blocks)
    decreases |blocks|
  {
    hide BlockWork;
    if n > 0 {
      BackWeighsLess(blocks[1..], n - 1);
      assert blocks[n..] == blocks[1..][n - 1..];
    } else {
      assert blocks[0..] == blocks;
    }
  }

  lemma {:induction false} AppendAllConcat(blocks: seq<Block>, more: seq<Block>, rest: seq<Block>)
    ensures AppendAll(blocks, more + rest) == AppendAll(AppendAll(blocks, more), rest)
    decreases |more|
  {
    hide Append;
    if more == [] {
      assert more + rest == rest;
    } else {
      assert (more + rest)[0] == more[0] && (more + rest)[1..] == more[1..] + rest;
      AppendAllConcat(Append(blocks, more[0]), more[1..], rest);
    }
  }

  // ---- Looking a hash up ----

  // The height of the block with hash `h`, by searching the list.
  function HeightOf(blocks: seq<Block>, h: Hash): (r: Option<nat>)
    ensures r.Some? ==> r.value < |blocks| && blocks[r.value].hash == h
    ensures r.None? ==> forall i :: 0 <= i < |blocks| ==> blocks[i].hash != h
  {
    if blocks == [] then None
    else if blocks[|blocks| - 1].hash == h then Some(|blocks| - 1)
    else HeightOf(blocks[..|blocks| - 1], h)
  }

  // No coinbase behind the first position.
  predicate CoinbaseFirst(txs: seq<Transaction>) {
    forall i :: 0 < i < |txs| ==> txs[i].sender != COINBASE
  }

  datatype Validation = Valid | Invalid | ForkCandidate

  ghost function Classify(c: Crypto, blocks: seq<Block>, b: Block): Validation
    requires blocks != []
  {
    if b.hash != c.blockHash(b.wire) then Invalid
    else if exists i :: 0 < i < |b.wire.transactions| && b.wire.transactions[i].sender == COINBASE then Invalid
    else if b.wire.prevHash != blocks[|blocks| - 1].hash then ForkCandidate
    else Valid
  }

  // The index holds the hashes below `keep` and from `i` on, each at its height, and no others.
  ghost predicate IndexedBut(blocks: seq<Block>, index: map<Hash, nat>, keep: nat, i: nat) {
    && (forall j :: 0 <= j < |blocks| && (j < keep || i <= j) ==> blocks[j].hash in index && index[blocks[j].hash] == j)
    && (forall h :: h in index ==>
          var j := index[h]; j < |blocks| && (j < keep || i <= j) && blocks[j].hash == h)
  }

  lemma ForgetOne(blocks: seq<Block>, index: map<Hash, nat>, keep: nat, i: nat)
    requires keep <= i < |blocks| && DistinctHashes(blocks) && IndexedBut(blocks, index, keep, i)
    ensures IndexedBut(blocks, index - {blocks[i].hash}, keep, i + 1)
  {}

  class Blockchain {
    var blocks: seq<Block>
    var heightByHash: map<Hash, nat>

    // The index holds exactly the hashes of the chain, each at its height.
    ghost predicate Indexed()
      reads this
    {
      && (forall i :: 0 <= i < |blocks| ==> blocks[i].hash in heightByHash && heightByHash[blocks[i].hash] == i)
      && (forall h :: h in heightByHash ==> heightByHash[h] < |blocks| && blocks[heightByHash[h]].hash == h)
    }

    // Kept by every operation, with no condition on the blocks added.
    ghost predicate Valid()
      reads this
    {
      blocks != [] && (DistinctHashes(blocks) ==> Indexed())
    }

    constructor (c: Crypto)
      ensures Valid() && blocks == [Genesis(c)]
    {
      blocks := [Genesis(c)];
      heightByHash := map[Genesis(c).hash := 0];
    }

    method AddBlock(b: Block)
      requires Valid()
      modifies this
      ensures Valid() && blocks == Append(old(blocks), b)
    {
      hide BlockWork;
      var previous := blocks[|blocks| - 1].cumulativeWork;
      var work := Add64(BlockWork(b.wire.difficulty), previous);
      AppendDistinct(blocks, b);
      heightByHash := heightByHash[b.hash := |blocks|];
      blocks := blocks + [b.(cumulativeWork := work)];
    }

    method HasBlock(h: Hash) returns (r: bool)
      requires Valid() && DistinctHashes(blocks)
      ensures r <==> HeightOf(blocks, h).Some?
    {
      r := h in heightByHash;
    }

    method FindHeight(h: Hash) returns (r: Option<nat>)
      requires Valid() && DistinctHashes(blocks)
      ensures r == HeightOf(blocks, h)
    {
      if h !in heightByHash {
        return None;
      }
      return Some(heightByHash[h]);
    }

    method ClassifyNewBlock(c: Crypto, b: Block) returns (r: Validation)
      requires Valid()
      ensures r == Classify(c, blocks, b)
      ensures r == Invalid <==> b.hash != c.blockHash(b.wire) || !CoinbaseFirst(b.wire.transactions)
      ensures r == ForkCandidate ==> b.wire.prevHash != blocks[|blocks| - 1].hash
      ensures r == Validation.Valid ==> b.wire.prevHash == blocks[|blocks| - 1].hash
    {
      if b.hash != c.blockHash(b.wire) {
        return Invalid;
      }
      for i := 0 to |b.wire.transactions|
        invariant forall j :: 0 < j < i ==> b.wire.transactions[j].sender != COINBASE
      {
        if b.wire.transactions[i].sender == COINBASE && i != 0 {
          return Invalid;
        }
      }
      if b.wire.prevHash != blocks[|blocks| - 1].hash {
        return ForkCandidate;
      }
      return Validation.Valid;
    }

    // Drops the blocks from height `keep` on and their index entries.
    method Truncate(keep: nat)
      requires Valid() && DistinctHashes(blocks)
      requires 1 <= keep <= |blocks|
      modifies this
      ensures Valid() && blocks == old(blocks)[..keep]
    {
      for i := keep to |blocks|
        invariant blocks == old(blocks) && IndexedBut(blocks, heightByHash, keep, i)
      {
        ForgetOne(blocks, heightByHash, keep, i);
        heightByHash := heightByHash - {blocks[i].hash};
      }
      blocks := blocks[..keep];
    }

    /** `reorganize_to`: drops every block above the ancestor and adds the branch. The
        discarded blocks are returned, oldest first. */
    method ReorganizeTo(fork: ForkChain) returns (r: Option<seq<Block>>)
      requires Valid() && DistinctHashes(blocks)
      modifies this
      ensures Valid()
      ensures match HeightOf(old(blocks), fork.ancestor.hash)
        case None => r == None && blocks == old(blocks)
        case Some(h) => r == Some(old(blocks)[h + 1..]) && blocks == AppendAll(old(blocks)[..h + 1], fork.blocks)
    {
      var height := FindHeight(fork.ancestor.hash);
      if height == None {
        return None;
      }
      var discarded := blocks[height.value + 1..];
      Truncate(height.value + 1);
      ghost var kept := blocks;
      for i := 0 to |fork.blocks|
        invariant Valid()
        invariant AppendAll(blocks, fork.blocks[i..]) == AppendAll(kept, fork.blocks)
      {
        assert fork.blocks[i..][1..] == fork.blocks[i + 1..];
        AddBlock(fork.blocks[i]);
      }
      assert fork.blocks[|fork.blocks|..] == [];
      return Some(discarded);
    }
  }
}
