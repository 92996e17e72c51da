/**
 What becomes of transactions. A reorganisation offers the discarded ones to the
 mempool again, an accepted block takes its own out, and between restarts a
 transaction that is pending or on the chain stays so unless the mempool is full
 of transactions that pay at least as much.
 */
module Offers {
  import opened Types
  import opened Accounting
  import opened LedgerReorg
  import opened Chain
  import opened Consensus
  import opened Pending
  import opened Disk
  import opened NodeModel
  import opened NodeInvariant
  import opened Runs
  import opened Tracking

  // ---- A reorganisation ----

  // `txs`, newest first.
  function Backwards(txs: seq<Transaction>): (r: seq<Transaction>)
    ensures |r| == |txs|
    ensures forall i :: 0 <= i < |r| ==> r[i] == txs[|txs| - 1 - i]
  {
    if txs == [] then [] else [txs[|txs| - 1]] + Backwards(txs[..|txs| - 1])
  }

  lemma {:induction false} ReofferIs(c: Crypto, capacity: nat, pending: seq<Transaction>, txs: seq<Transaction>)
    ensures Reoffer(c, capacity, pending, txs) == OfferAll(c, capacity, pending, Backwards(txs))
    decreases |txs|
  {
    hide Offer;
    if txs != [] {
      var init, last := txs[..|txs| - 1], txs[|txs| - 1];
      ReofferIs(c, capacity, Offer(c, capacity, pending, last), init);
      OfferAllConcat(c, capacity, pending, [last], Backwards(init));
      assert OfferAll(c, capacity, pending, [last]) == Offer(c, capacity, pending, last) by {
        assert [last][..0] == [];
      }
    }
  }

  // What a switch to `fork` above height `h` takes off the chain: not found in the new branch.
  function Returned(c: Crypto, blocks: seq<Block>, h: nat, fork: ForkChain): seq<Transaction>
    requires h < |blocks|
  {
    Without(c, Transactions(blocks[h + 1..]), Hashes(c, Transactions(fork.blocks)))
  }

  // A signed transaction of the discarded blocks has hash `x`, and none of the new branch does.
  ghost predicate Displaced(c: Crypto, blocks: seq<Block>, h: nat, fork: ForkChain, x: Hash)
    requires h < |blocks|
  {
    && (exists tx :: tx in Transactions(blocks[h + 1..]) && HasValidSignature(c, tx) && TxHash(c, tx) == x)
    && !(exists tx :: tx in Transactions(fork.blocks) && tx.sender != COINBASE && TxHash(c, tx) == x)
  }

  lemma {:induction false} WithoutMembers(c: Crypto, txs: seq<Transaction>, hashes: set<Hash>)
    ensures forall tx :: tx in Without(c, txs, hashes) <==> tx in txs && TxHash(c, tx) !in hashes
    decreases |txs|
  {
    hide TxHash;
    if txs != [] {
      WithoutMembers(c, txs[1..], hashes);
      assert txs == [txs[0]] + txs[1..];
    }
  }

  lemma BackwardsMembers(txs: seq<Transaction>)
    ensures forall tx :: tx in Backwards(txs) <==> tx in txs
  {
    hide Backwards;
    forall tx | tx in txs ensures tx in Backwards(txs) {
      var i :| 0 <= i < |txs| && txs[i] == tx;
      assert Backwards(txs)[|txs| - 1 - i] == tx;
    }
  }

  lemma OfferedMember(c: Crypto, offers: seq<Transaction>, x: Hash)
    ensures Offered(c, offers, x) <==> exists tx :: tx in offers && HasValidSignature(c, tx) && TxHash(c, tx) == x
  {
    hide TxHash, HasValidSignature;
    if exists tx :: tx in offers && HasValidSignature(c, tx) && TxHash(c, tx) == x {
      var tx :| tx in offers && HasValidSignature(c, tx) && TxHash(c, tx) == x;
      var i :| 0 <= i < |offers| && offers[i] == tx;
    }
  }

  lemma ReturnedIs(c: Crypto, blocks: seq<Block>, h: nat, fork: ForkChain, x: Hash)
    requires h < |blocks|
    ensures Offered(c, Backwards(Returned(c, blocks, h, fork)), x) <==> Displaced(c, blocks, h, fork, x)
  {
    hide TxHash, HasValidSignature, Transactions, Without, Backwards, Offered;
    var back := Returned(c, blocks, h, fork);
    WithoutMembers(c, Transactions(blocks[h + 1..]), Hashes(c, Transactions(fork.blocks)));
    BackwardsMembers(back);
    OfferedMember(c, Backwards(back), x);
  }

  // The mempool after a switch, as a run of offers.
  lemma SwitchOffers(cfg: Config, s: Node, fork: ForkChain, h: nat)
    requires h < |s.blocks|
    ensures Switched(cfg, s, fork, h).pending
            == OfferAll(cfg.crypto, cfg.mempoolCapacity, s.pending, Backwards(Returned(cfg.crypto, s.blocks, h, fork)))
  {
    hide Transactions, Without, Hashes, Reoffer, OfferAll, Backwards, Reorganised, ReplaceFrom, AppendAll;
    ReofferIs(cfg.crypto, cfg.mempoolCapacity, s.pending, Returned(cfg.crypto, s.blocks, h, fork));
  }

  /** After a reorganisation the mempool holds the best of all that was ever offered and of
      what came off the chain, newest first: the first `capacity` by fee and then arrival. */
  lemma SwitchIsTopK(cfg: Config, s: Node, fork: ForkChain, offers: seq<Transaction>) returns (h: nat)
    requires TryReorg(cfg, s, fork).Some? && 1 <= cfg.mempoolCapacity
    requires s.pending == OfferAll(cfg.crypto, cfg.mempoolCapacity, [], offers)
    requires BodiesCollisionFree(cfg.crypto, offers + Transactions(s.blocks))
    ensures h < |s.blocks| && s.blocks[h].hash == fork.ancestor.hash
    ensures TryReorg(cfg, s, fork).value.pending
            == Top(Ranked(Arrivals(cfg.crypto, offers + Backwards(Returned(cfg.crypto, s.blocks, h, fork)))),
                   cfg.mempoolCapacity)
  {
    hide Prevails, HeightOf, Switched, OfferAll, Transactions, Returned, Backwards, Ranked, Arrivals;
    var c := cfg.crypto;
    h := HeightOf(s.blocks, fork.ancestor.hash).value;
    var back := Backwards(Returned(c, s.blocks, h, fork));
    SwitchOffers(cfg, s, fork, h);
    OfferAllConcat(c, cfg.mempoolCapacity, [], offers, back);
    ReturnedFromChain(c, s.blocks, h, fork);
    FreeWithin(c, offers + Transactions(s.blocks), offers + back);
    MempoolIsTopK(c, cfg.mempoolCapacity, offers + back);
  }

  lemma ReturnedFromChain(c: Crypto, blocks: seq<Block>, h: nat, fork: ForkChain)
    requires h < |blocks|
    ensures forall tx :: tx in Backwards(Returned(c, blocks, h, fork)) ==> tx in Transactions(blocks)
  {
    hide TxHash, Transactions, Without, Hashes, Backwards;
    WithoutMembers(c, Transactions(blocks[h + 1..]), Hashes(c, Transactions(fork.blocks)));
    BackwardsMembers(Returned(c, blocks, h, fork));
    assert blocks == blocks[..h + 1] + blocks[h + 1..];
    TransactionsConcat(blocks[..h + 1], blocks[h + 1..]);
  }

  lemma FreeWithin(c: Crypto, all: seq<Transaction>, some: seq<Transaction>)
    requires BodiesCollisionFree(c, all) && forall tx :: tx in some ==> tx in all
    ensures BodiesCollisionFree(c, some)
  {}

  /** Where there is room for all, nothing is lost: by hash, the mempool then holds exactly
      what it held and the signed transactions of the discarded blocks that the new branch
      does not contain, ranked by fee and then arrival. */
  lemma SwitchWithRoom(cfg: Config, s: Node, fork: ForkChain) returns (h: nat)
    requires TryReorg(cfg, s, fork).Some? && MempoolOk(cfg.crypto, cfg.mempoolCapacity, s.pending)
    ensures h < |s.blocks| && s.blocks[h].hash == fork.ancestor.hash
    ensures var c, after := cfg.crypto, TryReorg(cfg, s, fork).value.pending;
      var back := Backwards(Returned(c, s.blocks, h, fork));
      && |Arrivals(c, s.pending + back)| <= |s.pending| + |back|
      && (|Arrivals(c, s.pending + back)| <= cfg.mempoolCapacity ==>
          && after == Ranked(Arrivals(c, s.pending + back))
          && forall x :: Lists(c, after, x) <==> Lists(c, s.pending, x) || Displaced(c, s.blocks, h, fork, x))
  {
    hide Prevails, HeightOf, Switched, OfferAll, Transactions, Returned, Backwards, Ranked, Arrivals, MempoolOk;
    hide Displaced, Lists, Offered;
    var c := cfg.crypto;
    h := HeightOf(s.blocks, fork.ancestor.hash).value;
    var back := Backwards(Returned(c, s.blocks, h, fork));
    SwitchOffers(cfg, s, fork, h);
    ArrivalsList(c, s.pending + back, fork.ancestor.hash);
    if |Arrivals(c, s.pending + back)| <= cfg.mempoolCapacity {
      RoomForAll(c, cfg.mempoolCapacity, s.pending, back);
      forall x
        ensures Lists(c, Ranked(Arrivals(c, s.pending + back)), x)
                <==> Lists(c, s.pending, x) || Displaced(c, s.blocks, h, fork, x)
      {
        RankedLists(c, Arrivals(c, s.pending + back), x);
        ArrivalsList(c, s.pending + back, x);
        OfferedConcat(c, s.pending, back, x);
        PendingIsOffered(c, cfg.mempoolCapacity, s.pending, x);
        ReturnedIs(c, s.blocks, h, fork, x);
      }
    }
  }

  lemma OfferedConcat(c: Crypto, s: seq<Transaction>, t: seq<Transaction>, x: Hash)
    ensures Offered(c, s + t, x) <==> Offered(c, s, x) || Offered(c, t, x)
  {
    hide TxHash, HasValidSignature, Offered;
    OfferedMember(c, s + t, x);
    OfferedMember(c, s, x);
    OfferedMember(c, t, x);
  }

  lemma PendingIsOffered(c: Crypto, capacity: nat, pending: seq<Transaction>, x: Hash)
    requires MempoolOk(c, capacity, pending)
    ensures Offered(c, pending, x) <==> Lists(c, pending, x)
  {
    hide TxHash, HasValidSignature;
  }

  // ---- An accepted block ----

  /** A block accepted on top of the tip takes exactly its own transactions, by hash, out of
      the mempool; the others keep their order. */
  lemma AcceptedLeaves(cfg: Config, known: iset<Wire>, s: Node, b: Block, now: u64, out: Outcome, s': Node)
    requires NodeOk(cfg, known, s) && s.blocks != [] && SubmitStep(cfg, s, b, now, out, s') && out.status == Accepted
    ensures s'.pending == Unmined(cfg.crypto, s.pending, b.wire.transactions)
    ensures forall x :: Lists(cfg.crypto, s'.pending, x)
                        <==> Lists(cfg.crypto, s.pending, x) && !Lists(cfg.crypto, b.wire.transactions, x)
  {
    hide ProperChain, RulesOk, PoolSound, BlocksCollisionFree, MirrorOf, MempoolOk, Lists, Unmined, ContextFree;
    hide TimestampOk, NextDifficulty, ApplyBlock, RemoveAll, Append, Save, ForkStep;
    ForkNeverAccepts(cfg, s, b, now, out, s');
    RemoveAllIs(cfg.crypto, cfg.mempoolCapacity, s.pending, b.wire.transactions);
    forall x ensures Lists(cfg.crypto, Unmined(cfg.crypto, s.pending, b.wire.transactions), x)
                     <==> Lists(cfg.crypto, s.pending, x) && !Lists(cfg.crypto, b.wire.transactions, x)
    {
      UnminedLists(cfg.crypto, s.pending, b.wire.transactions, x);
    }
  }

  lemma ForkNeverAccepts(cfg: Config, s: Node, b: Block, now: u64, out: Outcome, s': Node)
    ensures ForkStep(cfg, s, b, now, out, s') ==> out.status != Accepted
  {}

  // ---- Any step ----

  // A transaction with hash `x`, no coinbase, is pending or on the chain.
  ghost predicate Present(c: Crypto, s: Node, x: Hash) {
    Lists(c, s.pending, x) || x in Hashes(c, Transactions(s.blocks))
  }

  // The mempool is full of transactions that pay at least `fee`.
  ghost predicate Crowded(cfg: Config, s: Node, fee: u64) {
    |s.pending| == cfg.mempoolCapacity && forall tx :: tx in s.pending ==> tx.fee >= fee
  }

  // Every transaction that plays a part in a step.
  function Around(s: Node, e: Event, s': Node): seq<Transaction> {
    s.pending + Transactions(s.blocks) + Transactions(s'.blocks) + if e.SubmitTransaction? then [e.tx] else []
  }

  // Whatever was offered is kept, unless the mempool is full of what pays at least as much.
  lemma KeptOrCrowded(c: Crypto, capacity: nat, offers: seq<Transaction>, tx: Transaction)
    requires capacity >= 1 && BodiesCollisionFree(c, offers) && tx in offers && HasValidSignature(c, tx)
    ensures var r := OfferAll(c, capacity, [], offers);
      || Lists(c, r, TxHash(c, tx))
      || (|r| == capacity && forall t :: t in r ==> t.fee >= tx.fee)
  {
    hide OfferAll, Ranked, Arrivals, TxHash, HasValidSignature, Lists;
    var arrived, x := Arrivals(c, offers), TxHash(c, tx);
    MempoolIsTopK(c, capacity, offers);
    OfferedMember(c, offers, x);
    ArrivalsList(c, offers, x);
    ArrivalsMembers(c, offers);
    RankedIsStableSort(arrived, 0);
    if !Lists(c, Top(Ranked(arrived), capacity), x) {
      DroppedStaysOut(c, capacity, arrived, tx);
    }
  }

  // Offers to a consistent mempool, seen as offers to an empty one.
  lemma KeptAfter(c: Crypto, capacity: nat, pending: seq<Transaction>, offers: seq<Transaction>, tx: Transaction)
    requires capacity >= 1 && MempoolOk(c, capacity, pending) && BodiesCollisionFree(c, pending + offers)
    requires tx in pending + offers && HasValidSignature(c, tx)
    ensures var r := OfferAll(c, capacity, pending, offers);
      || Lists(c, r, TxHash(c, tx))
      || (|r| == capacity && forall t :: t in r ==> t.fee >= tx.fee)
  {
    hide OfferAll, MempoolOk, TxHash, HasValidSignature, Lists, BodiesCollisionFree;
    AsOffered(c, capacity, pending);
    OfferAllConcat(c, capacity, [], pending, offers);
    KeptOrCrowded(c, capacity, pending + offers, tx);
  }

  lemma StayKeeps(cfg: Config, s: Node, e: Event, s': Node, tx: Transaction)
    requires (Stays(cfg, s, e, s') || Refuses(cfg, s, e, s')) && 1 <= cfg.mempoolCapacity
    requires MempoolOk(cfg.crypto, cfg.mempoolCapacity, s.pending) && HasValidSignature(cfg.crypto, tx)
    requires tx in Around(s, e, s') && BodiesCollisionFree(cfg.crypto, Around(s, e, s'))
    ensures Present(cfg.crypto, s', TxHash(cfg.crypto, tx)) || Crowded(cfg, s', tx.fee)
  {
    hide Transactions, Offer, MempoolOk, TxHash, HasValidSignature, Lists, ApplyBlock;
    if tx in Transactions(s.blocks) {
      SignedIsNoCoinbase(cfg.crypto, tx);
    } else {
      var offers := if e.SubmitTransaction? then [e.tx] else [];
      FreeWithin(cfg.crypto, Around(s, e, s'), s.pending + offers);
      assert offers != [] ==> [e.tx][..0] == [];
      KeptAfter(cfg.crypto, cfg.mempoolCapacity, s.pending, offers, tx);
    }
  }

  lemma ExtendKeepsTransactions(cfg: Config, s: Node, e: Event, s': Node, tx: Transaction)
    requires Extends(cfg, s, e, s') && MempoolOk(cfg.crypto, cfg.mempoolCapacity, s.pending)
    requires HasValidSignature(cfg.crypto, tx)
    requires tx in Around(s, e, s') && BodiesCollisionFree(cfg.crypto, Around(s, e, s'))
    ensures Present(cfg.crypto, s', TxHash(cfg.crypto, tx))
  {
    hide MempoolOk, TxHash, HasValidSignature, Lists, Unmined, ApplyBlock, BlockWork, RemoveAll, Save;
    var c, x, mined := cfg.crypto, TxHash(cfg.crypto, tx), e.block.wire.transactions;
    SignedIsNoCoinbase(c, tx);
    assert s'.blocks[..|s.blocks|] == s.blocks;
    assert Transactions(s'.blocks) == Transactions(s.blocks) + mined;
    hide Transactions;
    if tx !in Transactions(s'.blocks) {
      RemoveAllIs(c, cfg.mempoolCapacity, s.pending, mined);
      UnminedLists(c, s.pending, mined, x);
      MemberListed(c, s.pending, tx);
      if Lists(c, mined, x) {
        var m := ListedMember(c, mined, x);
        assert Body(m).sender == Body(tx).sender;
      }
    }
  }

  lemma MemberListed(c: Crypto, txs: seq<Transaction>, tx: Transaction)
    ensures tx in txs ==> Lists(c, txs, TxHash(c, tx))
  {}

  lemma ListedMember(c: Crypto, txs: seq<Transaction>, x: Hash) returns (tx: Transaction)
    requires Lists(c, txs, x)
    ensures tx in txs && TxHash(c, tx) == x
  {
    var i :| 0 <= i < |txs| && TxHash(c, txs[i]) == x;
    tx := txs[i];
  }

  lemma SwitchKeepsTransactions(cfg: Config, s: Node, e: Event, s': Node, fork: ForkChain, h: nat, tx: Transaction)
    requires Switches(cfg, s, s', fork, h) && !e.SubmitTransaction? && 1 <= cfg.mempoolCapacity
    requires MempoolOk(cfg.crypto, cfg.mempoolCapacity, s.pending) && HasValidSignature(cfg.crypto, tx)
    requires tx in Around(s, e, s') && BodiesCollisionFree(cfg.crypto, Around(s, e, s'))
    ensures Present(cfg.crypto, s', TxHash(cfg.crypto, tx)) || Crowded(cfg, s', tx.fee)
  {
    hide MempoolOk, TxHash, HasValidSignature, Lists, Transactions, Reorganised, Reoffer, ReplaceFrom, AppendAll;
    hide Backwards, OfferAll, Without;
    var c := cfg.crypto;
    SignedIsNoCoinbase(c, tx);
    TransactionsSplit(s.blocks, h, fork.blocks);
    var back := Returned(c, s.blocks, h, fork);
    WithoutMembers(c, Transactions(s.blocks[h + 1..]), Hashes(c, Transactions(fork.blocks)));
    BackwardsMembers(back);
    SwitchOffers(cfg, s, fork, h);
    if tx !in Transactions(s'.blocks) && TxHash(c, tx) !in Hashes(c, Transactions(fork.blocks)) {
      FreeWithin(c, Around(s, e, s'), s.pending + Backwards(back));
      KeptAfter(c, cfg.mempoolCapacity, s.pending, Backwards(back), tx);
    }
  }

  lemma TransactionsSplit(blocks: seq<Block>, h: nat, branch: seq<Block>)
    requires h < |blocks|
    ensures Transactions(blocks) == Transactions(blocks[..h + 1]) + Transactions(blocks[h + 1..])
    ensures Transactions(AppendAll(blocks[..h + 1], branch)) == Transactions(blocks[..h + 1]) + Transactions(branch)
  {
    hide Transactions, AppendAll;
    ForkViewAgrees(blocks, h, branch);
    TransactionsOfWires(AppendAll(blocks[..h + 1], branch), blocks[..h + 1] + branch);
    TransactionsConcat(blocks[..h + 1], branch);
    assert blocks == blocks[..h + 1] + blocks[h + 1..];
    TransactionsConcat(blocks[..h + 1], blocks[h + 1..]);
  }

  /** No step of a running node loses a signed transaction: one that was pending, on the
      chain or submitted is pending or on the chain afterwards, or the mempool is full of
      transactions that pay at least as much. */
  lemma NextKeepsTransactions(cfg: Config, known: iset<Wire>, s: Node, e: Event, s': Node, tx: Transaction)
    requires NodeOk(cfg, known, s) && Next(cfg, s, e, s') && !e.Reload?
    requires tx in Around(s, e, s') && HasValidSignature(cfg.crypto, tx)
    requires BodiesCollisionFree(cfg.crypto, Around(s, e, s'))
    ensures Present(cfg.crypto, s', TxHash(cfg.crypto, tx)) || Crowded(cfg, s', tx.fee)
  {
    hide ProperChain, RulesOk, PoolSound, BlocksCollisionFree, MirrorOf, MempoolOk, Next, HasValidSignature, TxHash;
    hide Around, BodiesCollisionFree, Present, Crowded, Stays, Extends, Switches, Refuses;
    NextKinds(cfg, s, e, s');
    if Stays(cfg, s, e, s') || Refuses(cfg, s, e, s') {
      StayKeeps(cfg, s, e, s', tx);
    } else if Extends(cfg, s, e, s') {
      ExtendKeepsTransactions(cfg, s, e, s', tx);
    } else {
      var fork, h :| Switches(cfg, s, s', fork, h);
      SwitchKeepsTransactions(cfg, s, e, s', fork, h, tx);
    }
  }

  // What is present is a signed transaction of the state.
  lemma PresentIsSigned(cfg: Config, known: iset<Wire>, s: Node, x: Hash) returns (tx: Transaction)
    requires NodeOk(cfg, known, s) && Present(cfg.crypto, s, x)
    ensures tx in s.pending + Transactions(s.blocks) && HasValidSignature(cfg.crypto, tx) && TxHash(cfg.crypto, tx) == x
  {
    hide ProperChain, PoolSound, BlocksCollisionFree, MirrorOf, TxHash, Transactions, TimestampsOk, DifficultiesOk;
    if Lists(cfg.crypto, s.pending, x) {
      tx := ListedMember(cfg.crypto, s.pending, x);
    } else {
      tx :| tx in Transactions(s.blocks) && tx.sender != COINBASE && TxHash(cfg.crypto, tx) == x;
    }
  }

  // No restart, room left in the mempool, and no two transactions confused.
  ghost predicate HasRoom(cfg: Config, s: Node, e: Event, s': Node) {
    !e.Reload? && |s'.pending| < cfg.mempoolCapacity && BodiesCollisionFree(cfg.crypto, Around(s, e, s'))
  }

  /** In a run, as long as the node is not restarted and its mempool has room, whatever is
      pending or on the chain stays pending or on the chain, through any reorganisation. */
  lemma {:induction false} RunKeepsTransactions(cfg: Config, known: iset<Wire>, states: seq<Node>, events: seq<Event>,
                                                i: nat, j: nat, x: Hash)
    requires Run(cfg, known, states, events) && i <= j < |states|
    requires forall k :: i <= k < j ==> HasRoom(cfg, states[k], events[k], states[k + 1])
    requires Present(cfg.crypto, states[i], x)
    ensures Present(cfg.crypto, states[j], x)
    decreases j - i
  {
    hide Next, EventKnown, BlocksCollisionFree, Initial, Genesis, NodeOk, Present, BodiesCollisionFree, TxHash;
    hide HasValidSignature, Transactions;
    if i < j {
      RunKeepsTransactions(cfg, known, states, events, i, j - 1, x);
      RunInvariant(cfg, known, states, events, j - 1);
      var s, e, s' := states[j - 1], events[j - 1], states[j];
      assert Next(cfg, s, e, states[j - 1 + 1]) && HasRoom(cfg, s, e, states[j - 1 + 1]);
      var tx := PresentIsSigned(cfg, known, s, x);
      NextKeepsTransactions(cfg, known, s, e, s', tx);
    }
  }

  lemma OfferLists(c: Crypto, capacity: nat, txs: seq<Transaction>, tx: Transaction, x: Hash)
    requires MempoolOk(c, capacity, txs) && Lists(c, Offer(c, capacity, txs, tx), x)
    ensures Lists(c, txs, x) || (HasValidSignature(c, tx) && TxHash(c, tx) == x)
  {
    hide TxHash, HasValidSignature, Place;
    var r := Offer(c, capacity, txs, tx);
    var t := ListedMember(c, r, x);
    var front := if |txs| < capacity || txs == [] then txs else txs[..|txs| - 1];
    PlaceSorted(front, tx);
    assert t in txs || t == tx;
    MemberListed(c, txs, t);
  }

  lemma {:induction false} OfferAllLists(c: Crypto, capacity: nat, txs: seq<Transaction>, offers: seq<Transaction>,
                                         x: Hash)
    requires MempoolOk(c, capacity, txs)
    ensures MempoolOk(c, capacity, OfferAll(c, capacity, txs, offers))
    ensures Lists(c, OfferAll(c, capacity, txs, offers), x) ==> Lists(c, txs, x) || Offered(c, offers, x)
    decreases |offers|
  {
    hide TxHash, HasValidSignature, MempoolOk, Lists, Offered, Offer;
    if offers != [] {
      var init, tx := offers[..|offers| - 1], offers[|offers| - 1];
      var before := OfferAll(c, capacity, txs, init);
      OfferAllLists(c, capacity, txs, init, x);
      OfferOk(c, capacity, before, tx);
      assert offers == init + [tx];
      OfferedSnoc(c, init, tx, x);
      if Lists(c, Offer(c, capacity, before, tx), x) {
        OfferLists(c, capacity, before, tx, x);
      }
    }
  }

  lemma SwitchAddsOnly(cfg: Config, s: Node, s': Node, fork: ForkChain, h: nat, x: Hash)
    requires Switches(cfg, s, s', fork, h) && MempoolOk(cfg.crypto, cfg.mempoolCapacity, s.pending)
    requires Lists(cfg.crypto, s'.pending, x)
    ensures Present(cfg.crypto, s, x)
  {
    hide MempoolOk, TxHash, Lists, Offered, Transactions, Switched, Backwards, OfferAll, Without, AppendAll, Returned;
    var c := cfg.crypto;
    var back := Backwards(Returned(c, s.blocks, h, fork));
    SwitchOffers(cfg, s, fork, h);
    OfferAllLists(c, cfg.mempoolCapacity, s.pending, back, x);
    if Offered(c, back, x) {
      ReturnedIs(c, s.blocks, h, fork, x);
      TransactionsSplit(s.blocks, h, fork.blocks);
      var tx :| tx in Transactions(s.blocks[h + 1..]) && HasValidSignature(c, tx) && TxHash(c, tx) == x;
      assert tx in Transactions(s.blocks);
    }
  }

  lemma ExtendAddsNothing(cfg: Config, s: Node, e: Event, s': Node, x: Hash)
    requires Extends(cfg, s, e, s') && MempoolOk(cfg.crypto, cfg.mempoolCapacity, s.pending)
    requires Lists(cfg.crypto, s'.pending, x)
    ensures Lists(cfg.crypto, s.pending, x)
  {
    hide MempoolOk, TxHash, Lists, Unmined, ApplyBlock, Append, RemoveAll, Save;
    RemoveAllIs(cfg.crypto, cfg.mempoolCapacity, s.pending, e.block.wire.transactions);
    UnminedLists(cfg.crypto, s.pending, e.block.wire.transactions, x);
  }

  /** Nor does a step bring anything unsigned or unheard of into the mempool: what is pending
      afterwards was pending, was signed on the chain, or was submitted. */
  lemma NextAddsOnly(cfg: Config, known: iset<Wire>, s: Node, e: Event, s': Node, x: Hash)
    requires NodeOk(cfg, known, s) && EventKnown(cfg, known, e) && Next(cfg, s, e, s')
    requires Lists(cfg.crypto, s'.pending, x)
    ensures || Present(cfg.crypto, s, x)
            || (e.SubmitTransaction? && HasValidSignature(cfg.crypto, e.tx) && TxHash(cfg.crypto, e.tx) == x)
  {
    hide ProperChain, RulesOk, PoolSound, BlocksCollisionFree, MirrorOf, MempoolOk, Next, HasValidSignature, TxHash;
    hide Extends, Switches, ApplyBlock, EventKnown, Transactions, Replay, Offer, Lists;
    if e.Reload? {
      ReloadIs(cfg, known, s, s');
      NothingListed(cfg.crypto, x);
    } else {
      NextKinds(cfg, s, e, s');
      if Stays(cfg, s, e, s') || Refuses(cfg, s, e, s') {
        if e.SubmitTransaction? {
          OfferLists(cfg.crypto, cfg.mempoolCapacity, s.pending, e.tx, x);
        }
      } else if Extends(cfg, s, e, s') {
        ExtendAddsNothing(cfg, s, e, s', x);
      } else {
        var fork, h :| Switches(cfg, s, s', fork, h);
        SwitchAddsOnly(cfg, s, s', fork, h, x);
      }
    }
  }
}
