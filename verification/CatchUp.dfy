/**
 One catch-up between two nodes, over the wire: the GETBLOCKS request, the run of
 BLOCK messages that answers it, the buffer that collects them while the blocks of
 other peers are submitted as they come (src/network/Node.cpp), and the adoption of
 the buffer. That the answer has come to its end is passed in as `due`.
 */
module CatchUp {
  import opened Types
  import opened Chain
  import opened Orphans
  import opened Forks
  import opened Pending
  import opened Codec
  import opened NodeModel
  import opened NodeInvariant
  import opened Sync
  import opened Noise
  import opened Manager

  const MAX_BLOCKS_PER_RESPONSE: nat := 2000

  // A BLOCK message, the peer it came from and the time at which it is handled.
  datatype Message = Message(peer: nat, payload: Bytes, at: u64)

  function FromPeer(messages: seq<Message>, peer: nat): seq<Bytes> {
    if messages == [] then []
    else
      var earlier, last := FromPeer(messages[..|messages| - 1], peer), messages[|messages| - 1];
      if last.peer == peer then earlier + [last.payload] else earlier
  }

  // The payloads that decode, in order.
  function Decoded(c: Crypto, payloads: seq<Bytes>): seq<Block> {
    if payloads == [] then []
    else
      var earlier, last := Decoded(c, payloads[..|payloads| - 1]), DecodeBlock(c, payloads[|payloads| - 1]);
      if last.None? then earlier else earlier + [last.value]
  }

  // The messages of peers other than `peer`, in order.
  function FromOthers(messages: seq<Message>, peer: nat): seq<Message> {
    if messages == [] then []
    else
      var earlier, last := FromOthers(messages[..|messages| - 1], peer), messages[|messages| - 1];
      if last.peer != peer then earlier + [last] else earlier
  }

  // What submitting the blocks that decode, each at its time, may do to the node.
  ghost predicate Submitted(cfg: Config, s: Node, messages: seq<Message>, s': Node)
    decreases |messages|
  {
    if messages == [] then s' == s
    else
      var earlier, last := messages[..|messages| - 1], messages[|messages| - 1];
      var block := DecodeBlock(cfg.crypto, last.payload);
      if block.None? then Submitted(cfg, s, earlier, s')
      else exists t: Node, out ::
             Submitted(cfg, s, earlier, t) && t.blocks != [] && SubmitStep(cfg, t, block.value, last.at, out, s')
  }

  lemma SubmittedMore(cfg: Config, s: Node, messages: seq<Message>, last: Message, t: Node, s': Node)
    requires Submitted(cfg, s, messages, t) && t.blocks != []
    requires var block := DecodeBlock(cfg.crypto, last.payload);
      if block.None? then s' == t else exists out :: SubmitStep(cfg, t, block.value, last.at, out, s')
    ensures Submitted(cfg, s, messages + [last], s')
  {
    hide DecodeBlock, SubmitStep;
    assert (messages + [last])[..|messages|] == messages;
  }

  // Every block that decodes is one of those in play.
  ghost predicate MessageKnown(c: Crypto, known: iset<Wire>, message: Message) {
    var b := DecodeBlock(c, message.payload);
    b.Some? ==> b.value.wire in known
  }

  // A node with its catch-up state.
  class SyncNode {
    const chain: ChainManager
    var active: bool
    var peer: nat
    var buffer: seq<Block>

    constructor (chain: ChainManager)
      ensures this.chain == chain && !active && buffer == []
    {
      this.chain := chain;
      active, peer, buffer := false, 0, [];
    }

    // `start_sync_state`: at most one catch-up at a time.
    method StartSync(peer: nat) returns (started: bool)
      modifies this
      ensures started == !old(active) && active
      ensures if started then this.peer == peer && buffer == []
              else this.peer == old(this.peer) && buffer == old(buffer)
    {
      if active {
        return false;
      }
      active, this.peer, buffer := true, peer, [];
      return true;
    }

    // `handle_block`
    method HandleBlock(message: Message)
      requires chain.Valid()
      requires !(active && message.peer == peer) ==> MessageKnown(chain.cfg.crypto, chain.known, message)
      modifies this, chain, chain.chain, chain.ledger, chain.mempool, chain.orphans, chain.storage
      ensures chain.Valid() && active == old(active) && peer == old(peer)
      ensures var block := DecodeBlock(chain.cfg.crypto, message.payload);
        if active && message.peer == peer then
          && buffer == old(buffer) + (if block.None? then [] else [block.value])
          && chain.View() == old(chain.View())
        else
          && buffer == old(buffer)
          && if block.None? then chain.View() == old(chain.View())
             else exists out :: SubmitStep(chain.cfg, old(chain.View()), block.value, message.at, out, chain.View())
    {
      hide NodeOk, MempoolOk, PoolOk, DecodeBlock, SubmitStep;
      var block := DeserializeBlock(chain.cfg.crypto, message.payload);
      if block == None {
        return;
      }
      if active && message.peer == peer {
        buffer := buffer + [block.value];
      } else {
        var out := chain.SubmitBlock(block.value, message.at);
      }
    }

    // `finish_sync_if_due`
    method FinishSync(due: bool, now: u64) returns (adopted: bool)
      requires chain.Valid() && AllSelfHashed(chain.cfg.crypto, chain.known, buffer)
      modifies this, chain, chain.chain, chain.ledger, chain.mempool, chain.storage
      ensures chain.Valid()
      ensures if !(old(active) && due) then
                active == old(active) && buffer == old(buffer) && !adopted && chain.View() == old(chain.View())
              else
                && !active && buffer == []
                && match AdoptStep(chain.cfg, old(chain.View()), old(buffer), now)
                   case None => !adopted && chain.View() == old(chain.View())
                   case Some(s) => adopted && chain.View() == s
    {
      hide NodeOk, MempoolOk, PoolOk, AllSelfHashed, TryReorg, ValidPrefix, HeightOf, KnownFront;
      if !active || !due {
        return false;
      }
      var blocks := buffer;
      active, buffer := false, [];
      if blocks == [] {
        return false;
      }
      adopted := chain.AdoptBranch(blocks, now);
    }

    /** Messages handled while a catch-up with `peer` is active: its blocks are buffered in
        order, those of the others are submitted in order. */
    method HandleAll(messages: seq<Message>)
      requires chain.Valid() && active
      requires forall i :: 0 <= i < |messages| && messages[i].peer != peer ==>
                 MessageKnown(chain.cfg.crypto, chain.known, messages[i])
      modifies this, chain, chain.chain, chain.ledger, chain.mempool, chain.orphans, chain.storage
      ensures chain.Valid() && active && peer == old(peer)
      ensures buffer == old(buffer) + Decoded(chain.cfg.crypto, FromPeer(messages, peer))
      ensures Submitted(chain.cfg, old(chain.View()), FromOthers(messages, peer), chain.View())
    {
      hide NodeOk, MempoolOk, PoolOk, DecodeBlock, SubmitStep, MessageKnown, Submitted, Decoded, FromPeer, FromOthers;
      hide DistinctHashes;
      NothingSubmitted(chain.cfg, chain.View());
      NoMessages(chain.cfg.crypto, messages, peer);
      for i := 0 to |messages|
        invariant chain.Valid() && active && peer == old(peer)
        invariant buffer == old(buffer) + Decoded(chain.cfg.crypto, FromPeer(messages[..i], peer))
        invariant Submitted(chain.cfg, old(chain.View()), FromOthers(messages[..i], peer), chain.View())
      {
        OneMessage(chain.cfg.crypto, messages, i, peer);
        ghost var t, b := chain.View(), buffer;
        HasGenesis(chain.cfg, chain.known, t);
        HandleBlock(messages[i]);
        assert b + [] == b;
        if messages[i].peer != peer {
          SubmittedMore(chain.cfg, old(chain.View()), FromOthers(messages[..i], peer), messages[i], t, chain.View());
        }
      }
    }
  }

  lemma NoMessages(c: Crypto, messages: seq<Message>, peer: nat)
    ensures Decoded(c, FromPeer(messages[..0], peer)) == [] && FromOthers(messages[..0], peer) == []
    ensures messages[..|messages|] == messages
  {}

  lemma OneMessage(c: Crypto, messages: seq<Message>, i: nat, peer: nat)
    requires i < |messages|
    ensures var block, buffered := DecodeBlock(c, messages[i].payload), Decoded(c, FromPeer(messages[..i], peer));
      Decoded(c, FromPeer(messages[..i + 1], peer))
      == if messages[i].peer == peer && block.Some? then buffered + [block.value] else buffered
    ensures var earlier := FromOthers(messages[..i], peer);
      FromOthers(messages[..i + 1], peer) == if messages[i].peer != peer then earlier + [messages[i]] else earlier
  {
    hide DecodeBlock;
    assert messages[..i + 1][..i] == messages[..i];
    var mine := FromPeer(messages[..i], peer);
    assert (mine + [messages[i].payload])[..|mine|] == mine;
  }

  lemma NothingSubmitted(cfg: Config, s: Node)
    ensures Submitted(cfg, s, [], s)
  {}

  function EncodeAll(blocks: seq<Block>): seq<Bytes> {
    if blocks == [] then [] else EncodeAll(blocks[..|blocks| - 1]) + [EncodeWire(blocks[|blocks| - 1].wire)]
  }

  // What was sent is what is buffered.
  lemma {:induction false} AnswerDecodes(c: Crypto, blocks: seq<Block>)
    requires forall i :: 0 <= i < |blocks| ==> WireFits(blocks[i].wire)
    ensures Decoded(c, EncodeAll(blocks)) == ReceivedAll(c, blocks)
    decreases |blocks|
  {
    hide WireFits, EncodeWire, DecodeWire;
    if blocks != [] {
      var init, last := blocks[..|blocks| - 1], blocks[|blocks| - 1];
      AnswerDecodes(c, init);
      BlockRoundTrip(c, last.wire);
      var sent := EncodeAll(blocks);
      assert sent[..|sent| - 1] == EncodeAll(init) && sent[|sent| - 1] == EncodeWire(last.wire);
      hide DecodeBlock;
      var got := ReceivedAll(c, blocks);
      assert Decoded(c, sent) == ReceivedAll(c, init) + [Received(c, last.wire)];
      assert got == ReceivedAll(c, init) + [Received(c, last.wire)];
    }
  }

  // `handle_getblocks`: a malformed request is not answered.
  method AnswerRequest(node: ChainManager, request: Bytes) returns (payloads: seq<Bytes>)
    requires node.Valid()
    ensures payloads == match DecodeLocator(request)
                        case None => []
                        case Some(locator) =>
                          EncodeAll(BlocksAfter(node.chain.blocks, locator, 2000))
  {
    hide NodeOk, MempoolOk, PoolOk, DecodeLocator, LocatorMatch, EncodeWire, DistinctHashes;
    var locator := DeserializeGetBlocks(request);
    if locator == None {
      return [];
    }
    ValidIsDistinct(node.cfg, node.known, node.View());
    var blocks := AfterLocator(node.chain, locator.value, MAX_BLOCKS_PER_RESPONSE);
    payloads := [];
    for i := 0 to |blocks|
      invariant payloads == EncodeAll(blocks[..i])
    {
      assert blocks[..i + 1][..i] == blocks[..i];
      var payload := SerializeBlock(blocks[i].wire);
      payloads := payloads + [payload];
    }
    assert blocks[..|blocks|] == blocks;
  }

  // `blocks_after_locator`
  method AfterLocator(chain: Blockchain, locator: seq<Hash>, limit: nat) returns (r: seq<Block>)
    requires chain.Valid() && DistinctHashes(chain.blocks)
    ensures r == BlocksAfter(chain.blocks, locator, limit)
  {
    hide LocatorMatch, DistinctHashes;
    var m := FindLocatorMatch(chain, locator);
    if m == None {
      return [];
    }
    var begin, end := m.value + 1, m.value + 1 + limit;
    if end > |chain.blocks| {
      end := |chain.blocks|;
    }
    r := [];
    for i := begin to end
      invariant r == chain.blocks[begin..i]
    {
      r := r + [chain.blocks[i]];
    }
    assert chain.blocks[begin..|chain.blocks|] == chain.blocks[begin..];
  }

  // Serialized forms exist for all the blocks in play, and their hashes have 32 bytes.
  ghost predicate AllFit(c: Crypto, known: iset<Wire>) {
    forall w :: w in known ==> WireFits(w) && |c.blockHash(w).bytes| == HASH_SIZE
  }

  lemma LocatorSurvives(cfg: Config, known: iset<Wire>, a: Node)
    requires NodeOk(cfg, known, a) && AllFit(cfg.crypto, known)
    requires a.blocks != [] && |a.blocks| <= LIMIT64
    ensures DecodeLocator(EncodeLocator(Locator(a.blocks))) == Some(Locator(a.blocks))
  {
    hide RulesOk, PoolSound, MempoolOk, BlocksCollisionFree, Linked, WorkExact, Genesis, WireFits;
    hide DecodeLocator, EncodeLocator, LocatorFrom, LocatorHeights, HeightOf;
    var hashes := Locator(a.blocks);
    LocatorEntries(a.blocks, |a.blocks| - 1, 1, 0);
    LocatorSize(a.blocks, |a.blocks| - 1, 1, 0);
    LocatorIsShort(|a.blocks| - 1);
    forall i | 0 <= i < |hashes| ensures |hashes[i].bytes| == HASH_SIZE {
      assert hashes[i] in hashes;
      var h := HeightOf(a.blocks, hashes[i]).value;
      assert SelfHashed(cfg.crypto, known, a.blocks[h]);
    }
    LocatorRoundTrip(hashes, []);
  }

  lemma AnswerFits(cfg: Config, known: iset<Wire>, b: Node, locator: seq<Hash>, limit: nat)
    requires NodeOk(cfg, known, b) && AllFit(cfg.crypto, known)
    ensures var blocks := BlocksAfter(b.blocks, locator, limit);
      && (forall i :: 0 <= i < |blocks| ==> WireFits(blocks[i].wire))
      && AllSelfHashed(cfg.crypto, known, ReceivedAll(cfg.crypto, blocks))
  {
    hide RulesOk, PoolSound, MempoolOk, BlocksCollisionFree, Linked, WorkExact, Genesis, WireFits, LocatorMatch;
    var blocks := BlocksAfter(b.blocks, locator, limit);
    forall i | 0 <= i < |blocks| ensures WireFits(blocks[i].wire) && blocks[i].wire in known {
      var m := LocatorMatch(b.blocks, locator).value;
      assert blocks[i] == b.blocks[m + 1 + i];
      assert SelfHashed(cfg.crypto, known, b.blocks[m + 1 + i]);
    }
  }

  /** What `a` makes of everything the chosen peer sent by the time the catch-up ends. If that
      was its answer and nothing else, it is adopted exactly when `a` still has the block the
      answer builds on and `b` is the heavier; `a`'s chain is then `b`'s. If there were other
      blocks in it, and `b` is the heavier, it is adopted exactly when it starts, after what
      `a` already has, with what `a` lacks of `b`'s chain, and only continues that chain. */
  ghost predicate Outcomes(cfg: Config, before: Node, b: Node, m: nat, buffer: seq<Block>, adopted: bool, after: Node,
                           now: u64)
    requires m < |b.blocks|
  {
    var here := HeightOf(before.blocks, b.blocks[m].hash).Some?;
    && (if adopted then AdoptStep(cfg, before, buffer, now) == Some(after)
        else AdoptStep(cfg, before, buffer, now) == None && after == before)
    && (TotalWork(before.blocks) < LIMIT64 && buffer == ReceivedAll(cfg.crypto, b.blocks[m + 1..]) ==>
          && (adopted <==> here && TipWork(b.blocks) > TipWork(before.blocks))
          && (adopted ==> after.blocks == b.blocks))
    && (TotalWork(before.blocks) < LIMIT64 && here && TipWork(b.blocks) > TipWork(before.blocks)
        && TipWork(b.blocks) + SumWork(buffer) < LIMIT64 ==>
          && (adopted <==> exists h :: StartsWith(before, b, buffer, h) && ExtraSigned(cfg, before, b, buffer, h, now))
          && (forall h :: adopted && StartsWith(before, b, buffer, h) ==>
                after.blocks == AppendAll(b.blocks, Kept(cfg, before, b, buffer, h, now))))
  }

  /** A whole catch-up. `a` asks `b` for what follows its locator. The network delivers `b`'s
      answer, mixed in any way with other blocks of `b`, which are buffered too, and with
      blocks of other peers, which `a` submits as they come. Then the buffer is adopted or
      not, as `Outcomes` says. With no block from elsewhere `a` still has the block that the
      answer builds on. */
  method Synchronise(a: SyncNode, b: ChainManager, peer: nat, deliver: seq<Bytes> -> seq<Message>, now: u64)
    returns (adopted: bool, ghost before: Node, ghost m: nat, ghost buffer: seq<Block>)
    requires a.chain.Valid() && b.Valid() && a.chain.cfg == b.cfg && a.chain.known == b.known && !a.active
    requires a.chain.chain != b.chain && AllFit(b.cfg.crypto, b.known)
    requires forall p, x :: x in p ==> x in FromPeer(deliver(p), peer)
    requires forall p, i :: 0 <= i < |deliver(p)| && (deliver(p)[i].peer != peer || deliver(p)[i].payload !in p) ==>
               MessageKnown(b.cfg.crypto, b.known, deliver(p)[i])
    requires |a.chain.chain.blocks| <= LIMIT64
    requires var start := LocatorMatch(b.chain.blocks, Locator(a.chain.chain.blocks));
      start.Some? ==> |b.chain.blocks| <= start.value + 1 + MAX_BLOCKS_PER_RESPONSE
                      && WithinDrift(b.cfg.params, b.chain.blocks, start.value, now)
    modifies a, a.chain, a.chain.chain, a.chain.ledger, a.chain.mempool, a.chain.orphans, a.chain.storage
    ensures a.chain.Valid() && b.chain.blocks == old(b.chain.blocks)
    ensures LocatorMatch(b.chain.blocks, Locator(old(a.chain.chain.blocks))) == Some(m) && m < |b.chain.blocks|
    ensures Agree(old(a.chain.chain.blocks), b.chain.blocks, m)
    ensures var answer := BlocksAfter(b.chain.blocks, Locator(old(a.chain.chain.blocks)), MAX_BLOCKS_PER_RESPONSE);
      var messages := deliver(EncodeAll(answer));
      && Submitted(b.cfg, old(a.chain.View()), FromOthers(messages, peer), before)
      && buffer == Decoded(b.cfg.crypto, FromPeer(messages, peer))
      && (FromPeer(messages, peer) == EncodeAll(answer) ==> buffer == ReceivedAll(b.cfg.crypto, answer))
    ensures Outcomes(b.cfg, before, old(b.View()), m, buffer, adopted, a.chain.View(), now)
    ensures before.blocks == old(a.chain.chain.blocks) ==> HeightOf(before.blocks, b.chain.blocks[m].hash).Some?
  {
    hide NodeOk, MempoolOk, PoolOk, DistinctHashes, Locator, LocatorMatch, TotalWork, TipWork, WithinDrift, AllFit;
    hide DecodeLocator, EncodeLocator, EncodeAll, Decoded, ReceivedAll, AdoptStep, AllSelfHashed, BlocksAfter;
    hide FromPeer, FromOthers, Submitted, MessageKnown, HeightOf, Agree, Outcomes;
    ghost var s, t, cfg := a.chain.View(), b.View(), b.cfg;
    HasGenesis(cfg, b.known, s);
    var _ := a.StartSync(peer);
    var hashes := BuildLocator(a.chain.chain);
    var request := SerializeGetBlocks(hashes);
    m := AnswerArrives(cfg, b.known, s, t);
    var payloads := AnswerRequest(b, request);
    var messages := deliver(payloads);
    a.HandleAll(messages);
    before, buffer := a.chain.View(), a.buffer;
    assert buffer == Decoded(cfg.crypto, FromPeer(messages, peer));
    PeerBlocksKnown(cfg, b.known, t, Locator(s.blocks), messages, peer);
    adopted := a.FinishSync(true, now);
    Settled(cfg, b.known, s, before, t, m, FromPeer(messages, peer), adopted, a.chain.View(), now);
  }

  // The request reaches `b` intact, and its answer is buffered as it was sent.
  lemma AnswerArrives(cfg: Config, known: iset<Wire>, a: Node, b: Node) returns (m: nat)
    requires NodeOk(cfg, known, a) && NodeOk(cfg, known, b) && AllFit(cfg.crypto, known)
    requires a.blocks != [] && |a.blocks| <= LIMIT64
    requires var start := LocatorMatch(b.blocks, Locator(a.blocks));
      start.Some? ==> |b.blocks| <= start.value + 1 + MAX_BLOCKS_PER_RESPONSE
    ensures m < |b.blocks| && LocatorMatch(b.blocks, Locator(a.blocks)) == Some(m) && Agree(a.blocks, b.blocks, m)
    ensures DecodeLocator(EncodeLocator(Locator(a.blocks))) == Some(Locator(a.blocks))
    ensures BlocksAfter(b.blocks, Locator(a.blocks), MAX_BLOCKS_PER_RESPONSE) == b.blocks[m + 1..]
    ensures var answer := ReceivedAll(cfg.crypto, b.blocks[m + 1..]);
      && AllSelfHashed(cfg.crypto, known, answer)
      && Decoded(cfg.crypto, EncodeAll(BlocksAfter(b.blocks, Locator(a.blocks), MAX_BLOCKS_PER_RESPONSE))) == answer
  {
    hide NodeOk, Locator, LocatorMatch, AllFit, DecodeLocator, EncodeLocator, EncodeAll, Decoded, ReceivedAll;
    hide AllSelfHashed, WireFits;
    LocatorSurvives(cfg, known, a);
    MatchIsCommon(cfg, known, a, b);
    m := LocatorMatch(b.blocks, Locator(a.blocks)).value;
    AnswerFits(cfg, known, b, Locator(a.blocks), MAX_BLOCKS_PER_RESPONSE);
    AnswerDecodes(cfg.crypto, b.blocks[m + 1..]);
  }

  // Whatever the chosen peer sends that decodes is self-hashed and in play.
  lemma {:induction false} DecodedKnown(c: Crypto, known: iset<Wire>, payloads: seq<Bytes>)
    requires forall x :: x in payloads ==> DecodeBlock(c, x).Some? ==> DecodeBlock(c, x).value.wire in known
    ensures AllSelfHashed(c, known, Decoded(c, payloads))
    decreases |payloads|
  {
    if payloads != [] {
      var init, last := payloads[..|payloads| - 1], payloads[|payloads| - 1];
      assert last in payloads && forall x :: x in init ==> x in payloads;
      DecodedKnown(c, known, init);
    }
  }

  lemma {:induction false} FromPeerMembers(messages: seq<Message>, peer: nat, x: Bytes)
    ensures x in FromPeer(messages, peer) <==>
            exists i :: 0 <= i < |messages| && messages[i].peer == peer && messages[i].payload == x
    decreases |messages|
  {
    if messages != [] {
      var init := messages[..|messages| - 1];
      FromPeerMembers(init, peer, x);
      assert forall i :: 0 <= i < |init| ==> init[i] == messages[i];
    }
  }

  lemma {:induction false} SentMembers(blocks: seq<Block>, x: Bytes)
    requires x in EncodeAll(blocks)
    ensures exists i :: 0 <= i < |blocks| && x == EncodeWire(blocks[i].wire)
    decreases |blocks|
  {
    hide EncodeWire;
    var init := blocks[..|blocks| - 1];
    if x in EncodeAll(init) {
      SentMembers(init, x);
      var i :| 0 <= i < |init| && x == EncodeWire(init[i].wire);
      assert init[i] == blocks[i];
    }
  }

  lemma PeerBlocksKnown(cfg: Config, known: iset<Wire>, b: Node, locator: seq<Hash>, messages: seq<Message>, peer: nat)
    requires NodeOk(cfg, known, b) && AllFit(cfg.crypto, known)
    requires var sent := EncodeAll(BlocksAfter(b.blocks, locator, MAX_BLOCKS_PER_RESPONSE));
      forall i :: 0 <= i < |messages| && messages[i].payload !in sent ==> MessageKnown(cfg.crypto, known, messages[i])
    ensures AllSelfHashed(cfg.crypto, known, Decoded(cfg.crypto, FromPeer(messages, peer)))
  {
    hide NodeOk, AllFit, EncodeWire, DecodeWire, Decoded, BlocksAfter, WireFits, FromPeer;
    var c, blocks := cfg.crypto, BlocksAfter(b.blocks, locator, MAX_BLOCKS_PER_RESPONSE);
    AnswerFits(cfg, known, b, locator, MAX_BLOCKS_PER_RESPONSE);
    forall x | x in FromPeer(messages, peer) ensures DecodeBlock(c, x).Some? ==> DecodeBlock(c, x).value.wire in known {
      FromPeerMembers(messages, peer, x);
      if x in EncodeAll(blocks) {
        SentMembers(blocks, x);
        var i :| 0 <= i < |blocks| && x == EncodeWire(blocks[i].wire);
        BlockRoundTrip(c, blocks[i].wire);
        assert SelfHashed(c, known, ReceivedAll(c, blocks)[i]);
      }
    }
    hide AllSelfHashed, DecodeBlock;
    DecodedKnown(c, known, FromPeer(messages, peer));
  }

  lemma {:induction false} DecodedHas(c: Crypto, payloads: seq<Bytes>, x: Bytes)
    requires x in payloads && DecodeBlock(c, x).Some?
    ensures DecodeBlock(c, x).value in Decoded(c, payloads)
    decreases |payloads|
  {
    hide DecodeBlock;
    var init, last := payloads[..|payloads| - 1], payloads[|payloads| - 1];
    assert payloads == init + [last];
    if x in init {
      DecodedHas(c, init, x);
    }
  }

  lemma {:induction false} LastIsSent(blocks: seq<Block>)
    requires blocks != []
    ensures EncodeWire(blocks[|blocks| - 1].wire) in EncodeAll(blocks)
  {
    hide EncodeWire;
  }

  // `b`'s tip is in the buffer if its answer arrived and was not empty.
  lemma TipArrives(cfg: Config, known: iset<Wire>, b: Node, m: nat, payloads: seq<Bytes>) returns (i: nat)
    requires NodeOk(cfg, known, b) && AllFit(cfg.crypto, known) && m + 1 < |b.blocks|
    requires forall x :: x in EncodeAll(b.blocks[m + 1..]) ==> x in payloads
    ensures var buffer := Decoded(cfg.crypto, payloads);
      i < |buffer| && buffer[i].hash == b.blocks[|b.blocks| - 1].hash
  {
    hide RulesOk, PoolSound, MempoolOk, BlocksCollisionFree, Linked, WorkExact, Genesis, WireFits, EncodeWire, Decoded;
    var tip := b.blocks[|b.blocks| - 1];
    assert SelfHashed(cfg.crypto, known, tip);
    hide NodeOk, DecodeWire;
    LastIsSent(b.blocks[m + 1..]);
    BlockRoundTrip(cfg.crypto, tip.wire);
    DecodedHas(cfg.crypto, payloads, EncodeWire(tip.wire));
    i :| 0 <= i < |Decoded(cfg.crypto, payloads)|
         && Decoded(cfg.crypto, payloads)[i] == DecodeBlock(cfg.crypto, EncodeWire(tip.wire)).value;
  }

  lemma NewAboveMatch(cfg: Config, known: iset<Wire>, a: Node, b: Node, m: nat, now: u64)
    requires NodeOk(cfg, known, a) && NodeOk(cfg, known, b) && m < |b.blocks|
    requires HeightOf(a.blocks, b.blocks[m].hash).Some? && WithinDrift(cfg.params, b.blocks, m, now)
    ensures NewWithinDrift(cfg.params, a, b, now)
  {
    hide NodeOk, HeightOf;
    forall i | 0 <= i <= m ensures HeightOf(a.blocks, b.blocks[i].hash).Some? {
      KnownBelow(cfg, known, a, b, i, m);
    }
  }

  lemma Settled(cfg: Config, known: iset<Wire>, s: Node, a: Node, b: Node, m: nat, payloads: seq<Bytes>, adopted: bool,
                after: Node, now: u64)
    requires NodeOk(cfg, known, s) && NodeOk(cfg, known, a) && NodeOk(cfg, known, b) && AllFit(cfg.crypto, known)
    requires Agree(s.blocks, b.blocks, m) && WithinDrift(cfg.params, b.blocks, m, now) && m < |b.blocks|
    requires forall x :: x in EncodeAll(b.blocks[m + 1..]) ==> x in payloads
    requires AllSelfHashed(cfg.crypto, known, Decoded(cfg.crypto, payloads))
    requires var r := AdoptStep(cfg, a, Decoded(cfg.crypto, payloads), now);
      if adopted then r == Some(after) else r == None && after == a
    ensures Outcomes(cfg, a, b, m, Decoded(cfg.crypto, payloads), adopted, after, now)
    ensures a.blocks == s.blocks ==> HeightOf(a.blocks, b.blocks[m].hash).Some?
  {
    hide NodeOk, TotalWork, TipWork, WithinDrift, AdoptStep, ReceivedAll, HeightOf, Agree, EncodeAll, Decoded, AllFit;
    hide AllSelfHashed, StartsWith, ExtraSigned, Kept, SumWork, AppendAll;
    var buffer := Decoded(cfg.crypto, payloads);
    HeightAt(cfg, known, s, b, m);
    if TotalWork(a.blocks) < LIMIT64 {
      LateAdoption(cfg, known, a, b, m, now);
      var here := HeightOf(a.blocks, b.blocks[m].hash);
      if here.Some? && TipWork(b.blocks) > TipWork(a.blocks) && TipWork(b.blocks) + SumWork(buffer) < LIMIT64 {
        KnownIsShared(cfg, known, a, b, m, here.value);
        NotAllShared(cfg, known, a, b, m);
        NewAboveMatch(cfg, known, a, b, m, now);
        var i := TipArrives(cfg, known, b, m, payloads);
        NoisyAnswer(cfg, known, a, b, buffer, i, now);
      }
    }
  }
}
