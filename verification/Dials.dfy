/**
 The duplicate-connection rule of `register_new_peer` (src/network/Node.cpp): of two
 connections to the same host and listening port, the one dialed by the node with
 the smaller id is kept. Sockets are links with a number; a link dropped at one end
 is noticed at the other at some later moment, or never.
 */
module Dials {
  import opened Types

  datatype Peer = Peer(host: Str, port: nat, outbound: bool, link: nat, alive: bool)

  // A live peer that listens at `host` and `port`.
  predicate Matches(p: Peer, host: Str, port: nat) {
    p.alive && p.port != 0 && p.host == host && p.port == port
  }

  function FirstMatch(peers: seq<Peer>, host: Str, port: nat): (r: Option<nat>)
    ensures r.Some? ==> r.value < |peers| && Matches(peers[r.value], host, port)
    ensures r.None? ==> forall i :: 0 <= i < |peers| ==> !Matches(peers[i], host, port)
    ensures r.Some? ==> forall i :: 0 <= i < r.value ==> !Matches(peers[i], host, port)
  {
    if peers == [] then None
    else
      var earlier := FirstMatch(peers[..|peers| - 1], host, port);
      if earlier.Some? then earlier
      else if Matches(peers[|peers| - 1], host, port) then Some(|peers| - 1)
      else None
  }

  function KillAt(peers: seq<Peer>, i: nat): seq<Peer>
    requires i < |peers|
  {
    peers[i := peers[i].(alive := false)]
  }

  // The table after the connection `p` to the node `theirs` has been registered at node `mine`.
  function Registered(mine: nat, theirs: nat, peers: seq<Peer>, p: Peer): seq<Peer> {
    if mine == theirs then peers
    else match FirstMatch(peers, p.host, p.port)
      case None => peers + [p]
      case Some(i) => if (mine < theirs) == p.outbound then KillAt(peers, i) + [p] else peers
  }

  class PeerTable {
    const id: nat
    var peers: seq<Peer>

    constructor (id: nat)
      ensures this.id == id && peers == []
    {
      this.id := id;
      peers := [];
    }

    method Register(theirs: nat, p: Peer) returns (accepted: bool)
      modifies this
      ensures peers == Registered(id, theirs, old(peers), p)
      ensures accepted <==> peers != old(peers)
    {
      if id == theirs {
        return false;
      }
      accepted := true;
      var i := 0;
      while i < |peers|
        invariant i <= |peers| && peers == old(peers)
        invariant forall j :: 0 <= j < i ==> !Matches(peers[j], p.host, p.port)
      {
        if peers[i].alive && peers[i].port != 0 && peers[i].host == p.host && peers[i].port == p.port {
          if (id < theirs) == p.outbound {
            peers := KillAt(peers, i);
          } else {
            accepted := false;
          }
          break;
        }
        i := i + 1;
      }
      if accepted {
        peers := peers + [p];
      }
    }
  }

  // ---- At most one live peer per host and port ----

  ghost predicate OnePerAddress(peers: seq<Peer>) {
    forall i, j :: 0 <= i < |peers| && 0 <= j < |peers| ==>
      Matches(peers[i], peers[j].host, peers[j].port) && peers[j].alive ==> i == j
  }

  // The link `l` has been closed.
  function Closed(peers: seq<Peer>, l: nat): (r: seq<Peer>)
    ensures |r| == |peers|
    ensures forall i :: 0 <= i < |r| ==> r[i] == if peers[i].link == l then peers[i].(alive := false) else peers[i]
  {
    if peers == [] then []
    else
      var last := peers[|peers| - 1];
      Closed(peers[..|peers| - 1], l) + [if last.link == l then last.(alive := false) else last]
  }

  // Without the dead peers.
  function Reaped(peers: seq<Peer>): seq<Peer> {
    if peers == [] then []
    else Reaped(peers[..|peers| - 1]) + if peers[|peers| - 1].alive then [peers[|peers| - 1]] else []
  }

  // Any change a node makes to its table.
  ghost predicate TableStep(mine: nat, peers: seq<Peer>, peers': seq<Peer>) {
    || (exists theirs, p :: peers' == Registered(mine, theirs, peers, p))
    || (exists l :: peers' == Closed(peers, l))
    || peers' == Reaped(peers)
  }

  lemma PushKeepsOne(peers: seq<Peer>, p: Peer)
    requires OnePerAddress(peers)
    requires p.alive ==> forall i :: 0 <= i < |peers| ==> !Matches(peers[i], p.host, p.port)
    ensures OnePerAddress(peers + [p])
  {}

  // Killing the first match leaves none.
  lemma KillLeavesNone(peers: seq<Peer>, host: Str, port: nat)
    requires OnePerAddress(peers) && FirstMatch(peers, host, port).Some?
    ensures var after := KillAt(peers, FirstMatch(peers, host, port).value);
      OnePerAddress(after) && FirstMatch(after, host, port).None?
  {
    var k := FirstMatch(peers, host, port).value;
    var after := KillAt(peers, k);
    forall i | 0 <= i < |after| ensures !Matches(after[i], host, port) {
      assert Matches(peers[k], peers[k].host, peers[k].port);
    }
  }

  lemma RegisterKeepsOne(mine: nat, theirs: nat, peers: seq<Peer>, p: Peer)
    requires OnePerAddress(peers)
    ensures OnePerAddress(Registered(mine, theirs, peers, p))
  {
    hide OnePerAddress;
    var k := FirstMatch(peers, p.host, p.port);
    if k.None? {
      PushKeepsOne(peers, p);
    } else {
      KillLeavesNone(peers, p.host, p.port);
      PushKeepsOne(KillAt(peers, k.value), p);
    }
  }

  lemma CloseKeepsOne(peers: seq<Peer>, l: nat)
    requires OnePerAddress(peers)
    ensures OnePerAddress(Closed(peers, l))
  {}

  lemma {:induction false} ReapKeepsLive(peers: seq<Peer>)
    ensures forall p :: p in Reaped(peers) <==> p in peers && p.alive
    decreases |peers|
  {
    if peers != [] {
      assert peers == peers[..|peers| - 1] + [peers[|peers| - 1]];
      ReapKeepsLive(peers[..|peers| - 1]);
    }
  }

  lemma {:induction false} ReapKeepsOne(peers: seq<Peer>)
    requires OnePerAddress(peers)
    ensures OnePerAddress(Reaped(peers))
    decreases |peers|
  {
    if peers != [] {
      var init, last := peers[..|peers| - 1], peers[|peers| - 1];
      assert forall i :: 0 <= i < |init| ==> init[i] == peers[i];
      ReapKeepsOne(init);
      ReapKeepsLive(init);
      if last.alive {
        forall q | q in Reaped(init) ensures !Matches(q, last.host, last.port) {
          var k :| 0 <= k < |init| && init[k] == q;
          assert peers[k] == q && peers[|init|] == last;
        }
        PushKeepsOne(Reaped(init), last);
      } else {
        assert Reaped(peers) == Reaped(init);
      }
    }
  }

  /** In every run of a node, starting from an empty table, at most one live peer exists
      per host and nonzero port. */
  lemma {:induction false} AlwaysOnePerAddress(mine: nat, tables: seq<seq<Peer>>, i: nat)
    requires i < |tables| && tables[0] == []
    requires forall k :: 0 <= k < |tables| - 1 ==> TableStep(mine, tables[k], tables[k + 1])
    ensures OnePerAddress(tables[i])
    decreases i
  {
    hide Registered, Closed, Reaped, OnePerAddress;
    if i == 0 {
      EmptyIsOne();
    } else {
      var peers, peers' := tables[i - 1], tables[i];
      AlwaysOnePerAddress(mine, tables, i - 1);
      assert TableStep(mine, tables[i - 1], tables[i - 1 + 1]);
      if p, theirs :| peers' == Registered(mine, theirs, peers, p) {
        RegisterKeepsOne(mine, theirs, peers, p);
      } else if l :| peers' == Closed(peers, l) {
        CloseKeepsOne(peers, l);
      } else {
        ReapKeepsOne(peers);
      }
    }
  }

  lemma EmptyIsOne()
    ensures OnePerAddress([])
  {}

  // ---- Two nodes that dial each other ----

  /** One of the two nodes: its id and the other's, the address at which it sees the
      other, and the two links between them. */
  datatype Party = Party(id: nat, otherId: nat, host: Str, port: nat, dialed: nat, accepted: nat)

  // Which of its own two links each party has registered, or failed to.
  datatype End = End(peers: seq<Peer>, tried: set<nat>)

  ghost predicate Live(e: End, l: nat) {
    exists p :: p in e.peers && p.link == l && p.alive
  }

  // The link was dropped at this end.
  ghost predicate Gone(e: End, l: nat) {
    l in e.tried && !Live(e, l)
  }

  predicate Ours(x: Party, l: nat) {
    l == x.dialed || l == x.accepted
  }

  // The connection over `l` as this party registers it.
  function Connection(x: Party, l: nat): Peer {
    Peer(x.host, x.port, l == x.dialed, l, true)
  }

  // This end registers the link.
  ghost predicate RegisterStep(x: Party, e: End, l: nat, e': End) {
    && Ours(x, l) && l !in e.tried
    && e' == End(Registered(x.id, x.otherId, e.peers, Connection(x, l)), e.tried + {l})
  }

  // The link is gone at the other end: the handshake fails, or its peer is found dead.
  ghost predicate NoticeStep(x: Party, e: End, l: nat, other: End, e': End) {
    && Ours(x, l) && Gone(other, l)
    && if l in e.tried then e' == e.(peers := Closed(e.peers, l)) else e' == e.(tried := e.tried + {l})
  }

  // Anything that has to do with other nodes, at other addresses and over other links.
  ghost predicate OtherStep(x: Party, e: End, e': End) {
    && e'.tried == e.tried
    && ( || (exists theirs, p: Peer :: !Ours(x, p.link) && (p.host != x.host || p.port != x.port)
                                 && e'.peers == Registered(x.id, theirs, e.peers, p))
         || (exists l :: !Ours(x, l) && e'.peers == Closed(e.peers, l))
         || e'.peers == Reaped(e.peers))
  }

  ghost predicate EndStep(x: Party, e: End, other: End, e': End) {
    || (exists l :: RegisterStep(x, e, l, e'))
    || (exists l :: NoticeStep(x, e, l, other, e'))
    || OtherStep(x, e, e')
  }

  // The link dialed by the smaller id.
  function Winner(x: Party): nat {
    if x.id < x.otherId then x.dialed else x.accepted
  }

  function Loser(x: Party): nat {
    if x.id < x.otherId then x.accepted else x.dialed
  }

  // Two nodes with different ids, joined by two links of which each dialed one.
  ghost predicate Crossing(a: Party, b: Party) {
    && a.id != b.id && a.otherId == b.id && b.otherId == a.id
    && a.port != 0 && b.port != 0
    && a.dialed != a.accepted && b.dialed == a.accepted && b.accepted == a.dialed
  }

  // The live connections to the other party are over registered links, and there is at most one.
  ghost predicate EndOk(x: Party, e: End) {
    && OnePerAddress(e.peers)
    && (forall p :: p in e.peers && p.alive && (Matches(p, x.host, x.port) || Ours(x, p.link)) ==>
          p.link in e.tried && p == Connection(x, p.link) && Ours(x, p.link))
    && (Winner(x) in e.tried ==> Live(e, Winner(x)))
  }

  // ---- What every step keeps ----

  lemma KillMembers(peers: seq<Peer>, k: nat, p: Peer)
    requires k < |peers| && p.alive
    ensures p in KillAt(peers, k) ==> p in peers
    ensures p in peers && p != peers[k] ==> p in KillAt(peers, k)
  {
    var after := KillAt(peers, k);
    if p in after {
      var i :| 0 <= i < |after| && after[i] == p;
      assert peers[i] == p;
    }
    if p in peers && p != peers[k] {
      var i :| 0 <= i < |peers| && peers[i] == p;
      assert after[i] == p;
    }
  }

  // What registering does to the set of live peers, when no two have the same address.
  lemma RegisteredLive(mine: nat, theirs: nat, peers: seq<Peer>, n: Peer, p: Peer)
    requires OnePerAddress(peers) && p.alive
    ensures var keeps := mine != theirs && ((mine < theirs) == n.outbound);
      var free := mine != theirs && FirstMatch(peers, n.host, n.port).None?;
      p in Registered(mine, theirs, peers, n) <==>
        (p in peers && !(keeps && Matches(p, n.host, n.port))) || ((keeps || free) && p == n)
  {
    var k := FirstMatch(peers, n.host, n.port);
    if k.Some? {
      KillMembers(peers, k.value, p);
      KillLeavesNone(peers, n.host, n.port);
    }
  }

  // A peer that does not listen anywhere duplicates nobody: it is taken, and everyone else stays.
  lemma NotListening(mine: nat, theirs: nat, peers: seq<Peer>, n: Peer)
    requires n.port == 0
    ensures Registered(mine, theirs, peers, n) == if mine == theirs then peers else peers + [n]
  {
    var k := FirstMatch(peers, n.host, n.port);
  }

  // Two live connections to the other party are one.
  lemma SameConnection(x: Party, e: End, p: Peer, q: Peer)
    requires EndOk(x, e) && p in e.peers && q in e.peers && p.alive && q.alive
    requires Matches(p, x.host, x.port) && Matches(q, x.host, x.port)
    ensures p == q
  {
    var i :| 0 <= i < |e.peers| && e.peers[i] == p;
    var j :| 0 <= j < |e.peers| && e.peers[j] == q;
  }

  lemma RegisterKeepsEnd(x: Party, e: End, l: nat, e': End)
    requires x.id != x.otherId && x.port != 0 && x.dialed != x.accepted
    requires EndOk(x, e) && RegisterStep(x, e, l, e')
    ensures EndOk(x, e')
  {
    hide Registered, OnePerAddress, FirstMatch;
    var n := Connection(x, l);
    assert Matches(n, x.host, x.port);
    RegisterKeepsOne(x.id, x.otherId, e.peers, n);
    forall p: Peer | p.alive
      ensures p in e'.peers <==>
              (p in e.peers && !(l == Winner(x) && Matches(p, x.host, x.port)))
              || ((l == Winner(x) || FirstMatch(e.peers, x.host, x.port).None?) && p == n)
    {
      RegisteredLive(x.id, x.otherId, e.peers, n, p);
    }
    if l == Winner(x) {
      assert n in e'.peers && n.link == l && n.alive;
    } else if Winner(x) in e.tried {
      var p :| p in e.peers && p.link == Winner(x) && p.alive;
      assert p in e'.peers;
    }
  }

  lemma NoticeKeepsEnd(x: Party, e: End, l: nat, other: End, e': End)
    requires EndOk(x, e) && NoticeStep(x, e, l, other, e') && l != Winner(x)
    ensures EndOk(x, e')
  {
    hide OnePerAddress, Closed;
    if l in e.tried {
      CloseKeepsOne(e.peers, l);
      CloseKeepsOthers(x, e, l);
    } else if Winner(x) in e.tried {
      var p :| p in e.peers && p.link == Winner(x) && p.alive;
      assert p in e'.peers;
    }
  }

  lemma CloseKeepsOthers(x: Party, e: End, l: nat)
    requires EndOk(x, e) && l != Winner(x)
    ensures var after := e.(peers := Closed(e.peers, l));
      && (forall p :: p in after.peers && p.alive ==> p in e.peers)
      && (Winner(x) in e.tried ==> Live(after, Winner(x)))
  {
    var after := Closed(e.peers, l);
    forall p | p in after && p.alive ensures p in e.peers {
      var i :| 0 <= i < |after| && after[i] == p;
      assert e.peers[i] == p;
    }
    if Winner(x) in e.tried {
      var p :| p in e.peers && p.link == Winner(x) && p.alive;
      var i :| 0 <= i < |e.peers| && e.peers[i] == p;
      assert after[i] == p;
    }
  }

  lemma OtherKeepsEnd(x: Party, e: End, e': End)
    requires EndOk(x, e) && OtherStep(x, e, e')
    ensures EndOk(x, e')
  {
    hide OnePerAddress, Closed, Registered, Reaped, FirstMatch;
    if theirs, n: Peer :| !Ours(x, n.link) && (n.host != x.host || n.port != x.port)
                          && e'.peers == Registered(x.id, theirs, e.peers, n) {
      RegisterKeepsOne(x.id, theirs, e.peers, n);
      forall p: Peer | p.alive
        ensures p in e'.peers ==> p in e.peers || p == n
        ensures p in e.peers && !Matches(p, n.host, n.port) ==> p in e'.peers
      {
        RegisteredLive(x.id, theirs, e.peers, n, p);
      }
      if Winner(x) in e.tried {
        var p :| p in e.peers && p.link == Winner(x) && p.alive;
        assert p in e'.peers;
      }
    } else if l :| !Ours(x, l) && e'.peers == Closed(e.peers, l) {
      CloseKeepsOne(e.peers, l);
      CloseKeepsOthers(x, e, l);
    } else {
      ReapKeepsOne(e.peers);
      ReapKeepsLive(e.peers);
      if Winner(x) in e.tried {
        var p :| p in e.peers && p.link == Winner(x) && p.alive;
        assert p in e'.peers;
      }
    }
  }

  // The link dialed by the smaller id is not gone at either end, so no end ever notices it gone.
  lemma StepKeepsEnds(a: Party, b: Party, e: End, other: End, e': End)
    requires Crossing(a, b) && EndOk(a, e) && EndOk(b, other) && EndStep(a, e, other, e')
    ensures EndOk(a, e')
  {
    hide EndOk, RegisterStep, OtherStep;
    NeverGone(b, other);
    if l :| RegisterStep(a, e, l, e') {
      RegisterKeepsEnd(a, e, l, e');
    } else if l :| NoticeStep(a, e, l, other, e') {
      NoticeKeepsEnd(a, e, l, other, e');
    } else {
      OtherKeepsEnd(a, e, e');
    }
  }

  lemma NeverGone(x: Party, e: End)
    requires EndOk(x, e)
    ensures !Gone(e, Winner(x))
  {}

  // ---- Every interleaving ----

  datatype Both = Both(a: End, b: End)

  ghost predicate CrossedStep(a: Party, b: Party, s: Both, s': Both) {
    || (EndStep(a, s.a, s.b, s'.a) && s'.b == s.b)
    || (EndStep(b, s.b, s.a, s'.b) && s'.a == s.a)
  }

  // Neither node knows the other yet.
  ghost predicate Strangers(x: Party, e: End) {
    && OnePerAddress(e.peers) && e.tried == {}
    && forall p :: p in e.peers && p.alive ==> !Matches(p, x.host, x.port) && !Ours(x, p.link)
  }

  lemma {:induction false} CrossedKeeps(a: Party, b: Party, run: seq<Both>, i: nat)
    requires Crossing(a, b) && i < |run| && Strangers(a, run[0].a) && Strangers(b, run[0].b)
    requires forall k :: 0 <= k < |run| - 1 ==> CrossedStep(a, b, run[k], run[k + 1])
    ensures EndOk(a, run[i].a) && EndOk(b, run[i].b)
    decreases i
  {
    hide EndStep, OnePerAddress;
    if i > 0 {
      CrossedKeeps(a, b, run, i - 1);
      hide EndOk;
      var s, s' := run[i - 1], run[i - 1 + 1];
      assert CrossedStep(a, b, run[i - 1], run[i - 1 + 1]);
      if s'.b == s.b && EndStep(a, s.a, s.b, s'.a) {
        StepKeepsEnds(a, b, s.a, s.b, s'.a);
      } else {
        StepKeepsEnds(b, a, s.b, s.a, s'.b);
      }
    }
  }

  // One link is live at this end, and it is `l`.
  ghost predicate OnlyLink(x: Party, e: End, l: nat) {
    Live(e, l) && forall p :: p in e.peers && Matches(p, x.host, x.port) ==> p.link == l
  }

  lemma BothTried(x: Party, e: End)
    requires EndOk(x, e) && x.dialed in e.tried && x.accepted in e.tried
    requires x.port != 0 && x.dialed != x.accepted
    ensures OnlyLink(x, e, Winner(x)) && Gone(e, Loser(x))
  {
    hide OnePerAddress;
    var w :| w in e.peers && w.link == Winner(x) && w.alive;
    assert Matches(w, x.host, x.port);
    forall p | p in e.peers && p.alive && (Matches(p, x.host, x.port) || Ours(x, p.link)) ensures p == w {
      assert p == Connection(x, p.link);
      SameConnection(x, e, p, w);
    }
  }

  /** Crossed dials. Two nodes with different ids dial each other; each registers both
      links, in any order and with anything else going on in between. The link dialed by
      the smaller id is never dropped at either end. Once both ends have registered both
      links, it is the only live connection between them at either end, and the other link
      is gone at both. */
  lemma CrossedDials(a: Party, b: Party, run: seq<Both>, i: nat)
    requires Crossing(a, b) && i < |run| && Strangers(a, run[0].a) && Strangers(b, run[0].b)
    requires forall k :: 0 <= k < |run| - 1 ==> CrossedStep(a, b, run[k], run[k + 1])
    ensures var w := if a.id < b.id then a.dialed else b.dialed;
      var z := if a.id < b.id then b.dialed else a.dialed;
      && !Gone(run[i].a, w) && !Gone(run[i].b, w)
      && ({w, z} <= run[i].a.tried ==> OnlyLink(a, run[i].a, w) && Gone(run[i].a, z))
      && ({w, z} <= run[i].b.tried ==> OnlyLink(b, run[i].b, w) && Gone(run[i].b, z))
  {
    hide EndOk, CrossedStep, OnlyLink, Gone;
    CrossedKeeps(a, b, run, i);
    NeverGone(a, run[i].a);
    NeverGone(b, run[i].b);
    if a.dialed in run[i].a.tried && a.accepted in run[i].a.tried {
      BothTried(a, run[i].a);
    }
    if b.dialed in run[i].b.tried && b.accepted in run[i].b.tried {
      BothTried(b, run[i].b);
    }
  }
}
