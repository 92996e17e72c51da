/**
 The mempool: pending transactions in order of descending fee, ties in order of
 arrival, with a size cap and fee-based eviction (src/core/Mempool.cpp).
 */
module Pending {
  import opened Types

  ghost predicate FeesDescend(txs: seq<Transaction>) {
    forall i, j :: 0 <= i < j < |txs| ==> txs[i].fee >= txs[j].fee
  }

  // Behind every transaction paying at least as much.
  function Place(txs: seq<Transaction>, tx: Transaction): seq<Transaction> {
    if txs == [] || txs[0].fee < tx.fee then [tx] + txs
    else [txs[0]] + Place(txs[1..], tx)
  }

  predicate Lists(c: Crypto, txs: seq<Transaction>, h: Hash) {
    exists i :: 0 <= i < |txs| && TxHash(c, txs[i]) == h
  }

  // `add_transaction`: the new list of pending transactions.
  function Offer(c: Crypto, capacity: nat, txs: seq<Transaction>, tx: Transaction): seq<Transaction> {
    if !HasValidSignature(c, tx) || Lists(c, txs, TxHash(c, tx)) then txs
    else if |txs| < capacity then Place(txs, tx)
    else if txs != [] && tx.fee > txs[|txs| - 1].fee then Place(txs[..|txs| - 1], tx)
    else txs
  }

  function OfferAll(c: Crypto, capacity: nat, txs: seq<Transaction>, offers: seq<Transaction>): seq<Transaction>
    decreases |offers|
  {
    if offers == [] then txs
    else Offer(c, capacity, OfferAll(c, capacity, txs, offers[..|offers| - 1]), offers[|offers| - 1])
  }

  function Remove(c: Crypto, txs: seq<Transaction>, h: Hash): seq<Transaction> {
    if txs == [] then []
    else if TxHash(c, txs[0]) == h then txs[1..]
    else [txs[0]] + Remove(c, txs[1..], h)
  }

  function RemoveAll(c: Crypto, txs: seq<Transaction>, mined: seq<Transaction>): seq<Transaction>
    decreases |mined|
  {
    if mined == [] then txs else RemoveAll(c, Remove(c, txs, TxHash(c, mined[0])), mined[1..])
  }

  // What every operation keeps.
  ghost predicate MempoolOk(c: Crypto, capacity: nat, txs: seq<Transaction>) {
    && |txs| <= capacity && FeesDescend(txs)
    && (forall i :: 0 <= i < |txs| ==> HasValidSignature(c, txs[i]))
    && (forall i, j :: 0 <= i < j < |txs| ==> TxHash(c, txs[i]) != TxHash(c, txs[j]))
  }

  lemma {:induction false} PlaceSorted(txs: seq<Transaction>, tx: Transaction)
    requires FeesDescend(txs)
    ensures FeesDescend(Place(txs, tx)) && |Place(txs, tx)| == |txs| + 1
    ensures forall t :: t in Place(txs, tx) <==> t == tx || t in txs
  {
    if !(txs == [] || txs[0].fee < tx.fee) {
      PlaceSorted(txs[1..], tx);
      assert txs == [txs[0]] + txs[1..];
      var rest := Place(txs[1..], tx);
      forall j | 0 <= j < |rest| ensures txs[0].fee >= rest[j].fee {
        assert rest[j] in rest;
      }
    }
  }

  lemma {:induction false} PlaceKeepsDistinct(c: Crypto, txs: seq<Transaction>, tx: Transaction)
    requires FeesDescend(txs)
    requires forall i, j :: 0 <= i < j < |txs| ==> TxHash(c, txs[i]) != TxHash(c, txs[j])
    requires forall i :: 0 <= i < |txs| ==> TxHash(c, txs[i]) != TxHash(c, tx)
    ensures var r := Place(txs, tx); forall i, j :: 0 <= i < j < |r| ==> TxHash(c, r[i]) != TxHash(c, r[j])
    decreases |txs|
  {
    hide TxHash;
    if !(txs == [] || txs[0].fee < tx.fee) {
      PlaceKeepsDistinct(c, txs[1..], tx);
      PlaceSorted(txs[1..], tx);
      var rest := Place(txs[1..], tx);
      forall j | 0 <= j < |rest| ensures TxHash(c, txs[0]) != TxHash(c, rest[j]) {
        assert rest[j] in rest;
        assert rest[j] == tx || rest[j] in txs[1..];
      }
    }
  }

  lemma PlaceOk(c: Crypto, capacity: nat, txs: seq<Transaction>, tx: Transaction)
    requires MempoolOk(c, capacity, txs) && |txs| < capacity
    requires HasValidSignature(c, tx) && !Lists(c, txs, TxHash(c, tx))
    ensures MempoolOk(c, capacity, Place(txs, tx))
  {
    hide TxHash, HasValidSignature;
    PlaceSorted(txs, tx);
    PlaceKeepsDistinct(c, txs, tx);
    var r := Place(txs, tx);
    forall i | 0 <= i < |r| ensures HasValidSignature(c, r[i]) {
      assert r[i] in r;
      assert r[i] == tx || r[i] in txs;
    }
  }

  lemma OfferOk(c: Crypto, capacity: nat, txs: seq<Transaction>, tx: Transaction)
    requires MempoolOk(c, capacity, txs)
    ensures MempoolOk(c, capacity, Offer(c, capacity, txs, tx))
  {
    hide TxHash, HasValidSignature;
    if HasValidSignature(c, tx) && !Lists(c, txs, TxHash(c, tx)) {
      if |txs| < capacity {
        PlaceOk(c, capacity, txs, tx);
      } else if txs != [] && tx.fee > txs[|txs| - 1].fee {
        PlaceOk(c, capacity, txs[..|txs| - 1], tx);
      }
    }
  }

  lemma {:induction false} RemoveMembers(c: Crypto, txs: seq<Transaction>, h: Hash)
    ensures var r := Remove(c, txs, h);
      && |r| <= |txs| && forall t :: t in r ==> t in txs
    decreases |txs|
  {
    hide TxHash;
    if txs != [] {
      RemoveMembers(c, txs[1..], h);
      assert txs == [txs[0]] + txs[1..];
    }
  }

  lemma {:induction false} RemoveOk(c: Crypto, capacity: nat, txs: seq<Transaction>, h: Hash)
    requires MempoolOk(c, capacity, txs)
    ensures MempoolOk(c, capacity, Remove(c, txs, h))
    decreases |txs|
  {
    hide TxHash, HasValidSignature;
    if txs != [] {
      var rest := Remove(c, txs[1..], h);
      RemoveOk(c, capacity, txs[1..], h);
      RemoveMembers(c, txs[1..], h);
      if TxHash(c, txs[0]) != h {
        var r := [txs[0]] + rest;
        forall j | 0 <= j < |rest|
          ensures txs[0].fee >= rest[j].fee && TxHash(c, txs[0]) != TxHash(c, rest[j])
        {
          assert rest[j] in rest && rest[j] in txs[1..];
        }
      }
    }
  }

  lemma {:induction false} RemoveAllOk(c: Crypto, capacity: nat, txs: seq<Transaction>, mined: seq<Transaction>)
    requires MempoolOk(c, capacity, txs)
    ensures MempoolOk(c, capacity, RemoveAll(c, txs, mined))
    decreases |mined|
  {
    hide TxHash, MempoolOk;
    if mined != [] {
      RemoveOk(c, capacity, txs, TxHash(c, mined[0]));
      RemoveAllOk(c, capacity, Remove(c, txs, TxHash(c, mined[0])), mined[1..]);
    }
  }

  // ---- The reference: a stable sort of everything offered ----

  // The validly signed offers, each hash once, in order of first arrival.
  function Arrivals(c: Crypto, offers: seq<Transaction>): seq<Transaction> {
    if offers == [] then []
    else
      var earlier, tx := Arrivals(c, offers[..|offers| - 1]), offers[|offers| - 1];
      if HasValidSignature(c, tx) && !Lists(c, earlier, TxHash(c, tx)) then earlier + [tx] else earlier
  }

  function Ranked(txs: seq<Transaction>): seq<Transaction> {
    if txs == [] then [] else Place(Ranked(txs[..|txs| - 1]), txs[|txs| - 1])
  }

  // The transactions paying exactly `fee`, in order.
  function Paying(txs: seq<Transaction>, fee: int): seq<Transaction> {
    if txs == [] then []
    else if txs[0].fee == fee then [txs[0]] + Paying(txs[1..], fee)
    else Paying(txs[1..], fee)
  }

  lemma {:induction false} PayingConcat(s: seq<Transaction>, t: seq<Transaction>, fee: int)
    ensures Paying(s + t, fee) == Paying(s, fee) + Paying(t, fee)
    decreases |s|
  {
    if s == [] {
      assert s + t == t;
    } else {
      assert (s + t)[0] == s[0] && (s + t)[1..] == s[1..] + t;
      PayingConcat(s[1..], t, fee);
    }
  }

  lemma {:induction false} PlacePaying(txs: seq<Transaction>, tx: Transaction, fee: int)
    requires FeesDescend(txs)
    ensures Paying(Place(txs, tx), fee) == Paying(txs, fee) + Paying([tx], fee)
    decreases |txs|
  {
    if txs == [] || txs[0].fee < tx.fee {
      PayingConcat([tx], txs, fee);
      if fee == tx.fee {
        NonePaying(txs, fee);
      }
    } else {
      PlacePaying(txs[1..], tx, fee);
      assert Place(txs, tx)[1..] == Place(txs[1..], tx);
    }
  }

  lemma {:induction false} NonePaying(txs: seq<Transaction>, fee: int)
    requires forall i :: 0 <= i < |txs| ==> txs[i].fee < fee
    ensures Paying(txs, fee) == []
  {
    if txs != [] {
      NonePaying(txs[1..], fee);
    }
  }

  /** `Ranked` is the stable sort by descending fee: ordered, and for every fee the
      same transactions in the same order as they arrived. */
  lemma {:induction false} RankedIsStableSort(txs: seq<Transaction>, fee: int)
    ensures FeesDescend(Ranked(txs)) && |Ranked(txs)| == |txs|
    ensures Paying(Ranked(txs), fee) == Paying(txs, fee)
    decreases |txs|
  {
    hide Place, Paying, FeesDescend;
    if txs == [] {
      NothingRanked(fee);
    } else {
      var init, last := txs[..|txs| - 1], txs[|txs| - 1];
      RankedIsStableSort(init, fee);
      PlaceSorted(Ranked(init), last);
      PlacePaying(Ranked(init), last, fee);
      assert txs == init + [last];
      PayingConcat(init, [last], fee);
    }
  }

  lemma NothingRanked(fee: int)
    ensures FeesDescend([]) && Paying([], fee) == []
  {}

  // ---- The mempool is an online top-k ----

  function Top(txs: seq<Transaction>, k: nat): seq<Transaction> {
    if |txs| <= k then txs else txs[..k]
  }

  // Placing into the first `k` and placing into all agree on the first `k`.
  lemma {:induction false} PlaceTop(txs: seq<Transaction>, tx: Transaction, k: nat)
    requires 1 <= k <= |txs| && FeesDescend(txs)
    ensures |Place(txs, tx)| == |txs| + 1
    ensures tx.fee > txs[k - 1].fee ==> Place(txs, tx)[..k] == Place(txs[..k - 1], tx)
    ensures tx.fee <= txs[k - 1].fee ==> Place(txs, tx)[..k] == txs[..k]
    decreases |txs|
  {
    PlaceSorted(txs, tx);
    if txs[0].fee < tx.fee {
      assert txs[0].fee >= txs[k - 1].fee;
      assert ([tx] + txs)[..k] == [tx] + txs[..k - 1];
    } else if k == 1 {
    } else {
      PlaceTop(txs[1..], tx, k - 1);
      var rest := Place(txs[1..], tx);
      assert ([txs[0]] + rest)[..k] == [txs[0]] + rest[..k - 1];
      assert txs[..k - 1][1..] == txs[1..][..k - 2] && txs[..k] == [txs[0]] + txs[1..][..k - 1];
    }
  }

  lemma {:induction false} RankedMembers(txs: seq<Transaction>)
    ensures forall t :: t in Ranked(txs) <==> t in txs
    decreases |txs|
  {
    if txs != [] {
      var init := txs[..|txs| - 1];
      RankedMembers(init);
      RankedIsStableSort(init, 0);
      PlaceSorted(Ranked(init), txs[|txs| - 1]);
      assert txs == init + [txs[|txs| - 1]];
    }
  }

  lemma {:induction false} ArrivalsMembers(c: Crypto, offers: seq<Transaction>)
    ensures forall t :: t in Arrivals(c, offers) ==> t in offers && HasValidSignature(c, t)
    decreases |offers|
  {
    hide TxHash, HasValidSignature;
    if offers != [] {
      ArrivalsMembers(c, offers[..|offers| - 1]);
      assert offers == offers[..|offers| - 1] + [offers[|offers| - 1]];
    }
  }

  /** After any run of offers the mempool holds, in order, the first `capacity` of all
      distinct validly signed transactions offered, ranked by fee and then by arrival,
      even when transactions that were dropped are offered again. */
  lemma {:induction false} MempoolIsTopK(c: Crypto, capacity: nat, offers: seq<Transaction>)
    requires capacity >= 1 && BodiesCollisionFree(c, offers)
    ensures OfferAll(c, capacity, [], offers) == Top(Ranked(Arrivals(c, offers)), capacity)
    decreases |offers|
  {
    if offers != [] {
      var init, tx := offers[..|offers| - 1], offers[|offers| - 1];
      assert offers == init + [tx];
      assert forall t :: t in init ==> t in offers;
      MempoolIsTopK(c, capacity, init);
      ArrivalsMembers(c, init);
      assert tx in offers;
      OneMoreOffer(c, capacity, Arrivals(c, init), tx);
    }
  }

  lemma PlaceIntoTop(all: seq<Transaction>, tx: Transaction, k: nat)
    requires k >= 1 && FeesDescend(all)
    ensures var kept := Top(all, k);
      Top(Place(all, tx), k)
      == if |kept| < k then Place(kept, tx)
         else if tx.fee > kept[k - 1].fee then Place(kept[..k - 1], tx)
         else kept
  {
    PlaceSorted(all, tx);
    if |all| >= k {
      PlaceTop(all, tx, k);
      assert Top(all, k) == all[..k];
      assert all[..k][..k - 1] == all[..k - 1];
    }
  }

  lemma OneMoreOffer(c: Crypto, capacity: nat, arrived: seq<Transaction>, tx: Transaction)
    requires capacity >= 1
    requires forall t :: t in arrived && TxHash(c, t) == TxHash(c, tx) ==> Body(t) == Body(tx)
    ensures Offer(c, capacity, Top(Ranked(arrived), capacity), tx)
            == Top(Ranked(if HasValidSignature(c, tx) && !Lists(c, arrived, TxHash(c, tx))
                          then arrived + [tx] else arrived), capacity)
  {
    hide TxHash, HasValidSignature, Place, Ranked, Lists, Body, FeesDescend;
    var h := TxHash(c, tx);
    RankedIsStableSort(arrived, 0);
    KeptHasArrived(c, capacity, arrived, h);
    if HasValidSignature(c, tx) && !Lists(c, arrived, h) {
      RankedSnoc(arrived, tx);
      PlaceIntoTop(Ranked(arrived), tx, capacity);
    } else if HasValidSignature(c, tx) && !Lists(c, Top(Ranked(arrived), capacity), h) {
      DroppedStaysOut(c, capacity, arrived, tx);
    }
  }

  lemma RankedSnoc(arrived: seq<Transaction>, tx: Transaction)
    ensures Ranked(arrived + [tx]) == Place(Ranked(arrived), tx)
  {
    assert (arrived + [tx])[..|arrived|] == arrived;
  }

  lemma KeptHasArrived(c: Crypto, capacity: nat, arrived: seq<Transaction>, h: Hash)
    ensures Lists(c, Top(Ranked(arrived), capacity), h) ==> Lists(c, arrived, h)
  {
    hide TxHash;
    RankedMembers(arrived);
    var kept := Top(Ranked(arrived), capacity);
    assert forall i :: 0 <= i < |kept| ==> kept[i] in Ranked(arrived) && kept[i] in arrived;
  }

  // A transaction that was dropped pays no more than any that is kept.
  lemma DroppedStaysOut(c: Crypto, capacity: nat, arrived: seq<Transaction>, tx: Transaction)
    requires capacity >= 1
    requires forall t :: t in arrived && TxHash(c, t) == TxHash(c, tx) ==> Body(t) == Body(tx)
    requires Lists(c, arrived, TxHash(c, tx)) && !Lists(c, Top(Ranked(arrived), capacity), TxHash(c, tx))
    ensures var kept := Top(Ranked(arrived), capacity);
      |kept| == capacity && tx.fee <= kept[capacity - 1].fee
  {
    hide TxHash;
    var all := Ranked(arrived);
    RankedIsStableSort(arrived, 0);
    RankedMembers(arrived);
    var i :| 0 <= i < |arrived| && TxHash(c, arrived[i]) == TxHash(c, tx);
    assert arrived[i] in arrived && arrived[i] in all;
    var j :| 0 <= j < |all| && all[j] == arrived[i];
    assert Body(arrived[i]).fee == Body(tx).fee;
    var kept := Top(all, capacity);
    assert forall m :: 0 <= m < |kept| ==> kept[m] == all[m];
    assert TxHash(c, all[j]) == TxHash(c, tx);
    assert j >= |kept|;
  }

  // ---- Offers one after the other ----

  lemma {:induction false} OfferAllConcat(c: Crypto, capacity: nat, txs: seq<Transaction>,
                                          s: seq<Transaction>, t: seq<Transaction>)
    ensures OfferAll(c, capacity, txs, s + t) == OfferAll(c, capacity, OfferAll(c, capacity, txs, s), t)
    decreases |t|
  {
    hide Offer;
    if t == [] {
      assert s + t == s;
    } else {
      assert (s + t)[..|s + t| - 1] == s + t[..|t| - 1];
      OfferAllConcat(c, capacity, txs, s, t[..|t| - 1]);
    }
  }

  lemma {:induction false} PlaceLast(txs: seq<Transaction>, tx: Transaction)
    requires forall i :: 0 <= i < |txs| ==> txs[i].fee >= tx.fee
    ensures Place(txs, tx) == txs + [tx]
  {
    if txs != [] {
      PlaceLast(txs[1..], tx);
      assert txs == [txs[0]] + txs[1..];
    }
  }

  lemma FrontOk(c: Crypto, capacity: nat, txs: seq<Transaction>)
    requires MempoolOk(c, capacity, txs) && txs != []
    ensures var init, last := txs[..|txs| - 1], txs[|txs| - 1];
      && MempoolOk(c, capacity, init) && |init| < capacity && txs == init + [last] && Place(init, last) == txs
      && HasValidSignature(c, last) && !Lists(c, init, TxHash(c, last))
  {
    hide TxHash, HasValidSignature;
    PlaceLast(txs[..|txs| - 1], txs[|txs| - 1]);
  }

  // A mempool is what its own transactions, offered in order to an empty one, give.
  lemma {:induction false} AsOffered(c: Crypto, capacity: nat, txs: seq<Transaction>)
    requires MempoolOk(c, capacity, txs)
    ensures OfferAll(c, capacity, [], txs) == txs && Arrivals(c, txs) == txs && Ranked(txs) == txs
    decreases |txs|
  {
    hide TxHash, HasValidSignature, MempoolOk, Place, Lists;
    if txs != [] {
      FrontOk(c, capacity, txs);
      AsOffered(c, capacity, txs[..|txs| - 1]);
    }
  }

  // Some offer with a valid signature has hash `h`.
  predicate Offered(c: Crypto, offers: seq<Transaction>, h: Hash) {
    exists i :: 0 <= i < |offers| && HasValidSignature(c, offers[i]) && TxHash(c, offers[i]) == h
  }

  lemma OfferedSnoc(c: Crypto, init: seq<Transaction>, tx: Transaction, h: Hash)
    ensures Offered(c, init + [tx], h) <==> Offered(c, init, h) || (HasValidSignature(c, tx) && TxHash(c, tx) == h)
    ensures Lists(c, init + [tx], h) <==> Lists(c, init, h) || TxHash(c, tx) == h
  {
    hide TxHash, HasValidSignature;
    var all := init + [tx];
    assert all[|init|] == tx && forall i :: 0 <= i < |init| ==> all[i] == init[i];
    if Offered(c, init, h) {
      var i :| 0 <= i < |init| && HasValidSignature(c, init[i]) && TxHash(c, init[i]) == h;
      assert all[i] == init[i];
    }
    if Lists(c, init, h) {
      var i :| 0 <= i < |init| && TxHash(c, init[i]) == h;
      assert all[i] == init[i];
    }
  }

  lemma {:induction false} ArrivalsList(c: Crypto, offers: seq<Transaction>, h: Hash)
    ensures Lists(c, Arrivals(c, offers), h) <==> Offered(c, offers, h)
    ensures |Arrivals(c, offers)| <= |offers|
    decreases |offers|
  {
    hide TxHash, HasValidSignature, Lists, Offered;
    if offers == [] {
      NothingListed(c, h);
    } else {
      var init, tx := offers[..|offers| - 1], offers[|offers| - 1];
      assert offers == init + [tx];
      ArrivalsList(c, init, h);
      ArrivalsList(c, init, TxHash(c, tx));
      OfferedSnoc(c, init, tx, h);
      OfferedSnoc(c, Arrivals(c, init), tx, h);
    }
  }

  lemma NothingListed(c: Crypto, h: Hash)
    ensures !Lists(c, [], h) && !Offered(c, [], h)
  {}

  lemma RankedLists(c: Crypto, txs: seq<Transaction>, h: Hash)
    ensures Lists(c, Ranked(txs), h) <==> Lists(c, txs, h)
  {
    hide TxHash;
    RankedMembers(txs);
    if Lists(c, txs, h) {
      var i :| 0 <= i < |txs| && TxHash(c, txs[i]) == h;
      assert txs[i] in Ranked(txs);
    }
    if Lists(c, Ranked(txs), h) {
      var i :| 0 <= i < |Ranked(txs)| && TxHash(c, Ranked(txs)[i]) == h;
      assert Ranked(txs)[i] in txs;
    }
  }

  /** With room for all, offers lose nothing: the mempool becomes the ranking of what was
      there and of every distinct validly signed offer, in order of arrival. */
  lemma {:induction false} RoomForAll(c: Crypto, capacity: nat, txs: seq<Transaction>, offers: seq<Transaction>)
    requires MempoolOk(c, capacity, txs) && |Arrivals(c, txs + offers)| <= capacity
    ensures OfferAll(c, capacity, txs, offers) == Ranked(Arrivals(c, txs + offers))
    decreases |offers|
  {
    hide TxHash, HasValidSignature, MempoolOk, Place, Ranked, Lists;
    if offers == [] {
      assert txs + offers == txs;
      AsOffered(c, capacity, txs);
    } else {
      var init, tx := offers[..|offers| - 1], offers[|offers| - 1];
      assert (txs + offers)[..|txs + offers| - 1] == txs + init;
      RoomForAll(c, capacity, txs, init);
      var arrived := Arrivals(c, txs + init);
      RankedLists(c, arrived, TxHash(c, tx));
      RankedSnoc(arrived, tx);
      RankedIsStableSort(arrived, 0);
    }
  }

  // A copy with another signature is no other transaction.
  lemma ResignedIsDuplicate(c: Crypto, capacity: nat, txs: seq<Transaction>, tx: Transaction, copy: Transaction)
    requires tx in txs && Body(copy) == Body(tx)
    ensures Offer(c, capacity, txs, copy) == txs
  {
    var i :| 0 <= i < |txs| && txs[i] == tx;
    assert TxHash(c, txs[i]) == TxHash(c, copy);
  }

  // ---- What an accepted block takes out ----

  // The transactions of `txs` whose hash is none of those of `mined`, in order.
  function Unmined(c: Crypto, txs: seq<Transaction>, mined: seq<Transaction>): seq<Transaction>
    decreases |txs|
  {
    if txs == [] then []
    else if Lists(c, mined, TxHash(c, txs[0])) then Unmined(c, txs[1..], mined)
    else [txs[0]] + Unmined(c, txs[1..], mined)
  }

  lemma ListsCons(c: Crypto, tx: Transaction, rest: seq<Transaction>, h: Hash)
    ensures Lists(c, [tx] + rest, h) <==> TxHash(c, tx) == h || Lists(c, rest, h)
  {
    hide TxHash;
    var all := [tx] + rest;
    assert all[0] == tx && forall i :: 1 <= i < |all| ==> all[i] == rest[i - 1];
    if Lists(c, rest, h) {
      var i :| 0 <= i < |rest| && TxHash(c, rest[i]) == h;
      assert all[i + 1] == rest[i];
    }
  }

  lemma {:induction false} UnminedLists(c: Crypto, txs: seq<Transaction>, mined: seq<Transaction>, h: Hash)
    ensures Lists(c, Unmined(c, txs, mined), h) <==> Lists(c, txs, h) && !Lists(c, mined, h)
    decreases |txs|
  {
    hide TxHash, Lists;
    if txs == [] {
      NothingListed(c, h);
    } else {
      assert txs == [txs[0]] + txs[1..];
      UnminedLists(c, txs[1..], mined, h);
      ListsCons(c, txs[0], txs[1..], h);
      ListsCons(c, txs[0], Unmined(c, txs[1..], mined), h);
    }
  }

  lemma {:induction false} UnminedNothing(c: Crypto, txs: seq<Transaction>, mined: seq<Transaction>)
    requires forall i :: 0 <= i < |txs| ==> !Lists(c, mined, TxHash(c, txs[i]))
    ensures Unmined(c, txs, mined) == txs
    decreases |txs|
  {
    hide TxHash, Lists;
    if txs != [] {
      UnminedNothing(c, txs[1..], mined);
      assert txs == [txs[0]] + txs[1..];
    }
  }

  // Removing one hash from a list without repeated hashes.
  lemma {:induction false} RemoveIs(c: Crypto, capacity: nat, txs: seq<Transaction>, tx: Transaction)
    requires MempoolOk(c, capacity, txs)
    ensures Remove(c, txs, TxHash(c, tx)) == Unmined(c, txs, [tx])
    decreases |txs|
  {
    hide TxHash, HasValidSignature;
    if txs != [] {
      RemoveIs(c, capacity, txs[1..], tx);
      if TxHash(c, txs[0]) == TxHash(c, tx) {
        assert [tx][0] == tx;
        UnminedNothing(c, txs[1..], [tx]);
      }
    }
  }

  lemma {:induction false} UnminedTwice(c: Crypto, txs: seq<Transaction>, tx: Transaction, mined: seq<Transaction>)
    ensures Unmined(c, Unmined(c, txs, [tx]), mined) == Unmined(c, txs, [tx] + mined)
    decreases |txs|
  {
    hide TxHash, Lists;
    if txs != [] {
      var h := TxHash(c, txs[0]);
      UnminedTwice(c, txs[1..], tx, mined);
      ListsCons(c, tx, mined, h);
      assert [tx] + [] == [tx];
      ListsCons(c, tx, [], h);
      NothingListed(c, h);
      assert ([txs[0]] + Unmined(c, txs[1..], [tx]))[1..] == Unmined(c, txs[1..], [tx]);
    }
  }

  /** Removing what was mined leaves exactly the transactions whose hash is not among those
      of the mined ones, in the order they had. */
  lemma {:induction false} RemoveAllIs(c: Crypto, capacity: nat, txs: seq<Transaction>, mined: seq<Transaction>)
    requires MempoolOk(c, capacity, txs)
    ensures RemoveAll(c, txs, mined) == Unmined(c, txs, mined)
    decreases |mined|
  {
    hide TxHash, Lists, MempoolOk, Remove;
    if mined == [] {
      forall i | 0 <= i < |txs| ensures !Lists(c, mined, TxHash(c, txs[i])) {
        NothingListed(c, TxHash(c, txs[i]));
      }
      UnminedNothing(c, txs, mined);
    } else {
      RemoveOk(c, capacity, txs, TxHash(c, mined[0]));
      RemoveIs(c, capacity, txs, mined[0]);
      RemoveAllIs(c, capacity, Remove(c, txs, TxHash(c, mined[0])), mined[1..]);
      UnminedTwice(c, txs, mined[0], mined[1..]);
      assert mined == [mined[0]] + mined[1..];
    }
  }

  lemma RemoveAt(c: Crypto, txs: seq<Transaction>, i: nat, h: Hash)
    requires i < |txs|
    ensures Remove(c, txs[i..], h)
            == if TxHash(c, txs[i]) == h then txs[i + 1..] else [txs[i]] + Remove(c, txs[i + 1..], h)
  {
    assert txs[i..][1..] == txs[i + 1..];
  }

  lemma RemoveEnds(c: Crypto, txs: seq<Transaction>, h: Hash)
    ensures txs[0..] == txs && txs[..|txs|] + Remove(c, txs[|txs|..], h) == txs
  {
    assert txs[|txs|..] == [];
  }

  class Mempool {
    var pending: seq<Transaction>
    const capacity: nat

    ghost predicate Valid(c: Crypto)
      reads this
    {
      1 <= capacity && MempoolOk(c, capacity, pending)
    }

    constructor (c: Crypto, capacity: nat)
      requires capacity >= 1
      ensures Valid(c) && pending == [] && this.capacity == capacity
    {
      this.capacity := capacity;
      pending := [];
    }

    method HasTransaction(c: Crypto, h: Hash) returns (r: bool)
      ensures r == Lists(c, pending, h)
    {
      for i := 0 to |pending|
        invariant forall j :: 0 <= j < i ==> TxHash(c, pending[j]) != h
      {
        if TxHash(c, pending[i]) == h {
          return true;
        }
      }
      return false;
    }

    method AddTransaction(c: Crypto, tx: Transaction) returns (added: bool)
      requires Valid(c)
      modifies this
      ensures Valid(c) && pending == Offer(c, capacity, old(pending), tx)
      ensures added <==> HasValidSignature(c, tx) && !Lists(c, old(pending), TxHash(c, tx))
                         && (|old(pending)| < capacity || tx.fee > old(pending)[|old(pending)| - 1].fee)
    {
      hide TxHash;
      OfferOk(c, capacity, pending, tx);
      if !HasValidSignature(c, tx) {
        return false;
      }
      var known := HasTransaction(c, TxHash(c, tx));
      if known {
        return false;
      }
      if |pending| >= capacity {
        var cheapest := pending[|pending| - 1];
        if tx.fee > cheapest.fee {
          pending := pending[..|pending| - 1];
        } else {
          return false;
        }
      }
      pending := Place(pending, tx);
      return true;
    }

    method RemoveTransaction(c: Crypto, tx: Transaction)
      requires Valid(c)
      modifies this
      ensures Valid(c) && pending == Remove(c, old(pending), TxHash(c, tx))
    {
      hide TxHash, MempoolOk, Remove;
      var h := TxHash(c, tx);
      RemoveOk(c, capacity, pending, h);
      RemoveEnds(c, pending, h);
      for i := 0 to |pending|
        invariant pending == old(pending)
        invariant Remove(c, pending, h) == pending[..i] + Remove(c, pending[i..], h)
      {
        RemoveAt(c, pending, i, h);
        if TxHash(c, pending[i]) == h {
          pending := pending[..i] + pending[i + 1..];
          return;
        }
        assert pending[..i] + ([pending[i]] + Remove(c, pending[i + 1..], h))
            == pending[..i + 1] + Remove(c, pending[i + 1..], h);
      }
    }

    method GetTransactionsForBlock(limit: nat) returns (r: seq<Transaction>)
      ensures r == Top(pending, limit)
    {
      var count := if limit < |pending| then limit else |pending|;
      r := pending[..count];
    }
  }
}
