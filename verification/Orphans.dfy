/**
 The orphan pool: blocks that do not extend the tip, kept by hash and evicted
 oldest first (src/core/OrphanPool.cpp).
 */
module Orphans {
  import opened Types

  datatype Pool = Pool(order: seq<Hash>, entries: map<Hash, Block>)

  ghost predicate Distinct(order: seq<Hash>) {
    forall i, j :: 0 <= i < j < |order| ==> order[i] != order[j]
  }

  // The order lists every entry once, and entries are filed under their own hash.
  ghost predicate PoolOk(pool: Pool) {
    && Distinct(pool.order)
    && (forall h :: h in pool.order <==> h in pool.entries)
    && (forall h :: h in pool.entries ==> pool.entries[h].hash == h)
  }

  lemma DistinctTail(order: seq<Hash>)
    requires Distinct(order) && order != []
    ensures Distinct(order[1..]) && forall h :: h in order[1..] <==> h in order && h != order[0]
  {
    assert order == [order[0]] + order[1..];
    assert order[0] !in order[1..];
  }

  lemma DistinctCons(h: Hash, rest: seq<Hash>)
    requires Distinct(rest) && h !in rest
    ensures Distinct([h] + rest)
  {}

  lemma DistinctSnoc(order: seq<Hash>, h: Hash)
    requires Distinct(order) && h !in order
    ensures Distinct(order + [h]) && forall x :: x in order + [h] <==> x in order || x == h
  {}

  // Without its oldest entry.
  function Evict(pool: Pool): Pool
    requires pool.order != []
  {
    Pool(pool.order[1..], pool.entries - {pool.order[0]})
  }

  function Push(pool: Pool, b: Block): Pool {
    Pool(pool.order + [b.hash], pool.entries[b.hash := b])
  }

  function WithOrphan(pool: Pool, capacity: nat, b: Block): Pool {
    if b.hash in pool.entries then pool.(entries := pool.entries[b.hash := b])
    else if |pool.entries| >= capacity && pool.order != [] then Push(Evict(pool), b)
    else Push(pool, b)
  }

  function Erase(order: seq<Hash>, h: Hash): seq<Hash> {
    if order == [] then []
    else if order[0] == h then order[1..]
    else [order[0]] + Erase(order[1..], h)
  }

  function WithoutOrphan(pool: Pool, h: Hash): Pool {
    if h !in pool.entries then pool else Pool(Erase(pool.order, h), pool.entries - {h})
  }

  function WithoutOrphans(pool: Pool, hashes: seq<Hash>): Pool
    decreases |hashes|
  {
    if hashes == [] then pool else WithoutOrphans(WithoutOrphan(pool, hashes[0]), hashes[1..])
  }

  lemma {:induction false} EraseMembers(order: seq<Hash>, h: Hash)
    requires Distinct(order)
    ensures forall x :: x in Erase(order, h) <==> x in order && x != h
    ensures Distinct(Erase(order, h))
  {
    hide Distinct;
    if order != [] {
      assert order == [order[0]] + order[1..];
      DistinctTail(order);
      EraseMembers(order[1..], h);
      DistinctCons(order[0], Erase(order[1..], h));
    }
  }

  lemma {:induction false} ErasedAt(order: seq<Hash>, h: Hash) returns (i: nat)
    requires h in order
    ensures i < |order| && order[i] == h && Erase(order, h) == order[..i] + order[i + 1..]
  {
    if order[0] == h {
      i := 0;
    } else {
      i := ErasedAt(order[1..], h);
      i := i + 1;
    }
  }

  lemma EvictOk(pool: Pool)
    requires PoolOk(pool) && pool.order != []
    ensures PoolOk(Evict(pool)) && |Evict(pool).entries| == |pool.entries| - 1
  {
    hide Distinct;
    DistinctTail(pool.order);
    assert pool.order[0] in pool.order;
    assert Evict(pool).entries.Keys == pool.entries.Keys - {pool.order[0]};
  }

  lemma PushOk(pool: Pool, b: Block)
    requires PoolOk(pool) && b.hash !in pool.entries
    ensures PoolOk(Push(pool, b)) && |Push(pool, b).entries| == |pool.entries| + 1
  {
    hide Distinct;
    DistinctSnoc(pool.order, b.hash);
    assert Push(pool, b).entries.Keys == pool.entries.Keys + {b.hash};
  }

  // Adding keeps the pool consistent and within its capacity, and the new block is in it.
  lemma WithOrphanOk(pool: Pool, capacity: nat, b: Block)
    requires PoolOk(pool) && capacity >= 1 && |pool.entries| <= capacity
    ensures var r := WithOrphan(pool, capacity, b);
      && PoolOk(r) && |r.entries| <= capacity
      && b.hash in r.entries && r.entries[b.hash] == b
      && (forall h :: h in r.entries ==> h == b.hash || (h in pool.entries && r.entries[h] == pool.entries[h]))
      && r.order == if b.hash in pool.order then pool.order
                    else if |pool.entries| < capacity then pool.order + [b.hash]
                    else pool.order[1..] + [b.hash]
  {
    hide Distinct;
    var r := WithOrphan(pool, capacity, b);
    if b.hash in pool.entries {
      assert r.entries.Keys == pool.entries.Keys;
    } else if |pool.entries| >= capacity && pool.order != [] {
      EvictOk(pool);
      PushOk(Evict(pool), b);
    } else {
      if pool.order == [] {
        EmptyOrderEmptyPool(pool);
      }
      PushOk(pool, b);
    }
    hide PoolOk;
  }

  // The pool after adding the first `n` of `blocks` to an empty one.
  function AddFirst(capacity: nat, blocks: seq<Block>, n: nat): Pool
    requires n <= |blocks|
  {
    if n == 0 then Pool([], map[]) else WithOrphan(AddFirst(capacity, blocks, n - 1), capacity, blocks[n - 1])
  }

  // The pool holds exactly the blocks from `lo` to `hi`, in that order.
  ghost predicate HoldsRange(pool: Pool, blocks: seq<Block>, lo: nat, hi: nat) {
    && lo <= hi <= |blocks| && |pool.entries| == |pool.order| == hi - lo
    && forall i :: lo <= i < hi ==> pool.order[i - lo] == blocks[i].hash && Held(pool.entries, blocks[i])
  }

  ghost predicate AllDifferent(blocks: seq<Block>) {
    forall i, j :: 0 <= i < j < |blocks| ==> blocks[i].hash != blocks[j].hash
  }

  lemma NextIsNew(pool: Pool, blocks: seq<Block>, lo: nat, hi: nat)
    requires PoolOk(pool) && HoldsRange(pool, blocks, lo, hi) && hi < |blocks| && AllDifferent(blocks)
    ensures blocks[hi].hash !in pool.entries
  {
    forall h | h in pool.order ensures h != blocks[hi].hash {
      var k :| 0 <= k < |pool.order| && pool.order[k] == h;
      assert blocks[lo + k].hash == pool.order[lo + k - lo];
    }
  }

  lemma PushHolds(pool: Pool, blocks: seq<Block>, lo: nat, hi: nat)
    requires HoldsRange(pool, blocks, lo, hi) && hi < |blocks|
    requires blocks[hi].hash !in pool.entries && |Push(pool, blocks[hi]).entries| == |pool.entries| + 1
    ensures HoldsRange(Push(pool, blocks[hi]), blocks, lo, hi + 1)
  {}

  lemma EvictHolds(pool: Pool, blocks: seq<Block>, lo: nat, hi: nat)
    requires HoldsRange(pool, blocks, lo, hi) && lo < hi && AllDifferent(blocks)
    requires |Evict(pool).entries| == |pool.entries| - 1
    ensures HoldsRange(Evict(pool), blocks, lo + 1, hi)
  {
    var after := Evict(pool);
    assert blocks[lo].hash == pool.order[lo - lo];
    forall i | lo + 1 <= i < hi ensures after.order[i - (lo + 1)] == blocks[i].hash && Held(after.entries, blocks[i]) {
      assert pool.order[i - lo] == blocks[i].hash;
    }
  }

  // One more block, into a pool that has room for it or has to evict.
  lemma AddHolds(pool: Pool, capacity: nat, blocks: seq<Block>, lo: nat, hi: nat)
    requires PoolOk(pool) && HoldsRange(pool, blocks, lo, hi) && hi < |blocks| && AllDifferent(blocks)
    requires 1 <= capacity && hi - lo <= capacity
    ensures PoolOk(WithOrphan(pool, capacity, blocks[hi]))
    ensures HoldsRange(WithOrphan(pool, capacity, blocks[hi]), blocks,
                       if hi - lo == capacity then lo + 1 else lo, hi + 1)
  {
    hide PoolOk, AllDifferent, Evict, Push, HoldsRange;
    RangeSize(pool, blocks, lo, hi);
    NextIsNew(pool, blocks, lo, hi);
    if hi - lo == capacity {
      EvictOk(pool);
      EvictHolds(pool, blocks, lo, hi);
      NextIsNew(Evict(pool), blocks, lo + 1, hi);
      PushOk(Evict(pool), blocks[hi]);
      PushHolds(Evict(pool), blocks, lo + 1, hi);
    } else {
      PushOk(pool, blocks[hi]);
      PushHolds(pool, blocks, lo, hi);
    }
  }

  lemma EmptyHolds(blocks: seq<Block>)
    ensures PoolOk(Pool([], map[])) && HoldsRange(Pool([], map[]), blocks, 0, 0)
  {}

  lemma RangeSize(pool: Pool, blocks: seq<Block>, lo: nat, hi: nat)
    requires HoldsRange(pool, blocks, lo, hi)
    ensures |pool.entries| == |pool.order| == hi - lo
  {}

  /** First in, first out: after adding any different blocks, the pool holds exactly the
      last `capacity` of them, in order of arrival. */
  lemma {:induction false} PoolIsLastArrivals(capacity: nat, blocks: seq<Block>, n: nat)
    requires capacity >= 1 && AllDifferent(blocks) && n <= |blocks|
    ensures PoolOk(AddFirst(capacity, blocks, n))
    ensures HoldsRange(AddFirst(capacity, blocks, n), blocks, if n < capacity then 0 else n - capacity, n)
    decreases n
  {
    hide AllDifferent, WithOrphan, PoolOk, HoldsRange;
    if n == 0 {
      EmptyHolds(blocks);
    } else {
      PoolIsLastArrivals(capacity, blocks, n - 1);
      AddHolds(AddFirst(capacity, blocks, n - 1), capacity, blocks,
               if n - 1 < capacity then 0 else n - 1 - capacity, n - 1);
    }
  }

  lemma EmptyOrderEmptyPool(pool: Pool)
    requires PoolOk(pool) && pool.order == []
    ensures |pool.entries| == 0
  {
    assert pool.entries.Keys == {};
  }

  lemma WithoutOrphanOk(pool: Pool, h: Hash)
    requires PoolOk(pool)
    ensures PoolOk(WithoutOrphan(pool, h)) && |WithoutOrphan(pool, h).entries| <= |pool.entries|
    ensures forall x :: x in WithoutOrphan(pool, h).entries <==> x in pool.entries && x != h
    ensures forall x :: x in pool.entries && x != h ==> WithoutOrphan(pool, h).entries[x] == pool.entries[x]
    ensures h in pool.order ==>
              exists i :: 0 <= i < |pool.order| && pool.order[i] == h
                          && WithoutOrphan(pool, h).order == pool.order[..i] + pool.order[i + 1..]
  {
    EraseMembers(pool.order, h);
    if h in pool.order {
      var i := ErasedAt(pool.order, h);
    }
    assert (pool.entries - {h}).Keys == pool.entries.Keys - {h};
  }

  lemma {:induction false} WithoutOrphansOk(pool: Pool, hashes: seq<Hash>)
    requires PoolOk(pool)
    ensures var r := WithoutOrphans(pool, hashes);
      && PoolOk(r) && |r.entries| <= |pool.entries|
      && (forall h :: h in r.entries <==> h in pool.entries && h !in hashes)
      && (forall h :: h in r.entries ==> r.entries[h] == pool.entries[h])
    decreases |hashes|
  {
    hide PoolOk, WithoutOrphan;
    if hashes != [] {
      WithoutOrphanOk(pool, hashes[0]);
      WithoutOrphansOk(WithoutOrphan(pool, hashes[0]), hashes[1..]);
      assert hashes == [hashes[0]] + hashes[1..];
    }
  }

  // `b` is held in the pool under its own hash.
  predicate Held(entries: map<Hash, Block>, b: Block) {
    b.hash in entries && entries[b.hash] == b
  }

  predicate ChildOf(entries: map<Hash, Block>, b: Block, parent: Hash) {
    Held(entries, b) && b.wire.prevHash == parent
  }

  ghost predicate NoDuplicates(blocks: seq<Block>) {
    forall i, j :: 0 <= i < j < |blocks| ==> blocks[i] != blocks[j]
  }

  class OrphanPool {
    var order: seq<Hash>
    var entries: map<Hash, Block>
    const capacity: nat

    function View(): Pool
      reads this
    {
      Pool(order, entries)
    }

    ghost predicate Valid()
      reads this
    {
      PoolOk(View()) && 1 <= capacity && |entries| <= capacity
    }

    constructor (capacity: nat)
      requires capacity >= 1
      ensures Valid() && View() == Pool([], map[]) && this.capacity == capacity
    {
      this.capacity := capacity;
      order, entries := [], map[];
    }

    method AddOrphan(b: Block)
      requires Valid()
      modifies this
      ensures Valid() && View() == WithOrphan(old(View()), capacity, b)
    {
      WithOrphanOk(View(), capacity, b);
      if b.hash in entries {
        entries := entries[b.hash := b];
        return;
      }
      if |entries| >= capacity {
        if order == [] {
          EmptyOrderEmptyPool(View());
        }
        var oldest := order[0];
        if oldest in entries {
          entries := entries - {oldest};
        }
        order := order[1..];
      }
      order := order + [b.hash];
      entries := entries[b.hash := b];
    }

    method RemoveOrphan(h: Hash)
      requires Valid()
      modifies this
      ensures Valid() && View() == WithoutOrphan(old(View()), h)
    {
      WithoutOrphanOk(View(), h);
      if h !in entries {
        return;
      }
      order := Erase(order, h);
      entries := entries - {h};
    }

    // The children come in no particular order, as from an unordered map.
    method ChildrenOf(h: Hash) returns (children: seq<Block>)
      requires Valid()
      ensures NoDuplicates(children)
      ensures forall b :: b in children <==> ChildOf(entries, b, h)
    {
      children := [];
      var left := entries.Keys;
      while left != {}
        invariant left <= entries.Keys
        invariant NoDuplicates(children)
        invariant forall b :: b in children <==> ChildOf(entries, b, h) && b.hash !in left
      {
        var k :| k in left;
        left := left - {k};
        if entries[k].wire.prevHash == h {
          children := children + [entries[k]];
        }
      }
    }
  }
}
