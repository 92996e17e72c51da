/**
 The block table of the database (src/storage/Storage.cpp): one row per height,
 with a unique hash column, as a map from height to row. A row that would
 violate either key is replaced, as INSERT OR REPLACE does.
 */
module Disk {
  import opened Types
  import opened Chain
  import opened Codec

  datatype Row = Row(hash: Hash, bytes: Bytes)

  type Table = map<nat, Row>

  function RowOf(b: Block): Row {
    Row(b.hash, EncodeWire(b.wire))
  }

  function Save(table: Table, b: Block, height: nat): Table {
    (map h | h in table && table[h].hash != b.hash :: table[h])[height := RowOf(b)]
  }

  function DeleteFrom(table: Table, height: nat): Table {
    map h | h in table && h < height :: table[h]
  }

  function SaveAll(table: Table, blocks: seq<Block>, height: nat): Table
    decreases |blocks|
  {
    if blocks == [] then table else SaveAll(Save(table, blocks[0], height), blocks[1..], height + 1)
  }

  function ReplaceFrom(table: Table, height: nat, blocks: seq<Block>): Table {
    SaveAll(DeleteFrom(table, height), blocks, height)
  }

  // The table that holds exactly `blocks`, at heights 0 to |blocks| - 1.
  function MirrorOf(blocks: seq<Block>): Table {
    map h: nat | h < |blocks| :: RowOf(blocks[h])
  }

  lemma SaveMirrors(blocks: seq<Block>, b: Block)
    requires DistinctHashes(blocks + [b])
    ensures Save(MirrorOf(blocks), b, |blocks|) == MirrorOf(blocks + [b])
  {
    hide RowOf;
    var longer := blocks + [b];
    assert longer[|blocks|] == b;
    forall h: nat | h < |blocks| ensures longer[h] == blocks[h] && blocks[h].hash != b.hash {
      assert longer[h] == blocks[h];
    }
    forall h: nat | h < |blocks| ensures RowOf(blocks[h]).hash == blocks[h].hash {
      RowHash(blocks[h]);
    }
  }

  lemma RowHash(b: Block)
    ensures RowOf(b).hash == b.hash
  {}

  // No two rows carry the same hash.
  ghost predicate UniqueHashes(table: Table) {
    forall g, h :: g in table && h in table && table[g].hash == table[h].hash ==> g == h
  }

  /** Saving keeps the hash column unique, whatever was there: the block is in the table once,
      at its height, and only rows at that height or with its hash have gone. */
  lemma SaveKeepsUnique(table: Table, b: Block, height: nat)
    requires UniqueHashes(table)
    ensures var r := Save(table, b, height);
      && UniqueHashes(r) && height in r && r[height] == Row(b.hash, EncodeWire(b.wire))
      && (forall h :: h in r && h != height ==> h in table && r[h] == table[h])
      && (forall h :: h in table && h != height && table[h].hash != b.hash ==> h in r)
  {
    hide EncodeWire;
  }

  lemma {:induction false} SaveAllMirrors(blocks: seq<Block>, more: seq<Block>)
    requires DistinctHashes(blocks + more)
    ensures SaveAll(MirrorOf(blocks), more, |blocks|) == MirrorOf(blocks + more)
    decreases |more|
  {
    hide Save, MirrorOf;
    if more == [] {
      assert blocks + more == blocks;
    } else {
      assert blocks + more == (blocks + [more[0]]) + more[1..];
      DistinctPrefix(blocks + [more[0]], more[1..]);
      SaveMirrors(blocks, more[0]);
      SaveAllMirrors(blocks + [more[0]], more[1..]);
    }
  }

  lemma DistinctPrefix(s: seq<Block>, t: seq<Block>)
    requires DistinctHashes(s + t)
    ensures DistinctHashes(s)
  {
    assert forall i :: 0 <= i < |s| ==> (s + t)[i] == s[i];
  }

  // Rewriting the tail of a mirror gives the mirror of the rewritten list.
  lemma ReplaceMirrors(blocks: seq<Block>, keep: nat, more: seq<Block>)
    requires keep <= |blocks| && DistinctHashes(blocks[..keep] + more)
    ensures ReplaceFrom(MirrorOf(blocks), keep, more) == MirrorOf(blocks[..keep] + more)
  {
    assert DeleteFrom(MirrorOf(blocks), keep) == MirrorOf(blocks[..keep]);
    SaveAllMirrors(blocks[..keep], more);
  }

  lemma FirstRow(b: Block)
    ensures Save(map[], b, 0) == MirrorOf([b])
  {}

  class Storage {
    var rows: Table

    constructor ()
      ensures rows == map[]
    {
      rows := map[];
    }

    method SaveBlock(b: Block, height: nat)
      modifies this
      ensures rows == Save(old(rows), b, height)
    {
      var bytes := SerializeBlock(b.wire);
      rows := (map h | h in rows && rows[h].hash != b.hash :: rows[h]);
      rows := rows[height := Row(b.hash, bytes)];
    }

    // Writes `b` at height 0 if the table is empty.
    method SaveFirst(b: Block)
      modifies this
      ensures rows == if old(rows) == map[] then MirrorOf([b]) else old(rows)
    {
      hide RowOf;
      var count := BlockCount();
      if count == 0 {
        FirstRow(b);
        SaveBlock(b, 0);
      }
    }

    method LoadBlock(c: Crypto, height: nat) returns (r: Option<Block>)
      ensures r == if height in rows then DecodeBlock(c, rows[height].bytes) else None
    {
      if height !in rows {
        return None;
      }
      r := DeserializeBlock(c, rows[height].bytes);
    }

    method BlockCount() returns (n: nat)
      ensures n == |rows|
    {
      n := |rows|;
    }

    method ReplaceBlocksFrom(height: nat, blocks: seq<Block>)
      modifies this
      ensures rows == ReplaceFrom(old(rows), height, blocks)
    {
      hide Save;
      rows := DeleteFrom(rows, height);
      ghost var start := rows;
      for i := 0 to |blocks|
        invariant SaveAll(rows, blocks[i..], height + i) == SaveAll(start, blocks, height)
      {
        assert blocks[i..][1..] == blocks[i + 1..];
        SaveBlock(blocks[i], height + i);
      }
      assert blocks[|blocks|..] == [];
    }
  }

  lemma {:induction false} MirrorSize(blocks: seq<Block>)
    ensures |MirrorOf(blocks)| == |blocks|
    decreases |blocks|
  {
    hide RowOf;
    if blocks != [] {
      var init := blocks[..|blocks| - 1];
      MirrorSize(init);
      assert MirrorOf(blocks).Keys == MirrorOf(init).Keys + {|init|};
    } else {
      assert MirrorOf(blocks).Keys == {};
    }
  }
}
