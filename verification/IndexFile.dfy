/** What both index kinds have in common: consecutive chunk ranges, and the flat content behind them. */
module IndexFile {
  import opened Common

  datatype ChunkReadInfo = ChunkReadInfo(start: nat, end: nat, digest: Digest)

  type Infos = seq<ChunkReadInfo>

  /** What a successful read of a chunk returns. */
  type ChunkData = Digest -> Bytes

  /** The ranges are not empty and follow each other without a gap, from 0. */
  ghost predicate Tiles(infos: Infos) {
    forall i :: 0 <= i < |infos| ==> TileAt(infos, i)
  }

  ghost predicate TileAt(infos: Infos, i: nat)
    requires i < |infos|
  {
    infos[i].start == (if i == 0 then 0 else infos[i - 1].end) && infos[i].start < infos[i].end
  }

  lemma PrefixTiles(infos: Infos, n: nat)
    requires Tiles(infos) && n <= |infos|
    ensures Tiles(infos[..n])
  {
    var prefix := infos[..n];
    forall i | 0 <= i < n
      ensures TileAt(prefix, i)
    {
      assert TileAt(infos, i);
    }
  }

  function TotalSize(infos: Infos): nat {
    if infos == [] then 0 else infos[|infos| - 1].end
  }

  lemma {:induction false} TilesMonotone(infos: Infos, i: nat, j: nat)
    requires Tiles(infos) && i < j < |infos|
    ensures infos[i].end <= infos[j].start
    decreases j
  {
    assert TileAt(infos, j);
    if i + 1 < j {
      TilesMonotone(infos, i, j - 1);
      assert TileAt(infos, j - 1);
    }
  }

  lemma WithinTotal(infos: Infos, i: nat)
    requires Tiles(infos) && i < |infos|
    ensures infos[i].start < infos[i].end <= TotalSize(infos)
  {
    assert TileAt(infos, i) && TileAt(infos, |infos| - 1);
    if i < |infos| - 1 {
      TilesMonotone(infos, i, |infos| - 1);
    }
  }

  ghost predicate Holds(info: ChunkReadInfo, offset: nat) {
    info.start <= offset < info.end
  }

  /** Reference search: the only chunk that holds the offset, and the offset within it. */
  function Locate(infos: Infos, offset: nat): (r: Option<(nat, nat)>)
    requires Tiles(infos)
    ensures r.Some? <==> offset < TotalSize(infos)
    ensures r.Some? ==>
      r.value.0 < |infos| && Holds(infos[r.value.0], offset) && r.value.1 == offset - infos[r.value.0].start
    ensures forall i :: 0 <= i < |infos| && Holds(infos[i], offset) ==> r == Some((i, offset - infos[i].start))
  {
    if infos == [] || offset >= TotalSize(infos) then
      assert forall i :: 0 <= i < |infos| ==> infos[i].end <= TotalSize(infos) by {
        forall i | 0 <= i < |infos|
          ensures infos[i].end <= TotalSize(infos)
        {
          WithinTotal(infos, i);
        }
      }
      None
    else
      var last := |infos| - 1;
      assert TileAt(infos, last);
      assert forall i :: 0 <= i < last ==> infos[i].end <= infos[last].start by {
        forall i | 0 <= i < last
          ensures infos[i].end <= infos[last].start
        {
          TilesMonotone(infos, i, last);
        }
      }
      if offset >= infos[last].start then Some((last, offset - infos[last].start))
      else
        assert last > 0 && TotalSize(infos[..last]) == infos[last].start;
        PrefixTiles(infos, last);
        Locate(infos[..last], offset)
  }

  /** Every stored chunk is as long as its range. */
  ghost predicate Sized(infos: Infos, data: ChunkData) {
    forall i :: 0 <= i < |infos| ==> |data(infos[i].digest)| == infos[i].end - infos[i].start
  }

  /** The concatenated chunks. */
  ghost function Content(infos: Infos, data: ChunkData): Bytes {
    if infos == [] then [] else Content(infos[..|infos| - 1], data) + data(infos[|infos| - 1].digest)
  }

  lemma {:induction false} ContentLength(infos: Infos, data: ChunkData)
    requires Tiles(infos) && Sized(infos, data)
    ensures |Content(infos, data)| == TotalSize(infos)
  {
    if infos != [] {
      assert TileAt(infos, |infos| - 1);
      PrefixTiles(infos, |infos| - 1);
      ContentLength(infos[..|infos| - 1], data);
    }
  }

  /** A chunk is the part of the content its range says. */
  lemma {:induction false} ContentOfChunk(infos: Infos, data: ChunkData, i: nat)
    requires Tiles(infos) && Sized(infos, data) && i < |infos|
    ensures infos[i].end <= TotalSize(infos) == |Content(infos, data)|
    ensures Content(infos, data)[infos[i].start..infos[i].end] == data(infos[i].digest)
    decreases |infos|
  {
    ContentLength(infos, data);
    WithinTotal(infos, i);
    var last := |infos| - 1;
    assert TileAt(infos, last);
    PrefixTiles(infos, last);
    ContentLength(infos[..last], data);
    var front := Content(infos[..last], data);
    if i < last {
      TilesMonotone(infos, i, last);
      ContentOfChunk(infos[..last], data, i);
      assert Content(infos, data)[..|front|] == front;
    }
  }
}
