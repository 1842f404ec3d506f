/** Dynamic index files: chunk ends with digests, binary search, and the buffered reader with its cache. */
module DynamicIndex {
  import opened Common
  import opened IndexFile

  datatype Entry = Entry(end: nat, digest: Digest)

  // ---- Index lookups ----

  function ChunkStart(index: seq<Entry>, pos: nat): nat
    requires pos <= |index|
  {
    if pos == 0 then 0 else index[pos - 1].end
  }

  function ChunkInfo(index: seq<Entry>, pos: nat): Option<ChunkReadInfo> {
    if pos >= |index| then None
    else Some(ChunkReadInfo(ChunkStart(index, pos), index[pos].end, index[pos].digest))
  }

  function IndexBytes(index: seq<Entry>): nat {
    if index == [] then 0 else index[|index| - 1].end
  }

  function AllInfos(index: seq<Entry>): (r: Infos)
    ensures |r| == |index| && forall i :: 0 <= i < |index| ==> Some(r[i]) == ChunkInfo(index, i)
  {
    seq(|index|, i requires 0 <= i < |index| => ChunkInfo(index, i).value)
  }

  /** What every writer produces: each chunk ends behind the previous one. */
  ghost predicate Increasing(index: seq<Entry>) {
    forall i :: 0 <= i < |index| ==> ChunkStart(index, i) < index[i].end
  }

  lemma IncreasingTiles(index: seq<Entry>)
    requires Increasing(index)
    ensures Tiles(AllInfos(index)) && TotalSize(AllInfos(index)) == IndexBytes(index)
  {
    hide AllInfos;
    var infos := AllInfos(index);
    forall i | 0 <= i < |infos|
      ensures TileAt(infos, i)
    {
      assert ChunkStart(index, i) < index[i].end;
    }
  }

  function BinarySearch(index: seq<Entry>, startIdx: nat, start: nat, endIdx: nat, end: nat, offset: nat): Result<nat>
    requires startIdx <= endIdx < |index|
    decreases endIdx - startIdx
  {
    if offset >= end || offset < start then Err
    else if endIdx == startIdx then Ok(startIdx)
    else
      var middleIdx := (startIdx + endIdx) / 2;
      var middleEnd := index[middleIdx].end;
      if offset < middleEnd then BinarySearch(index, startIdx, start, middleIdx, middleEnd, offset)
      else BinarySearch(index, middleIdx + 1, middleEnd, endIdx, end, offset)
  }

  /** The search finds the chunk that holds the offset whenever the bounds are the range's own;
      it needs no order between the entries, only the bracket at both ends. */
  lemma {:induction false} BinarySearchFinds(
    index: seq<Entry>, startIdx: nat, endIdx: nat, offset: nat)
    requires startIdx <= endIdx < |index|
    ensures var start, end := ChunkStart(index, startIdx), index[endIdx].end;
            var r := BinarySearch(index, startIdx, start, endIdx, end, offset);
            && (r.Ok? <==> start <= offset < end)
            && (r.Ok? ==> startIdx <= r.value <= endIdx && ChunkStart(index, r.value) <= offset < index[r.value].end)
    decreases endIdx - startIdx
  {
    if startIdx < endIdx {
      var middleIdx := (startIdx + endIdx) / 2;
      BinarySearchFinds(index, startIdx, middleIdx, offset);
      BinarySearchFinds(index, middleIdx + 1, endIdx, offset);
    }
  }

  /** The source panics on an empty index. */
  function ChunkFromOffset(index: seq<Entry>, offset: nat): Option<(nat, nat)>
    requires index != []
  {
    var endIdx := |index| - 1;
    BinarySearchFinds(index, 0, endIdx, offset);
    var found := BinarySearch(index, 0, 0, endIdx, index[endIdx].end, offset);
    if found.Err? then None else Some((found.value, offset - ChunkStart(index, found.value)))
  }

  /** Binary search agrees with the reference search. */
  lemma ChunkFromOffsetLocates(index: seq<Entry>, offset: nat)
    requires index != [] && Increasing(index)
    ensures Tiles(AllInfos(index)) && ChunkFromOffset(index, offset) == Locate(AllInfos(index), offset)
  {
    hide BinarySearch, Locate, AllInfos, Tiles, Increasing;
    IncreasingTiles(index);
    BinarySearchFinds(index, 0, |index| - 1, offset);
    var r := BinarySearch(index, 0, 0, |index| - 1, index[|index| - 1].end, offset);
    if r.Ok? {
      assert Holds(AllInfos(index)[r.value], offset);
    }
  }

  // ---- The LRU cache ----

  /** Cached entries, most recently used first. */
  type Cache<V> = seq<(nat, V)>

  const CACHE_CAPACITY: nat := 32

  function CacheFind<V>(cache: Cache<V>, key: nat): (r: Option<nat>)
    ensures r.Some? ==> r.value < |cache| && cache[r.value].0 == key
    ensures r.None? ==> forall i :: 0 <= i < |cache| ==> cache[i].0 != key
  {
    if cache == [] then None
    else if cache[0].0 == key then Some(0)
    else
      var rest := CacheFind(cache[1..], key);
      if rest.None? then None else Some(rest.value + 1)
  }

  ghost predicate CacheValid<V(!new)>(cache: Cache<V>, fetched: (nat, V) -> bool) {
    && |cache| <= CACHE_CAPACITY
    && (forall i :: 0 <= i < |cache| ==> fetched(cache[i].0, cache[i].1))
    && (forall i, j :: 0 <= i < j < |cache| ==> cache[i].0 != cache[j].0)
  }

  /** The cache after an access that gave v: the key in front, the others in their order, at most 32 in all. */
  function Accessed<V>(cache: Cache<V>, key: nat, v: V): Cache<V> {
    var hit := CacheFind(cache, key);
    if hit.Some? then [(key, v)] + (cache[..hit.value] + cache[hit.value + 1..])
    else [(key, v)] + cache[..Min(|cache|, CACHE_CAPACITY - 1)]
  }

  /** A hit moves the entry to the front; a miss inserts what fetch returned and drops the oldest. */
  method CacheAccess<V(!new)>(cache: Cache<V>, key: nat, fetch: Result<V>, ghost fetched: (nat, V) -> bool)
    returns (r: Result<V>, cache': Cache<V>)
    requires CacheValid(cache, fetched)
    requires fetch.Ok? ==> fetched(key, fetch.value)
    ensures CacheValid(cache', fetched)
    ensures r.Ok? ==> fetched(key, r.value) && cache' == Accessed(cache, key, r.value)
    ensures r.Err? ==> fetch.Err? && cache' == cache
    ensures forall i :: 0 <= i < |cache| && cache[i].0 == key ==> r == Ok(cache[i].1)
  {
    var hit := CacheFind(cache, key);
    if hit.Some? {
      var k := hit.value;
      cache' := [cache[k]] + (cache[..k] + cache[k + 1..]);
      return Ok(cache[k].1), cache';
    }
    if fetch.Err? {
      return Err, cache;
    }
    cache' := [(key, fetch.value)] + cache;
    if |cache'| > CACHE_CAPACITY {
      cache' := cache'[..|cache'| - 1];
    }
    return fetch, cache';
  }

  // ---- The cache holds what was used last ----

  function Without(keys: seq<nat>, k: nat): seq<nat> {
    if keys == [] then [] else (if keys[0] == k then [] else [keys[0]]) + Without(keys[1..], k)
  }

  /** The keys of a history of accesses, each once, the last accessed first. */
  function Recency(history: seq<nat>): seq<nat> {
    if history == [] then []
    else
      var n := |history| - 1;
      [history[n]] + Without(Recency(history[..n]), history[n])
  }

  function FirstOf(keys: seq<nat>, n: nat): seq<nat> {
    keys[..Min(n, |keys|)]
  }

  function CachedKeys<V>(cache: Cache<V>): seq<nat> {
    seq(|cache|, i requires 0 <= i < |cache| => cache[i].0)
  }

  ghost predicate AllDistinct(keys: seq<nat>) {
    forall i, j :: 0 <= i < j < |keys| ==> keys[i] != keys[j]
  }

  lemma {:induction false} WithoutDistinct(keys: seq<nat>, k: nat)
    requires AllDistinct(keys)
    ensures AllDistinct(Without(keys, k)) && k !in Without(keys, k)
    ensures forall x :: x in Without(keys, k) ==> x in keys
    ensures k !in keys ==> Without(keys, k) == keys
  {
    if keys != [] {
      WithoutDistinct(keys[1..], k);
      assert keys == [keys[0]] + keys[1..];
      assert keys[0] !in keys[1..];
    }
  }

  lemma {:induction false} RecencyDistinct(history: seq<nat>)
    ensures AllDistinct(Recency(history))
  {
    if history != [] {
      var n := |history| - 1;
      RecencyDistinct(history[..n]);
      WithoutDistinct(Recency(history[..n]), history[n]);
    }
  }

  /** Dropping the tail before or after the key makes no difference to what is left in front. */
  lemma {:induction false} WithoutFirst(keys: seq<nat>, k: nat, n: nat)
    requires AllDistinct(keys) && n >= 1
    ensures FirstOf(Without(FirstOf(keys, n), k), n - 1) == FirstOf(Without(keys, k), n - 1)
    decreases |keys|
  {
    if keys != [] && n > 1 {
      var rest, first := keys[1..], FirstOf(keys, n);
      assert first[0] == keys[0] && first[1..] == FirstOf(rest, n - 1);
      if keys[0] == k {
        assert k !in rest;
        WithoutDistinct(rest, k);
        WithoutDistinct(FirstOf(rest, n - 1), k);
      } else {
        WithoutFirst(rest, k, n - 1);
        FirstOfCons(keys[0], Without(FirstOf(rest, n - 1), k), n - 1);
        FirstOfCons(keys[0], Without(rest, k), n - 1);
      }
    }
  }

  lemma FirstOfCons(x: nat, keys: seq<nat>, n: nat)
    requires n >= 1
    ensures FirstOf([x] + keys, n) == [x] + FirstOf(keys, n - 1)
  {
  }

  lemma {:induction false} WithoutAt(keys: seq<nat>, i: nat)
    requires AllDistinct(keys) && i < |keys|
    ensures Without(keys, keys[i]) == keys[..i] + keys[i + 1..]
  {
    var rest := keys[1..];
    if i == 0 {
      WithoutDistinct(rest, keys[0]);
      assert keys[0] !in rest;
    } else {
      WithoutAt(rest, i - 1);
      assert keys[..i] == [keys[0]] + rest[..i - 1] && keys[i + 1..] == rest[i..];
    }
  }

  /** The cache always holds the 32 keys that were used last: that holds of the empty cache, and every access that
      gives a value keeps it. */
  lemma MostRecentStay<V>(cache: Cache<V>, history: seq<nat>, key: nat, v: V)
    requires CachedKeys(cache) == FirstOf(Recency(history), 32)
    ensures CachedKeys(Accessed(cache, key, v)) == FirstOf(Recency(history + [key]), 32)
  {
    hide Without, FirstOf, CachedKeys, Accessed, AllDistinct;
    var all := Recency(history);
    RecencyDistinct(history);
    assert (history + [key])[..|history|] == history;
    FirstDistinct(all, CACHE_CAPACITY);
    WithoutFirst(all, key, CACHE_CAPACITY);
    FirstOfCons(key, Without(all, key), CACHE_CAPACITY);
    AccessedKeys(cache, key, v);
  }

  lemma FirstDistinct(keys: seq<nat>, n: nat)
    requires AllDistinct(keys)
    ensures AllDistinct(FirstOf(keys, n)) && |FirstOf(keys, n)| <= n
  {
  }

  lemma AccessedKeys<V>(cache: Cache<V>, key: nat, v: V)
    requires AllDistinct(CachedKeys(cache)) && |CachedKeys(cache)| <= CACHE_CAPACITY
    ensures CachedKeys(Accessed(cache, key, v)) ==
      [key] + FirstOf(Without(CachedKeys(cache), key), CACHE_CAPACITY - 1)
  {
    hide Without, AllDistinct;
    var keys, hit := CachedKeys(cache), CacheFind(cache, key);
    if hit.Some? {
      WithoutAt(keys, hit.value);
      var others := cache[..hit.value] + cache[hit.value + 1..];
      assert CachedKeys(others) == keys[..hit.value] + keys[hit.value + 1..];
      assert CachedKeys([(key, v)] + others) == [key] + CachedKeys(others);
    } else {
      WithoutDistinct(keys, key);
      var others := cache[..Min(|cache|, CACHE_CAPACITY - 1)];
      assert CachedKeys(others) == FirstOf(keys, CACHE_CAPACITY - 1);
      assert CachedKeys([(key, v)] + others) == [key] + CachedKeys(others);
    }
  }

  // ---- The buffered reader ----

  datatype CachedChunk = CachedChunk(start: nat, end: nat, data: Bytes)

  class BufferedDynamicReader {
    const index: seq<Entry>
    const archiveSize: nat
    ghost const data: ChunkData
    var readBuffer: Bytes
    var bufferedChunkIdx: nat
    var bufferedChunkStart: nat
    var readOffset: nat
    var cache: Cache<CachedChunk>

    ghost predicate Valid()
      reads this
    {
      && Increasing(index)
      && archiveSize == IndexBytes(index)
      && readOffset <= archiveSize
      && CacheValid(cache, FetchedFrom(index, data))
      && (readBuffer != [] ==> IsChunk(index, data, bufferedChunkIdx, bufferedChunkStart, readBuffer))
    }

    constructor (index: seq<Entry>, ghost data: ChunkData)
      requires Increasing(index)
      ensures Valid() && this.index == index && this.data == data && readOffset == 0
    {
      this.index := index;
      this.data := data;
      archiveSize := IndexBytes(index);
      readBuffer, bufferedChunkIdx, bufferedChunkStart, readOffset := [], 0, 0, 0;
      cache := [];
    }

    /** Load chunk idx into the buffer; `store` is what reading the chunk from the store would give now. */
    method BufferChunk(idx: nat, store: Result<Bytes>) returns (ok: bool)
      requires Valid() && idx < |index|
      requires store.Ok? ==> store.value == data(index[idx].digest)
      modifies this`readBuffer, this`bufferedChunkIdx, this`bufferedChunkStart, this`cache
      ensures Valid()
      ensures ok ==> bufferedChunkIdx == idx && IsChunk(index, data, idx, bufferedChunkStart, readBuffer)
      ensures !ok ==> store.Err? || |store.value| != index[idx].end - ChunkStart(index, idx)
    {
      var info := ChunkInfo(index, idx).value;
      // CachedChunk::new refuses data of the wrong size
      var fetch: Result<CachedChunk> :=
        if store.Err? || |store.value| != info.end - info.start then Err
        else Ok(CachedChunk(info.start, info.end, store.value));
      var chunk;
      chunk, cache := CacheAccess(cache, idx, fetch, FetchedFrom(index, data));
      if chunk.Err? {
        return false;
      }
      readBuffer := chunk.value.data;
      bufferedChunkIdx := idx;
      bufferedChunkStart := chunk.value.start;
      return true;
    }

    /** Make sure the buffer holds the chunk with the offset, by way of the sequential shortcut, the chunk
        already buffered, or the binary search. */
    method EnsureBuffered(offset: nat, store: nat -> Result<Bytes>) returns (ok: bool)
      requires Valid() && offset != archiveSize && index != []
      requires forall i :: 0 <= i < |index| && store(i).Ok? ==> store(i).value == data(index[i].digest)
      modifies this`readBuffer, this`bufferedChunkIdx, this`bufferedChunkStart, this`cache
      ensures Valid()
      ensures ok ==>
        && IsChunk(index, data, bufferedChunkIdx, bufferedChunkStart, readBuffer)
        && bufferedChunkStart <= offset < bufferedChunkStart + |readBuffer|
      ensures !ok ==> offset > archiveSize || exists i :: Unreadable(index, store, offset, i)
    {
      hide BinarySearch, Increasing, CacheValid, FetchedFrom;
      // optimization for sequential read
      if |readBuffer| > 0 && bufferedChunkIdx + 1 < |index| && offset >= bufferedChunkStart + |readBuffer| {
        var nextIdx := bufferedChunkIdx + 1;
        var nextEnd := index[nextIdx].end;
        if offset < nextEnd {
          ok := BufferChunk(nextIdx, store(nextIdx));
          assert !ok ==> Unreadable(index, store, offset, nextIdx);
          return;
        }
      }
      if |readBuffer| == 0 || offset < bufferedChunkStart || offset >= bufferedChunkStart + |readBuffer| {
        var endIdx := |index| - 1;
        BinarySearchFinds(index, 0, endIdx, offset);
        var idx := BinarySearch(index, 0, 0, endIdx, index[endIdx].end, offset);
        if idx.Err? {
          return false;
        }
        ok := BufferChunk(idx.value, store(idx.value));
        assert !ok ==> Unreadable(index, store, offset, idx.value);
        return;
      }
      return true;
    }

    /** The rest of the chunk that holds the offset; nothing at the end of the archive. */
    method BufferedRead(offset: nat, store: nat -> Result<Bytes>) returns (r: Result<Bytes>)
      requires Valid() && (index == [] ==> offset == 0)
      requires forall i :: 0 <= i < |index| && store(i).Ok? ==> store(i).value == data(index[i].digest)
      modifies this`readBuffer, this`bufferedChunkIdx, this`bufferedChunkStart, this`cache
      ensures Valid()
      ensures offset == archiveSize ==> r == Ok([])
      ensures offset > archiveSize ==> r.Err?
      ensures offset < archiveSize && r.Ok? ==> exists i :: ServedBy(index, data, offset, i, r.value)
      ensures offset < archiveSize && r.Err? ==> exists i :: Unreadable(index, store, offset, i)
    {
      if offset == archiveSize {
        return Ok([]);
      }
      var ok := EnsureBuffered(offset, store);
      if !ok {
        return Err;
      }
      IncreasingTiles(index);
      WithinTotal(AllInfos(index), bufferedChunkIdx);
      r := Ok(readBuffer[offset - bufferedChunkStart..]);
      assert ServedBy(index, data, offset, bufferedChunkIdx, r.value);
    }

    /** Read at most bufLen bytes at the current offset. */
    method Read(bufLen: nat, store: nat -> Result<Bytes>) returns (r: Result<Bytes>)
      requires Valid()
      requires forall i :: 0 <= i < |index| && store(i).Ok? ==> store(i).value == data(index[i].digest)
      modifies this
      ensures Valid()
      ensures r.Err? ==> readOffset == old(readOffset) && exists i :: Unreadable(index, store, readOffset, i)
      ensures r.Ok? ==> readOffset == old(readOffset) + |r.value| && |r.value| <= bufLen
      ensures r.Ok? && bufLen > 0 && old(readOffset) < archiveSize ==> |r.value| > 0
      ensures r.Ok? && Sized(AllInfos(index), data) ==>
        readOffset <= |Content(AllInfos(index), data)| == archiveSize
        && r.value == Content(AllInfos(index), data)[old(readOffset)..readOffset]
    {
      hide Increasing, CacheValid, IsChunk, Sized, AllInfos, Content;
      IncreasingTiles(index);
      var bytes := BufferedRead(readOffset, store);
      if bytes.Err? {
        return Err;
      }
      var n := if |bytes.value| > bufLen then bufLen else |bytes.value|;
      if Sized(AllInfos(index), data) {
        ContentLength(AllInfos(index), data);
      }
      if readOffset < archiveSize {
        ghost var i :| ServedBy(index, data, readOffset, i, bytes.value);
        ServedIsContent(index, data, readOffset, i, bytes.value, n);
      }
      readOffset := readOffset + n;
      return Ok(bytes.value[..n]);
    }

    /** Positions beyond the archive are refused and leave the offset alone. */
    method Seek(pos: SeekFrom) returns (r: Result<nat>)
      requires Valid()
      modifies this`readOffset
      ensures Valid()
      ensures var target := Target(pos, old(readOffset), archiveSize);
              && readOffset == (if 0 <= target <= archiveSize then target else old(readOffset))
              && r == if 0 <= target <= archiveSize then Ok(target) else Err
    {
      var newOffset: int := match pos
        case FromStart(offset) => offset
        case FromEnd(delta) => archiveSize + delta
        case FromCurrent(delta) => readOffset + delta;
      if newOffset < 0 || newOffset > archiveSize {
        return Err;
      }
      readOffset := newOffset;
      return Ok(readOffset);
    }
  }

  /** What the buffer serves is the flat content at that offset. */
  lemma ServedIsContent(index: seq<Entry>, data: ChunkData, offset: nat, i: nat, bytes: Bytes, n: nat)
    requires Increasing(index) && ServedBy(index, data, offset, i, bytes) && n <= |bytes|
    ensures |bytes| > 0 && offset + |bytes| <= IndexBytes(index)
    ensures Sized(AllInfos(index), data) ==>
      offset + n <= |Content(AllInfos(index), data)| && bytes[..n] == Content(AllInfos(index), data)[offset..offset + n]
  {
    hide Content, AllInfos, Tiles, Sized, Increasing, TotalSize;
    IncreasingTiles(index);
    var infos := AllInfos(index);
    WithinTotal(infos, i);
    assert infos[i].start == ChunkStart(index, i) && infos[i].end == index[i].end && infos[i].digest == index[i].digest;
    if Sized(infos, data) {
      ContentOfChunk(infos, data, i);
      var at, chunk := offset - infos[i].start, data(infos[i].digest);
      SliceOfSlice(Content(infos, data), infos[i].start, infos[i].end, at, at + n);
      SliceOfSlice(chunk, at, |chunk|, 0, n);
    }
  }

  /** Reading on with any buffer size returns the rest of the content. */
  method ReadToEnd(reader: BufferedDynamicReader, bufLen: nat, store: nat -> Result<Bytes>) returns (out: Bytes)
    requires reader.Valid() && bufLen > 0 && Sized(AllInfos(reader.index), reader.data)
    requires forall i :: 0 <= i < |reader.index| ==> store(i) == Ok(reader.data(reader.index[i].digest))
    modifies reader
    ensures old(reader.readOffset) <= |Content(AllInfos(reader.index), reader.data)|
    ensures out == Content(AllInfos(reader.index), reader.data)[old(reader.readOffset)..]
  {
    hide Content, AllInfos, Sized, Increasing, CacheValid, IsChunk, Unreadable;
    ghost var content := Content(AllInfos(reader.index), reader.data);
    IncreasingTiles(reader.index);
    ContentLength(AllInfos(reader.index), reader.data);
    out := [];
    ghost var from := reader.readOffset;
    while true
      invariant reader.Valid() && from <= reader.readOffset
      invariant out == content[from..reader.readOffset]
      decreases reader.archiveSize - reader.readOffset
    {
      ghost var at := reader.readOffset;
      var r := reader.Read(bufLen, store);
      if r.Err? {
        AllReadable(reader.index, reader.data, store, at);
        assert false;
      }
      if r.value == [] {
        break;
      }
      SliceExtend(content, from, at, reader.readOffset);
      out := out + r.value;
    }
  }

  /** Seeking to n bytes before the end and reading on returns the last n bytes. */
  method ReadLast(reader: BufferedDynamicReader, n: nat, bufLen: nat, store: nat -> Result<Bytes>)
    returns (out: Bytes)
    requires reader.Valid() && bufLen > 0 && Sized(AllInfos(reader.index), reader.data)
    requires n <= |Content(AllInfos(reader.index), reader.data)|
    requires forall i :: 0 <= i < |reader.index| ==> store(i) == Ok(reader.data(reader.index[i].digest))
    modifies reader
    ensures var content := Content(AllInfos(reader.index), reader.data); out == content[|content| - n..]
  {
    hide Content, AllInfos, Sized, Increasing, CacheValid, IsChunk;
    SizeIsContent(reader);
    var _ := reader.Seek(FromEnd(0 - n));
    out := ReadToEnd(reader, bufLen, store);
  }

  /** Seeking by n bytes, forwards or backwards, and reading on returns the content from there. */
  method ReadFrom(reader: BufferedDynamicReader, n: int, bufLen: nat, store: nat -> Result<Bytes>)
    returns (out: Bytes)
    requires reader.Valid() && bufLen > 0 && Sized(AllInfos(reader.index), reader.data)
    requires 0 <= reader.readOffset + n <= |Content(AllInfos(reader.index), reader.data)|
    requires forall i :: 0 <= i < |reader.index| ==> store(i) == Ok(reader.data(reader.index[i].digest))
    modifies reader
    ensures out == Content(AllInfos(reader.index), reader.data)[old(reader.readOffset) + n..]
  {
    hide Content, AllInfos, Sized, Increasing, CacheValid, IsChunk;
    SizeIsContent(reader);
    var _ := reader.Seek(FromCurrent(n));
    out := ReadToEnd(reader, bufLen, store);
  }

  lemma SizeIsContent(reader: BufferedDynamicReader)
    requires reader.Valid() && Sized(AllInfos(reader.index), reader.data)
    ensures |Content(AllInfos(reader.index), reader.data)| == reader.archiveSize
  {
    hide Content, AllInfos, Sized, Increasing, CacheValid, IsChunk, Tiles, TotalSize;
    IncreasingTiles(reader.index);
    ContentLength(AllInfos(reader.index), reader.data);
  }

  lemma SliceExtend<T>(s: seq<T>, a: nat, b: nat, c: nat)
    requires a <= b <= c <= |s|
    ensures s[a..b] + s[b..c] == s[a..c]
  {
  }

  lemma AllReadable(index: seq<Entry>, data: ChunkData, store: nat -> Result<Bytes>, offset: nat)
    requires Sized(AllInfos(index), data)
    requires forall i :: 0 <= i < |index| ==> store(i) == Ok(data(index[i].digest))
    ensures forall i :: !Unreadable(index, store, offset, i)
  {
    hide AllInfos;
    forall i | 0 <= i < |index|
      ensures !Unreadable(index, store, offset, i)
    {
      assert |data(AllInfos(index)[i].digest)| == AllInfos(index)[i].end - AllInfos(index)[i].start;
    }
  }

  ghost predicate IsChunk(index: seq<Entry>, data: ChunkData, idx: nat, start: nat, bytes: Bytes) {
    && idx < |index| && start == ChunkStart(index, idx)
    && bytes == data(index[idx].digest) && start + |bytes| == index[idx].end
  }

  /** A chunk as the cacher fetches it. */
  ghost function FetchedFrom(index: seq<Entry>, data: ChunkData): (nat, CachedChunk) -> bool {
    (idx: nat, c: CachedChunk) => IsChunk(index, data, idx, c.start, c.data)
  }

  /** The bytes are chunk i, which holds the offset, from the offset on. */
  ghost predicate ServedBy(index: seq<Entry>, data: ChunkData, offset: nat, i: nat, bytes: Bytes) {
    && i < |index| && ChunkStart(index, i) <= offset < index[i].end
    && IsChunk(index, data, i, ChunkStart(index, i), data(index[i].digest))
    && bytes == data(index[i].digest)[offset - ChunkStart(index, i)..]
  }

  /** Chunk i, which holds the offset, cannot be fetched or has the wrong size. */
  ghost predicate Unreadable(index: seq<Entry>, store: nat -> Result<Bytes>, offset: nat, i: nat) {
    && i < |index| && ChunkStart(index, i) <= offset < index[i].end
    && (store(i).Err? || ChunkStart(index, i) + |store(i).value| != index[i].end)
  }
}
