/** Writing a byte stream as dynamic chunks plus an index, and reading it back. */
module DynamicWriter {
  import opened Common
  import opened Chunking
  import opened IndexFile
  import opened DynamicIndex

  // ---- Index records ----

  const RECORD_SIZE: nat := 40
  const DIGEST_SIZE: nat := 32

  predicate Storable(e: Entry) {
    e.end < 0x1_0000_0000_0000_0000 && |e.digest| == DIGEST_SIZE
  }

  function Record(e: Entry): Bytes {
    ToLe(e.end, 8) + e.digest
  }

  function Records(index: seq<Entry>): Bytes {
    if index == [] then [] else Records(index[..|index| - 1]) + Record(index[|index| - 1])
  }

  function ParseRecord(r: Bytes): Entry
    requires |r| == RECORD_SIZE
  {
    Entry(FromLe(r[..8]), r[8..])
  }

  /** What opening an index file maps: the size must be a multiple of the record size. */
  function ParseRecords(bytes: Bytes): Result<seq<Entry>> {
    if |bytes| % RECORD_SIZE != 0 then Err
    else Ok(ParseWhole(bytes))
  }

  function ParseWhole(bytes: Bytes): seq<Entry>
    requires |bytes| % RECORD_SIZE == 0
  {
    if bytes == [] then []
    else
      var n := |bytes| - RECORD_SIZE;
      ParseWhole(bytes[..n]) + [ParseRecord(bytes[n..])]
  }

  lemma RecordRoundTrip(e: Entry)
    requires Storable(e)
    ensures |Record(e)| == RECORD_SIZE && ParseRecord(Record(e)) == e
  {
    hide ToLe, FromLe;
    Pow256At8();
    LeRoundTrip(e.end, 8);
    var r := Record(e);
    assert r[..8] == ToLe(e.end, 8) && r[8..] == e.digest;
  }

  /** A record is the end offset in 8 little endian bytes, then the digest. */
  lemma RecordLayout(e: Entry)
    requires Storable(e)
    ensures |Record(e)| == 40 && Record(e)[8..] == e.digest
    ensures forall i :: 0 <= i < 8 ==> Record(e)[i] == e.end / Pow256(i) % 256
  {
    hide ToLe;
    forall i | 0 <= i < 8
      ensures Record(e)[i] == e.end / Pow256(i) % 256
    {
      LeDigit(e.end, 8, i);
    }
    LeLength(e.end, 8);
  }

  /** An index file is read as what was appended to it. */
  lemma {:induction false} RecordsRoundTrip(index: seq<Entry>)
    requires forall e :: e in index ==> Storable(e)
    ensures |Records(index)| == RECORD_SIZE * |index| && ParseRecords(Records(index)) == Ok(index)
  {
    hide Record, ParseRecord;
    if index != [] {
      var n := |index| - 1;
      RecordsRoundTrip(index[..n]);
      RecordRoundTrip(index[n]);
      var bytes := Records(index);
      assert bytes[..|bytes| - RECORD_SIZE] == Records(index[..n]);
      assert bytes[|bytes| - RECORD_SIZE..] == Record(index[n]);
      assert index == index[..n] + [index[n]];
    }
  }

  /** Index checksum and size, chunk by chunk, over an uninterpreted hash. */
  method ComputeCsum(index: seq<Entry>, hash: Bytes -> Digest) returns (csum: Digest, chunkEnd: nat)
    ensures csum == hash(Records(index)) && chunkEnd == IndexBytes(index)
  {
    hide Record;
    var hashed: Bytes := [];
    chunkEnd := 0;
    for pos := 0 to |index|
      invariant hashed == Records(index[..pos])
      invariant chunkEnd == IndexBytes(index[..pos])
    {
      assert index[..pos + 1][..pos] == index[..pos];
      var info := ChunkInfo(index, pos).value;
      chunkEnd := info.end;
      hashed := HashUpdate(hashed, chunkEnd, info.digest);
    }
    assert index[..|index|] == index;
    csum := hash(hashed);
  }

  /** Feed one entry to an incremental hash. */
  method HashUpdate(hashed: Bytes, end: nat, digest: Digest) returns (r: Bytes)
    ensures r == hashed + Record(Entry(end, digest))
  {
    r := hashed + ToLe(end, 8);
    r := r + digest;
  }

  // ---- The index writer ----

  class DynamicIndexWriter {
    var records: Bytes
    var csum: Bytes
    var closed: bool
    var headerCsum: Option<Digest>

    constructor ()
      ensures records == [] && csum == [] && !closed && headerCsum == None
    {
      records, csum, closed, headerCsum := [], [], false, None;
    }

    method AddChunk(offset: nat, digest: Digest) returns (ok: bool)
      modifies this
      ensures ok == !old(closed) && closed == old(closed) && headerCsum == old(headerCsum)
      ensures records == if ok then old(records) + Record(Entry(offset, digest)) else old(records)
      ensures csum == if ok then old(csum) + Record(Entry(offset, digest)) else old(csum)
    {
      if closed {
        return false;
      }
      csum := HashUpdate(csum, offset, digest);
      records := HashUpdate(records, offset, digest);
      return true;
    }

    method Close(hash: Bytes -> Digest) returns (r: Result<Digest>)
      modifies this
      ensures closed && records == old(records) && csum == old(csum)
      ensures r == if old(closed) then Err else Ok(hash(csum))
      ensures headerCsum == if old(closed) then old(headerCsum) else Some(hash(csum))
    {
      if closed {
        return Err;
      }
      closed := true;
      headerCsum := Some(hash(csum));
      return Ok(hash(csum));
    }
  }

  // ---- Chunks and their entries ----

  ghost function EntriesFor(cuts: seq<Bytes>, hash: Bytes -> Digest): (r: seq<Entry>)
    ensures |r| == |cuts|
    ensures forall i :: 0 <= i < |cuts| ==> r[i].digest == hash(cuts[i])
  {
    if cuts == [] then []
    else
      var n := |cuts| - 1;
      EntriesFor(cuts[..n], hash) + [Entry(|Flatten(cuts)|, hash(cuts[n]))]
  }

  /** Each chunk ends exactly at its own first boundary. */
  ghost predicate AllCut(p: Params, cuts: seq<Bytes>)
    requires p.Valid()
  {
    forall i :: 0 <= i < |cuts| ==> cuts[i] != [] && FirstCut(p, cuts[i]) == |cuts[i]|
  }

  /** Cutting piece by piece gives the reference chunk list. */
  lemma {:induction false} CutsAreChunks(p: Params, cuts: seq<Bytes>, tail: Bytes)
    requires p.Valid() && AllCut(p, cuts) && FirstCut(p, tail) == 0
    ensures Chunks(p, Flatten(cuts) + tail) == cuts + (if tail == [] then [] else [tail])
    decreases |cuts|
  {
    if cuts == [] {
      assert Flatten(cuts) + tail == tail;
    } else {
      hide Chunks, FirstCut;
      var rest := Flatten(cuts[1..]) + tail;
      CutsAreChunks(p, cuts[1..], tail);
      ConcatAssoc(cuts[0], Flatten(cuts[1..]), tail);
      FirstChunkOf(p, cuts[0], rest);
      assert cuts == [cuts[0]] + cuts[1..];
      ConcatAssoc([cuts[0]], cuts[1..], if tail == [] then [] else [tail]);
    }
  }

  lemma FirstChunkOf(p: Params, cut: Bytes, rest: Bytes)
    requires p.Valid() && cut != [] && FirstCut(p, cut) == |cut|
    ensures Chunks(p, cut + rest) == [cut] + Chunks(p, rest)
  {
    hide FirstCut;
    CutAtPrefix(p, cut, rest);
    assert (cut + rest)[..|cut|] == cut && (cut + rest)[|cut|..] == rest;
  }

  lemma IncreasingSnoc(index: seq<Entry>, e: Entry)
    requires Increasing(index) && IndexBytes(index) < e.end
    ensures Increasing(index + [e]) && IndexBytes(index + [e]) == e.end
    ensures AllInfos(index + [e]) == AllInfos(index) + [ChunkReadInfo(IndexBytes(index), e.end, e.digest)]
  {
    hide AllInfos;
    var index' := index + [e];
    forall i | 0 <= i < |index'|
      ensures ChunkStart(index', i) == (if i < |index| then ChunkStart(index, i) else IndexBytes(index))
      ensures ChunkStart(index', i) < index'[i].end
    {
    }
  }

  lemma ContentSnoc(infos: Infos, info: ChunkReadInfo, data: ChunkData)
    ensures Content(infos + [info], data) == Content(infos, data) + data(info.digest)
    ensures Sized(infos, data) && |data(info.digest)| == info.end - info.start ==> Sized(infos + [info], data)
  {
    assert (infos + [info])[..|infos|] == infos;
  }

  /** Chunk ends are strictly increasing and end at the total length; and with the right bytes behind
      every digest the content is the concatenation of the cuts. */
  lemma {:induction false} EntriesContent(cuts: seq<Bytes>, hash: Bytes -> Digest, data: ChunkData)
    requires forall i :: 0 <= i < |cuts| ==> cuts[i] != []
    ensures var index := EntriesFor(cuts, hash);
            && Increasing(index) && IndexBytes(index) == |Flatten(cuts)|
            && ((forall i :: 0 <= i < |cuts| ==> data(hash(cuts[i])) == cuts[i]) ==>
                 Sized(AllInfos(index), data) && Content(AllInfos(index), data) == Flatten(cuts))
  {
    hide AllInfos, Increasing, Content, Sized, Flatten;
    if cuts != [] {
      var n := |cuts| - 1;
      assert cuts == cuts[..n] + [cuts[n]];
      EntriesContent(cuts[..n], hash, data);
      FlattenSnoc(cuts[..n], cuts[n]);
      var before, e := EntriesFor(cuts[..n], hash), Entry(|Flatten(cuts)|, hash(cuts[n]));
      IncreasingSnoc(before, e);
      ContentSnoc(AllInfos(before), ChunkReadInfo(IndexBytes(before), e.end, e.digest), data);
    } else {
      NoEntries(hash, data);
    }
  }

  lemma NoEntries(hash: Bytes -> Digest, data: ChunkData)
    ensures var index := EntriesFor([], hash);
            && Increasing(index) && IndexBytes(index) == 0
            && Sized(AllInfos(index), data) && Content(AllInfos(index), data) == [] == Flatten<byte>([])
  {
  }

  // ---- The chunk writer ----

  /** The chunk files, by digest; the stored bytes are what reading the chunk decodes to. */
  class ChunkFiles {
    var chunks: map<Digest, Bytes>

    constructor (chunks: map<Digest, Bytes>)
      ensures this.chunks == chunks
    {
      this.chunks := chunks;
    }

    /** An existing chunk is kept as it is; `fails` says that the file system refuses. */
    method InsertChunk(chunk: Bytes, digest: Digest, fails: bool) returns (isDuplicate: Result<bool>)
      modifies this
      ensures isDuplicate.Err? <==> fails
      ensures isDuplicate.Ok? ==> isDuplicate.value == (digest in old(chunks))
      ensures chunks == if fails || digest in old(chunks) then old(chunks) else old(chunks)[digest := chunk]
    {
      if fails {
        return Err;
      }
      if digest in chunks {
        return Ok(true);
      }
      chunks := chunks[digest := chunk];
      return Ok(false);
    }
  }

  /** No two different byte strings among the cuts and the chunks stored before share a digest. */
  ghost predicate NoCollision(cuts: seq<Bytes>, chunks: map<Digest, Bytes>, hash: Bytes -> Digest) {
    && (forall i, d :: 0 <= i < |cuts| && d in chunks && hash(cuts[i]) == d ==> chunks[d] == cuts[i])
    && (forall i, j :: 0 <= i < |cuts| && 0 <= j < |cuts| && hash(cuts[i]) == hash(cuts[j]) ==> cuts[i] == cuts[j])
  }

  /** The store holds what it held before, and the cuts. */
  ghost predicate Grown(
    before: map<Digest, Bytes>, chunks: map<Digest, Bytes>, cuts: seq<Bytes>, hash: Bytes -> Digest)
  {
    && (forall d :: d in before ==> d in chunks && chunks[d] == before[d])
    && (forall i :: 0 <= i < |cuts| ==> hash(cuts[i]) in chunks)
    && (forall d :: d in chunks && d !in before ==>
          exists i :: 0 <= i < |cuts| && d == hash(cuts[i]) && chunks[d] == cuts[i])
  }

  /** The index records and the store reflect the cuts. */
  ghost predicate Stored(
    cuts: seq<Bytes>, records: Bytes, before: map<Digest, Bytes>, chunks: map<Digest, Bytes>, hash: Bytes -> Digest)
  {
    records == Records(EntriesFor(cuts, hash)) && Grown(before, chunks, cuts, hash)
  }

  lemma GrownSnoc(
    before: map<Digest, Bytes>, chunks: map<Digest, Bytes>, cuts: seq<Bytes>, cut: Bytes, hash: Bytes -> Digest)
    requires Grown(before, chunks, cuts, hash)
    ensures Grown(before, if hash(cut) in chunks then chunks else chunks[hash(cut) := cut], cuts + [cut], hash)
  {
    var cuts', chunks' := cuts + [cut], if hash(cut) in chunks then chunks else chunks[hash(cut) := cut];
    assert cuts'[|cuts|] == cut;
    forall d | d in chunks' && d !in before
      ensures exists i :: 0 <= i < |cuts'| && d == hash(cuts'[i]) && chunks'[d] == cuts'[i]
    {
      if d in chunks {
        var i :| 0 <= i < |cuts| && d == hash(cuts[i]) && chunks[d] == cuts[i];
        assert cuts'[i] == cuts[i];
      }
    }
  }

  lemma StoredSnoc(
    cuts: seq<Bytes>, cut: Bytes, records: Bytes, before: map<Digest, Bytes>, chunks: map<Digest, Bytes>,
    hash: Bytes -> Digest)
    requires Stored(cuts, records, before, chunks, hash)
    ensures var chunks' := if hash(cut) in chunks then chunks else chunks[hash(cut) := cut];
            Stored(cuts + [cut], records + Record(Entry(|Flatten(cuts + [cut])|, hash(cut))), before, chunks', hash)
  {
    hide Record, Records, Flatten, Grown;
    EntriesSnoc(cuts, cut, hash);
    FlattenSnoc(cuts, cut);
    GrownSnoc(before, chunks, cuts, cut, hash);
  }

  /** Reading a digest of the index gives the bytes that were cut. */
  lemma GrownReads(before: map<Digest, Bytes>, chunks: map<Digest, Bytes>, cuts: seq<Bytes>, hash: Bytes -> Digest)
    requires Grown(before, chunks, cuts, hash) && NoCollision(cuts, before, hash)
    ensures forall i :: 0 <= i < |cuts| ==> Lookup(chunks)(hash(cuts[i])) == cuts[i]
  {
  }

  /** What the store returns for a digest. */
  function Lookup(chunks: map<Digest, Bytes>): ChunkData {
    d => if d in chunks then chunks[d] else []
  }

  class DynamicChunkWriter {
    const hash: Bytes -> Digest
    const index: DynamicIndexWriter
    const chunker: Chunker
    const store: ChunkFiles
    var closed: bool
    var chunkOffset: nat
    var lastChunk: nat
    var chunkBuffer: Bytes
    var chunkCount: nat
    ghost const before: map<Digest, Bytes>
    ghost var cuts: seq<Bytes>

    /** Everything accepted so far. */
    ghost function Written(): Bytes
      reads this
    {
      Flatten(cuts) + chunkBuffer
    }

    ghost predicate CutsStored()
      reads this, index, store
    {
      && Stored(cuts, index.records, before, store.chunks, hash) && index.csum == index.records
      && chunkCount == |cuts|
      && lastChunk == |Flatten(cuts)|
    }

    ghost predicate Valid()
      reads this, index, chunker, chunker.window, store
      ensures Valid() ==> !closed
    {
      && CutsStored()
      && !closed && !index.closed
      && chunkOffset == |Written()|
      && chunker.p.Valid() && AllCut(chunker.p, cuts)
      && chunker.Scanned(chunkBuffer)
    }

    constructor (p: Params, hash: Bytes -> Digest, store: ChunkFiles)
      requires p.Valid()
      ensures Valid() && Written() == [] && cuts == [] && before == store.chunks
      ensures chunker.p == p && this.hash == hash && this.store == store
      ensures fresh(index) && fresh(chunker) && fresh(chunker.window)
    {
      this.hash := hash;
      this.store := store;
      before := store.chunks;
      index := new DynamicIndexWriter();
      chunker := new Chunker(p);
      closed, chunkOffset, lastChunk, chunkBuffer, chunkCount := false, 0, 0, [], 0;
      cuts := [];
    }

    /** After a failed insertion: the chunk is dropped, but its bytes stay in the offsets. */
    ghost predicate Holed()
      reads this, index, store
    {
      && Stored(cuts, index.records, before, store.chunks, hash)
      && chunkBuffer == [] && |Flatten(cuts)| < lastChunk == chunkOffset
    }

    /** Store the buffer as a chunk and record it; neither "wrong chunk size" nor a closed index happens. */
    method WriteChunkBuffer(fails: bool) returns (ok: bool)
      requires CutsStored() && !index.closed && chunkOffset == |Written()|
      modifies this, index, store
      ensures ok <==> !fails || old(chunkBuffer) == []
      ensures chunkBuffer == [] && !index.closed && closed == old(closed)
      ensures chunkOffset == old(chunkOffset) == lastChunk
      ensures ok ==> CutsStored() && cuts == old(cuts) + (if old(chunkBuffer) == [] then [] else [old(chunkBuffer)])
      ensures !ok ==> Holed() && cuts == old(cuts)
    {
      hide Flatten, Stored, Record;
      var chunkSize := |chunkBuffer|;
      if chunkSize == 0 {
        return true;
      }
      var expectedChunkSize := chunkOffset - lastChunk;
      if expectedChunkSize != |chunkBuffer| {
        return false;
      }
      chunkCount := chunkCount + 1;
      lastChunk := chunkOffset;
      FlattenSnoc(cuts, chunkBuffer);
      StoredSnoc(cuts, chunkBuffer, index.records, before, store.chunks, hash);
      var digest := hash(chunkBuffer);
      var inserted := store.InsertChunk(chunkBuffer, digest, fails);
      if inserted.Err? {
        chunkBuffer := [];
        return false;
      }
      ok := index.AddChunk(chunkOffset, digest);
      if !ok {
        return false;
      }
      cuts := cuts + [chunkBuffer];
      chunkBuffer := [];
    }

    /** Accept a first part of the data, up to the next boundary. */
    method Write(data: Bytes, fails: bool) returns (r: Result<nat>)
      requires Valid()
      modifies this, index, chunker, chunker.window, store
      ensures r.Ok? ==> Valid() && r.value <= |data| && (data != [] ==> r.value > 0)
      ensures r.Ok? ==> Written() == old(Written()) + data[..r.value]
      ensures r.Err? ==> fails && Holed()
    {
      hide Flatten, Chunker.Scanned, AllCut, FirstCut, Stored;
      var pos := chunker.Scan(data, chunkBuffer);
      ghost var before := cuts;
      ConcatAssoc(Flatten(cuts), chunkBuffer, data[..pos]);
      ConcatAssoc(Flatten(cuts), chunkBuffer, data);
      if pos > 0 {
        BoundaryEndsChunk(chunker.p, chunkBuffer, data, pos);
        chunkBuffer := chunkBuffer + data[..pos];
        chunkOffset := chunkOffset + pos;
        ghost var chunk := chunkBuffer;
        var ok := WriteChunkBuffer(fails);
        if !ok {
          return Err;
        }
        AllCutSnoc(chunker.p, before, chunk);
        FlattenSnoc(before, chunk);
        assert Written() == Flatten(cuts);
        return Ok(pos);
      } else {
        chunkOffset := chunkOffset + |data|;
        chunkBuffer := chunkBuffer + data;
        assert data[..|data|] == data;
        return Ok(|data|);
      }
    }

    /** The first call completes the archive, or fails with the last insertion; later calls do nothing. */
    method Close(fails: bool) returns (ok: bool)
      requires closed || Valid()
      modifies this, index, store
      ensures closed && (ok <==> old(closed) || !fails || old(chunkBuffer) == [])
      ensures old(closed) ==> cuts == old(cuts) && chunkBuffer == old(chunkBuffer) && store.chunks == old(store.chunks)
      ensures old(closed) ==> index.records == old(index.records) && index.headerCsum == old(index.headerCsum)
      ensures ok && !old(closed) ==> index.closed && cuts == Chunks(chunker.p, old(Written()))
      ensures ok && !old(closed) ==>
        Stored(cuts, index.records, before, store.chunks, hash) && index.headerCsum == Some(hash(index.records))
      ensures !ok ==> Holed() && !index.closed
    {
      hide Chunker.Scanned, FirstCut, Chunks, Stored, Flatten;
      if closed {
        return true;
      }
      closed := true;
      chunker.ScannedHasNoCut(chunkBuffer);
      CutsAreChunks(chunker.p, cuts, chunkBuffer);
      ok := WriteChunkBuffer(fails);
      if !ok {
        return false;
      }
      var _ := index.Close(hash);
    }
  }

  /** A hole cannot be read over: the record behind it claims more bytes than its chunk has. */
  lemma HoleShows(cuts: seq<Bytes>, lost: nat, next: Bytes, hash: Bytes -> Digest, data: ChunkData)
    requires lost > 0 && data(hash(next)) == next
    ensures var index := EntriesFor(cuts, hash) + [Entry(|Flatten(cuts)| + lost + |next|, hash(next))];
            !Sized(AllInfos(index), data)
  {
    hide Flatten;
    var index := EntriesFor(cuts, hash) + [Entry(|Flatten(cuts)| + lost + |next|, hash(next))];
    EntriesEnd(cuts, hash);
    var n := |EntriesFor(cuts, hash)|;
    var info := AllInfos(index)[n];
    assert info.start == |Flatten(cuts)| && info.end == |Flatten(cuts)| + lost + |next|;
  }

  lemma EntriesEnd(cuts: seq<Bytes>, hash: Bytes -> Digest)
    ensures IndexBytes(EntriesFor(cuts, hash)) == |Flatten(cuts)|
  {
  }

  lemma EntriesSnoc(cuts: seq<Bytes>, cut: Bytes, hash: Bytes -> Digest)
    ensures var e := Entry(|Flatten(cuts) + cut|, hash(cut));
            && EntriesFor(cuts + [cut], hash) == EntriesFor(cuts, hash) + [e]
            && Records(EntriesFor(cuts + [cut], hash)) == Records(EntriesFor(cuts, hash)) + Record(e)
  {
    FlattenSnoc(cuts, cut);
    assert (cuts + [cut])[..|cuts|] == cuts;
    var before := EntriesFor(cuts, hash);
    assert forall e :: (before + [e])[..|before|] == before;
  }

  lemma AllCutSnoc(p: Params, cuts: seq<Bytes>, cut: Bytes)
    requires p.Valid() && AllCut(p, cuts) && cut != [] && FirstCut(p, cut) == |cut|
    ensures AllCut(p, cuts + [cut])
  {
  }

  /** The buffer up to a boundary is one complete chunk. */
  lemma BoundaryEndsChunk(p: Params, buffer: Bytes, data: Bytes, pos: nat)
    requires p.Valid() && 0 < pos <= |data|
    requires FirstCut(p, buffer + data) == |buffer| + pos
    ensures FirstCut(p, buffer + data[..pos]) == |buffer| + pos
  {
    TakeDrop(buffer, data, pos);
    CutAtPrefix(p, buffer + data[..pos], data[pos..]);
  }

  // ---- Write, then read ----

  /** Offer the rest again until everything is accepted, as write_all does. */
  method WriteAll(writer: DynamicChunkWriter, data: Bytes)
    requires writer.Valid()
    modifies writer, writer.index, writer.chunker, writer.chunker.window, writer.store
    ensures writer.Valid() && writer.Written() == old(writer.Written()) + data
  {
    hide DynamicChunkWriter.Valid, DynamicChunkWriter.Written;
    var pos := 0;
    TakeAll(writer.Written(), data);
    ghost var before := writer.Written();
    while pos < |data|
      invariant pos <= |data| && writer.Valid() && writer.Written() == before + data[..pos]
    {
      var n := writer.Write(data[pos..], false);
      assert data[..pos] + data[pos..][..n.value] == data[..pos + n.value];
      ConcatAssoc(before, data[..pos], data[pos..][..n.value]);
      pos := pos + n.value;
    }
    TakeAll(before, data);
  }

  lemma {:induction false} EntriesStorable(cuts: seq<Bytes>, hash: Bytes -> Digest)
    requires |Flatten(cuts)| < 0x1_0000_0000_0000_0000 && forall x :: |hash(x)| == DIGEST_SIZE
    ensures forall e :: e in EntriesFor(cuts, hash) ==> Storable(e)
  {
    hide Flatten;
    if cuts != [] {
      var n := |cuts| - 1;
      assert cuts == cuts[..n] + [cuts[n]];
      FlattenSnoc(cuts[..n], cuts[n]);
      EntriesStorable(cuts[..n], hash);
    }
  }

  /** A closed index parses to the entries of the cuts, and its content is the written data. */
  lemma StoredContent(
    cuts: seq<Bytes>, records: Bytes, before: map<Digest, Bytes>, chunks: map<Digest, Bytes>, hash: Bytes -> Digest)
    requires Stored(cuts, records, before, chunks, hash) && NoCollision(cuts, before, hash)
    requires forall i :: 0 <= i < |cuts| ==> cuts[i] != []
    requires |Flatten(cuts)| < 0x1_0000_0000_0000_0000 && forall x :: |hash(x)| == DIGEST_SIZE
    ensures var index := EntriesFor(cuts, hash); var data := Lookup(chunks);
            && records == Records(index) && ParseRecords(records) == Ok(index)
            && Increasing(index) && IndexBytes(index) == |Flatten(cuts)|
            && Sized(AllInfos(index), data) && Content(AllInfos(index), data) == Flatten(cuts)
  {
    hide Flatten, AllInfos, Sized, Content, Increasing, ParseRecords, Records, NoCollision, Grown, Lookup;
    EntriesStorable(cuts, hash);
    RecordsRoundTrip(EntriesFor(cuts, hash));
    GrownReads(before, chunks, cuts, hash);
    EntriesContent(cuts, hash, Lookup(chunks));
  }

  /** Write all pieces and close the archive. */
  method WriteArchive(p: Params, hash: Bytes -> Digest, store: ChunkFiles, pieces: seq<Bytes>)
    returns (records: Bytes, csum: Digest)
    requires p.Valid()
    modifies store
    ensures Stored(Chunks(p, Flatten(pieces)), records, old(store.chunks), store.chunks, hash)
    ensures csum == hash(records)
  {
    hide Flatten, Chunks, Stored, DynamicChunkWriter.Valid, DynamicChunkWriter.Written;
    var writer := new DynamicChunkWriter(p, hash, store);
    NoPieces(pieces);
    for i := 0 to |pieces|
      invariant writer.Valid() && fresh(writer) && fresh(writer.index) && fresh(writer.chunker)
      invariant fresh(writer.chunker.window)
      invariant writer.Written() == Flatten(pieces[..i])
    {
      WriteAll(writer, pieces[i]);
      assert pieces[..i + 1] == pieces[..i] + [pieces[i]];
      FlattenSnoc(pieces[..i], pieces[i]);
    }
    assert pieces[..|pieces|] == pieces;
    var _ := writer.Close(false);
    records := writer.index.records;
    csum := writer.index.headerCsum.value;
  }

  lemma NoPieces(pieces: seq<Bytes>)
    ensures Flatten(pieces[..0]) == []
  {
  }

  /** Data written in pieces of any size is read back identically, with any read buffer size, from the
      parsed index and the store, also when other chunks were there before. The checksum in the index
      header is the one computed from the parsed index. */
  method WriteThenRead(p: Params, hash: Bytes -> Digest, store: ChunkFiles, pieces: seq<Bytes>, bufLen: nat)
    returns (index: seq<Entry>, out: Bytes, size: nat, csumMatches: bool)
    requires p.Valid() && bufLen > 0 && NoCollision(Chunks(p, Flatten(pieces)), store.chunks, hash)
    requires |Flatten(pieces)| < 0x1_0000_0000_0000_0000 && forall x :: |hash(x)| == DIGEST_SIZE
    modifies store
    ensures out == Flatten(pieces)
    ensures index == EntriesFor(Chunks(p, Flatten(pieces)), hash) && Increasing(index)
    ensures size == IndexBytes(index) == |Flatten(pieces)| && csumMatches
  {
    hide Flatten, Chunks, AllInfos, Content, Sized, Increasing, Stored, ParseRecords, Records, NoCollision, Lookup;
    ghost var cuts := Chunks(p, Flatten(pieces));
    ghost var before := store.chunks;
    var records, header := WriteArchive(p, hash, store, pieces);
    ChunksFlatten(p, Flatten(pieces));
    ChunksNonEmpty(p, Flatten(pieces));
    StoredContent(cuts, records, before, store.chunks, hash);
    index := ParseRecords(records).value;
    var csum;
    csum, size := ComputeCsum(index, hash);
    csumMatches := header == csum;
    out := ReadIndex(index, store.chunks, bufLen);
  }

  lemma ChunksNonEmpty(p: Params, s: Bytes)
    requires p.Valid()
    ensures var cs := Chunks(p, s); forall i :: 0 <= i < |cs| ==> cs[i] != []
  {
    hide Chunks;
    ChunkSizes(p, s);
  }

  /** Open an index on a store and read it from the start. */
  method ReadIndex(index: seq<Entry>, chunks: map<Digest, Bytes>, bufLen: nat) returns (out: Bytes)
    requires Increasing(index) && bufLen > 0 && Sized(AllInfos(index), Lookup(chunks))
    ensures out == Content(AllInfos(index), Lookup(chunks))
  {
    hide AllInfos, Content, Sized, Increasing;
    var reader := new BufferedDynamicReader(index, Lookup(chunks));
    var store := (i: nat) => if i < |index| then Ok(Lookup(chunks)(index[i].digest)) else Err;
    out := ReadToEnd(reader, bufLen, store);
  }
}
