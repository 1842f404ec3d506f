/** Fixed index files: equal sized chunks filled in any order, with mask based offset arithmetic. */
module FixedIndex {
  import opened Common
  import opened IndexFile
  import opened DynamicWriter

  // ---- "fast modulo, valid for 2^x chunk_size" ----

  /** Bitwise and. */
  function BitAnd(x: nat, y: nat): nat {
    if x == 0 || y == 0 then 0
    else 2 * BitAnd(x / 2, y / 2) + (if x % 2 == 1 && y % 2 == 1 then 1 else 0)
  }

  ghost predicate IsPow2(c: nat) {
    exists k: nat :: Pow2(k) == c
  }

  function Remainder(x: nat, d: nat): nat
    requires d > 0
  {
    x % d
  }

  lemma {:induction false} MaskIsRemainder(x: nat, k: nat)
    ensures BitAnd(x, Pow2(k) - 1) == Remainder(x, Pow2(k))
    decreases k
  {
    if k == 0 {
      assert BitAnd(x, 0) == 0;
    } else {
      hide BitAnd, Remainder;
      var p := Pow2(k - 1);
      MaskIsRemainder(x / 2, k - 1);
      AndMask(x, p);
      ModDouble(x, p);
    }
  }

  lemma MaskIsModulo(x: nat, k: nat)
    ensures BitAnd(x, Pow2(k) - 1) == x % Pow2(k)
  {
    hide BitAnd, Pow2;
    MaskIsRemainder(x, k);
  }

  /** The lowest bit of the mask is set. */
  lemma AndMask(x: nat, p: nat)
    requires p > 0
    ensures BitAnd(x, 2 * p - 1) == 2 * BitAnd(x / 2, p - 1) + x % 2
  {
    assert (2 * p - 1) / 2 == p - 1 && (2 * p - 1) % 2 == 1;
  }

  lemma ModDouble(x: nat, p: nat)
    requires p > 0
    ensures Remainder(x, 2 * p) == 2 * Remainder(x / 2, p) + x % 2
  {
    var q, r := x / 2 / p, x / 2 % p;
    assert x / 2 == q * p + r;
    assert x == 2 * (x / 2) + x % 2;
    assert x == q * (2 * p) + (2 * r + x % 2);
    DivModUnique(x, 2 * p, q, 2 * r + x % 2);
  }

  lemma {:induction false} AndSelf(x: nat)
    ensures BitAnd(x, x) == x
  {
    if x > 0 {
      AndSelf(x / 2);
    }
  }

  lemma {:induction false} NoCommonBit(c: nat)
    requires c > 0 && BitAnd(c, c - 1) == 0
    ensures IsPow2(c)
  {
    if c == 1 {
      assert Pow2(0) == 1;
    } else if c % 2 == 0 {
      assert (c - 1) / 2 == c / 2 - 1;
      NoCommonBit(c / 2);
      var k: nat :| Pow2(k) == c / 2;
      assert Pow2(k + 1) == c;
    } else {
      AndSelf(c / 2);
    }
  }

  /** Masking with c - 1 is the remainder for every offset if and only if c is a power of two. */
  lemma MaskIsModuloIff(c: nat)
    requires c > 0
    ensures (forall x: nat :: BitAnd(x, c - 1) == x % c) <==> IsPow2(c)
  {
    if IsPow2(c) {
      var k: nat :| Pow2(k) == c;
      forall x: nat
        ensures BitAnd(x, c - 1) == x % c
      {
        MaskIsModulo(x, k);
      }
    } else if BitAnd(c, c - 1) == 0 {
      NoCommonBit(c);
    } else {
      assert c % c == 0;
    }
  }

  // ---- Geometry ----

  function IndexLength(size: nat, chunkSize: nat): nat
    requires chunkSize > 0
  {
    Quotient(size + chunkSize - 1, chunkSize)
  }

  function ChunkEnd(size: nat, chunkSize: nat, pos: nat): nat {
    Min(pos * chunkSize + chunkSize, size)
  }

  function Quotient(x: nat, d: nat): nat
    requires d > 0
  {
    Euclid(x, d);
    x / d
  }

  function ChunkFromOffset(size: nat, chunkSize: nat, offset: nat): Option<(nat, nat)>
    requires chunkSize > 0
  {
    if offset >= size then None else Some((Quotient(offset, chunkSize), BitAnd(offset, chunkSize - 1)))
  }

  function CheckChunkAlignment(size: nat, chunkSize: nat, offset: nat, chunkLen: nat): Result<nat>
    requires chunkSize > 0
  {
    if offset < chunkLen then Err else
    var pos := offset - chunkLen;
    if offset > size then Err
    // last chunk can be smaller
    else if (offset != size && chunkLen != chunkSize) || chunkLen > chunkSize || chunkLen == 0 then Err
    else if BitAnd(pos, chunkSize - 1) != 0 then Err
    else Ok(Quotient(pos, chunkSize))
  }

  /** A position is in range exactly when its start lies inside the image. */
  lemma IndexLengthBound(size: nat, chunkSize: nat, pos: nat)
    requires chunkSize > 0
    ensures pos < IndexLength(size, chunkSize) <==> pos * chunkSize < size
  {
    var n := IndexLength(size, chunkSize);
    Euclid(size + chunkSize - 1, chunkSize);
    if pos < n {
      MulLess(pos, n, chunkSize);
    } else if n < pos {
      MulLess(n, pos, chunkSize);
    }
  }

  /** The alignment check accepts exactly the ranges of the reader, and returns their position. */
  lemma AcceptsExactlyRanges(size: nat, k: nat, offset: nat, chunkLen: nat, pos: nat)
    ensures var c := Pow2(k);
            CheckChunkAlignment(size, c, offset, chunkLen) == Ok(pos) <==>
              pos < IndexLength(size, c) && chunkLen <= offset
              && offset - chunkLen == pos * c && offset == ChunkEnd(size, c, pos)
  {
    hide BitAnd, IndexLength;
    var c := Pow2(k);
    IndexLengthBound(size, c, pos);
    if chunkLen <= offset {
      var start := offset - chunkLen;
      MaskIsModulo(start, k);
      if start == pos * c {
        DivModUnique(start, c, pos, 0);
      }
      Euclid(start, c);
    }
  }

  // ---- The reader ----

  /** A fixed index file: image size, chunk size and one digest per chunk. */
  datatype Reader = Reader(size: nat, chunkSize: nat, digests: seq<Digest>) {
    predicate Valid() {
      chunkSize > 0 && |digests| == IndexLength(size, chunkSize)
    }

    function ChunkInfo(pos: nat): Option<ChunkReadInfo>
      requires Valid()
    {
      if pos >= |digests| then None
      else
        var start := pos * chunkSize;
        var end := start + chunkSize;
        IndexLengthBound(size, chunkSize, pos);
        Some(ChunkReadInfo(start, if end > size then size else end, digests[pos]))
    }

    function Infos(): (r: Infos)
      requires Valid()
      ensures |r| == |digests| && forall i :: 0 <= i < |r| ==> Some(r[i]) == ChunkInfo(i)
    {
      seq(|digests|, i requires 0 <= i < |digests| => ChunkInfo(i).value)
    }
  }

  /** The ranges tile the whole image. */
  lemma RangesTile(r: Reader)
    requires r.Valid()
    ensures Tiles(r.Infos()) && TotalSize(r.Infos()) == r.size
  {
    hide IndexLength, Reader.Infos;
    var infos, n := r.Infos(), |r.digests|;
    forall i | 0 <= i < n
      ensures TileAt(infos, i)
    {
      RangeFollows(r, i);
    }
    IndexLengthBound(r.size, r.chunkSize, n);
    if n > 0 {
      assert n * r.chunkSize == (n - 1) * r.chunkSize + r.chunkSize;
    }
  }

  lemma RangeFollows(r: Reader, i: nat)
    requires r.Valid() && i < |r.digests|
    ensures var info := r.ChunkInfo(i).value;
            && info.start == (if i == 0 then 0 else r.ChunkInfo(i - 1).value.end)
            && info.start < info.end && info.end == ChunkEnd(r.size, r.chunkSize, i)
  {
    hide IndexLength;
    IndexLengthBound(r.size, r.chunkSize, i);
    if i > 0 {
      assert i * r.chunkSize == (i - 1) * r.chunkSize + r.chunkSize;
    }
  }

  /** Division and mask agree with the reference search. */
  lemma ChunkFromOffsetLocates(r: Reader, k: nat, offset: nat)
    requires r.Valid() && r.chunkSize == Pow2(k)
    ensures Tiles(r.Infos()) && ChunkFromOffset(r.size, r.chunkSize, offset) == Locate(r.Infos(), offset)
  {
    hide IndexLength, Locate, BitAnd, Reader.Infos, Tiles, TotalSize;
    RangesTile(r);
    if offset < r.size {
      var c, i := r.chunkSize, offset / r.chunkSize;
      MaskIsModulo(offset, k);
      Euclid(offset, c);
      IndexLengthBound(r.size, c, i);
      assert Holds(r.Infos()[i], offset);
    }
  }

  // ---- Content ----

  /** The part of an image that belongs to one position. */
  function Slice(image: Bytes, chunkSize: nat, pos: nat): Bytes
    requires pos * chunkSize <= |image|
  {
    image[pos * chunkSize..ChunkEnd(|image|, chunkSize, pos)]
  }

  ghost predicate Describes(r: Reader, image: Bytes, data: ChunkData)
    requires r.Valid() && r.size == |image|
  {
    forall i :: 0 <= i < |r.digests| ==> Readable(r, image, data, i)
  }

  ghost predicate Readable(r: Reader, image: Bytes, data: ChunkData, i: nat)
    requires r.Valid() && r.size == |image| && i < |r.digests|
  {
    IndexLengthBound(r.size, r.chunkSize, i);
    data(r.digests[i]) == Slice(image, r.chunkSize, i)
  }

  lemma {:induction false} ContentUpTo(r: Reader, image: Bytes, data: ChunkData, n: nat)
    requires r.Valid() && r.size == |image| && Describes(r, image, data) && n <= |r.digests|
    ensures Content(r.Infos()[..n], data) == image[..if n == 0 then 0 else r.Infos()[n - 1].end]
    ensures n > 0 ==> |data(r.digests[n - 1])| == r.Infos()[n - 1].end - r.Infos()[n - 1].start
  {
    hide IndexLength, Reader.Infos;
    if n > 0 {
      ContentUpTo(r, image, data, n - 1);
      RangeFollows(r, n - 1);
      IndexLengthBound(r.size, r.chunkSize, n - 1);
      assert Readable(r, image, data, n - 1);
      var infos := r.Infos()[..n];
      assert infos[..n - 1] == r.Infos()[..n - 1];
      var info := infos[n - 1];
      assert image[..info.start] + image[info.start..info.end] == image[..info.end];
    }
  }

  /** The concatenated chunks are the image. */
  lemma ContentIsImage(r: Reader, image: Bytes, data: ChunkData)
    requires r.Valid() && r.size == |image| && Describes(r, image, data)
    ensures Content(r.Infos(), data) == image && Sized(r.Infos(), data)
  {
    hide IndexLength, Reader.Infos, Content;
    var n := |r.digests|;
    RangesTile(r);
    ContentUpTo(r, image, data, n);
    assert r.Infos()[..n] == r.Infos() && image[..|image|] == image;
    forall i | 0 <= i < n
      ensures |data(r.Infos()[i].digest)| == r.Infos()[i].end - r.Infos()[i].start
    {
      ContentUpTo(r, image, data, i + 1);
    }
    if n == 0 {
      IndexLengthBound(r.size, r.chunkSize, 0);
    }
  }

  /** Checksum and size as the reader computes them. */
  method ComputeCsum(r: Reader, hash: Bytes -> Digest) returns (csum: Digest, chunkEnd: nat)
    requires r.Valid()
    ensures csum == hash(Flatten(r.digests)) && chunkEnd == r.size
  {
    hide IndexLength;
    var hashed: Bytes := [];
    chunkEnd := 0;
    for pos := 0 to |r.digests|
      invariant hashed == Flatten(r.digests[..pos])
      invariant chunkEnd == if pos == 0 then 0 else r.ChunkInfo(pos - 1).value.end
    {
      var info := r.ChunkInfo(pos).value;
      chunkEnd := info.end;
      FlattenSnoc(r.digests[..pos], info.digest);
      assert r.digests[..pos + 1] == r.digests[..pos] + [info.digest];
      hashed := hashed + info.digest;
    }
    assert r.digests[..|r.digests|] == r.digests;
    RangesTile(r);
    csum := hash(hashed);
  }

  // ---- The writer ----

  lemma CopyNext<T>(from: seq<T>, to: seq<T>, i: nat)
    requires |from| == |to| && i < |from|
    ensures (from[..i] + to[i..])[i := from[i]] == from[..i + 1] + to[i + 1..]
  {
  }

  class FixedIndexWriter {
    const size: nat
    const chunkSize: nat
    const index: array<Digest>
    var mapped: bool

    ghost predicate Valid()
      reads this
    {
      chunkSize > 0 && index.Length == IndexLength(size, chunkSize)
    }

    constructor (size: nat, chunkSize: nat)
      requires chunkSize > 0
      ensures Valid() && mapped && this.size == size && this.chunkSize == chunkSize && fresh(index)
    {
      this.size, this.chunkSize := size, chunkSize;
      index := new Digest[IndexLength(size, chunkSize)](_ => seq(32, _ => 0));
      mapped := true;
    }

    method AddDigest(pos: nat, digest: Digest) returns (ok: bool)
      requires Valid()
      modifies index
      ensures ok == (pos < index.Length && mapped)
      ensures index[..] == if ok then old(index[..])[pos := digest] else old(index[..])
    {
      if pos >= index.Length {
        return false;
      }
      if !mapped {
        return false;
      }
      index[pos] := digest;
      return true;
    }

    /** Add a chunk by its end offset, in any order; the chunk is stored before its digest is recorded. */
    method AddChunk(store: ChunkFiles, offset: nat, chunk: Bytes, digest: Digest, fails: bool) returns (ok: bool)
      requires Valid()
      modifies index, store
      ensures var pos := CheckChunkAlignment(size, chunkSize, offset, |chunk|);
              && (pos.Err? || fails ==> !ok && store.chunks == old(store.chunks))
              && (pos.Ok? && !fails ==> ok == (pos.value < index.Length && mapped))
              && (pos.Ok? && digest in old(store.chunks) ==> store.chunks == old(store.chunks))
              && (pos.Ok? && !fails && digest !in old(store.chunks) ==>
                    store.chunks == old(store.chunks)[digest := chunk])
              && index[..] == if ok then old(index[..])[pos.value := digest] else old(index[..])
    {
      var pos := CheckChunkAlignment(size, chunkSize, offset, |chunk|);
      if pos.Err? {
        return false;
      }
      var inserted := store.InsertChunk(chunk, digest, fails);
      if inserted.Err? {
        return false;
      }
      ok := AddDigest(pos.value, digest);
    }

    /** Copy all digests of another index of the same length; no chunk is touched. */
    method CloneDataFrom(r: Reader) returns (ok: bool)
      requires Valid() && r.Valid()
      modifies index
      ensures index[..] == if |r.digests| == index.Length && mapped then r.digests else old(index[..])
      ensures ok == (|r.digests| == index.Length && (mapped || index.Length == 0))
    {
      if index.Length != |r.digests| {
        return false;
      }
      for i := 0 to index.Length
        invariant i > 0 ==> mapped
        invariant index[..] == r.digests[..i] + old(index[..])[i..]
      {
        CopyNext(r.digests, old(index[..]), i);
        ok := AddDigest(i, r.digests[i]);
        if !ok {
          return false;
        }
      }
      return true;
    }

    method Close(hash: Bytes -> Digest) returns (r: Result<Digest>)
      requires Valid()
      modifies this`mapped
      ensures !mapped && r == if old(mapped) then Ok(hash(Flatten(index[..]))) else Err
    {
      if !mapped {
        return Err;
      }
      mapped := false;
      return Ok(hash(Flatten(index[..])));
    }
  }

  // ---- Filling an index in any order ----

  ghost predicate InRange(image: Bytes, chunkSize: nat, order: seq<nat>)
    requires chunkSize > 0
  {
    forall i :: 0 <= i < |order| ==> order[i] < IndexLength(|image|, chunkSize)
  }

  ghost function SlicesOf(image: Bytes, chunkSize: nat, order: seq<nat>): (r: seq<Bytes>)
    requires chunkSize > 0 && InRange(image, chunkSize, order)
    ensures |r| == |order|
    ensures forall i :: 0 <= i < |order| ==>
      order[i] * chunkSize <= |image| && r[i] == Slice(image, chunkSize, order[i])
  {
    if order == [] then []
    else
      var n := |order| - 1;
      IndexLengthBound(|image|, chunkSize, order[n]);
      SlicesOf(image, chunkSize, order[..n]) + [Slice(image, chunkSize, order[n])]
  }

  /** Every position added so far holds the digest of its slice. */
  ghost predicate Filled(image: Bytes, chunkSize: nat, order: seq<nat>, hash: Bytes -> Digest, digests: seq<Digest>)
    requires chunkSize > 0 && InRange(image, chunkSize, order)
  {
    var slices := SlicesOf(image, chunkSize, order);
    forall i :: 0 <= i < |order| ==> order[i] < |digests| && digests[order[i]] == hash(slices[i])
  }

  lemma FilledNext(
    image: Bytes, chunkSize: nat, order: seq<nat>, pos: nat, hash: Bytes -> Digest, digests: seq<Digest>)
    requires chunkSize > 0 && InRange(image, chunkSize, order) && Filled(image, chunkSize, order, hash, digests)
    requires pos < IndexLength(|image|, chunkSize) == |digests| && pos * chunkSize <= |image|
    ensures InRange(image, chunkSize, order + [pos])
    ensures SlicesOf(image, chunkSize, order + [pos])
         == SlicesOf(image, chunkSize, order) + [Slice(image, chunkSize, pos)]
    ensures Filled(image, chunkSize, order + [pos], hash, digests[pos := hash(Slice(image, chunkSize, pos))])
  {
    hide IndexLength, Slice;
    var slices, slices' := SlicesOf(image, chunkSize, order), SlicesOf(image, chunkSize, order + [pos]);
    assert (order + [pos])[..|order|] == order;
    forall i | 0 <= i < |order|
      ensures digests[pos := hash(Slice(image, chunkSize, pos))][order[i]] == hash(slices[i])
    {
      assert digests[order[i]] == hash(slices[i]);
    }
  }

  /** Once every position was added, the index describes the image. */
  lemma FilledDescribes(
    image: Bytes, chunkSize: nat, order: seq<nat>, hash: Bytes -> Digest, r: Reader,
    before: map<Digest, Bytes>, chunks: map<Digest, Bytes>)
    requires chunkSize > 0 && InRange(image, chunkSize, order) && r.Valid()
    requires r.size == |image| && r.chunkSize == chunkSize && Filled(image, chunkSize, order, hash, r.digests)
    requires forall pos :: 0 <= pos < |r.digests| ==> pos in order
    requires Grown(before, chunks, SlicesOf(image, chunkSize, order), hash)
    requires NoCollision(SlicesOf(image, chunkSize, order), before, hash)
    ensures Describes(r, image, Lookup(chunks))
  {
    hide IndexLength, Grown, NoCollision, Lookup, SlicesOf, Slice;
    var slices := SlicesOf(image, chunkSize, order);
    GrownReads(before, chunks, slices, hash);
    forall pos | 0 <= pos < |r.digests|
      ensures Readable(r, image, Lookup(chunks), pos)
    {
      assert pos in order;
      var i :| 0 <= i < |order| && order[i] == pos;
      assert r.digests[order[i]] == hash(slices[i]);
      IndexLengthBound(r.size, r.chunkSize, pos);
      assert slices[i] == Slice(image, chunkSize, pos);
    }
  }

  /** Positions that were not added keep their digest. */
  ghost predicate Untouched(before: seq<Digest>, after: seq<Digest>, order: seq<nat>) {
    |before| == |after| && forall pos :: 0 <= pos < |after| && pos !in order ==> after[pos] == before[pos]
  }

  /** Add the slices of an image in the given order. */
  method AddSlices(
    writer: FixedIndexWriter, image: Bytes, k: nat, hash: Bytes -> Digest, store: ChunkFiles, order: seq<nat>)
    requires writer.Valid() && writer.mapped && writer.size == |image| && writer.chunkSize == Pow2(k)
    requires InRange(image, Pow2(k), order)
    modifies writer.index, store
    ensures Filled(image, Pow2(k), order, hash, writer.index[..])
    ensures Grown(old(store.chunks), store.chunks, SlicesOf(image, Pow2(k), order), hash)
    ensures Untouched(old(writer.index[..]), writer.index[..], order)
  {
    hide IndexLength, Slice, SlicesOf, Filled, Grown, InRange, CheckChunkAlignment;
    var c := Pow2(k);
    ghost var before := store.chunks;
    NothingFilled(image, c, hash, writer.index[..], before);
    assert order[..0] == [];
    for i := 0 to |order|
      invariant InRange(image, c, order[..i]) && Filled(image, c, order[..i], hash, writer.index[..])
      invariant Grown(before, store.chunks, SlicesOf(image, c, order[..i]), hash)
      invariant Untouched(old(writer.index[..]), writer.index[..], order[..i])
    {
      assert order[..i + 1] == order[..i] + [order[i]];
      NextOffset(image, k, order, i);
      var slice := Slice(image, c, order[i]);
      FilledNext(image, c, order[..i], order[i], hash, writer.index[..]);
      GrownSnoc(before, store.chunks, SlicesOf(image, c, order[..i]), slice, hash);
      var _ := writer.AddChunk(store, ChunkEnd(|image|, c, order[i]), slice, hash(slice), false);
    }
    assert order[..|order|] == order;
  }

  /** Close the index and open it again. */
  method CloseAndOpen(writer: FixedIndexWriter, hash: Bytes -> Digest) returns (r: Reader, csumMatches: bool)
    requires writer.Valid() && writer.mapped
    modifies writer`mapped
    ensures r == Reader(writer.size, writer.chunkSize, writer.index[..]) && r.Valid() && csumMatches
  {
    var header := writer.Close(hash);
    r := Reader(writer.size, writer.chunkSize, writer.index[..]);
    var csum, _ := ComputeCsum(r, hash);
    csumMatches := header == Ok(csum);
  }

  /** Chunks added in any order, possibly repeatedly, reconstruct the image, and the checksum written at
      close is the one of the reader. */
  method WriteImage(image: Bytes, k: nat, hash: Bytes -> Digest, store: ChunkFiles, order: seq<nat>)
    returns (r: Reader, csumMatches: bool)
    requires InRange(image, Pow2(k), order) && forall pos :: 0 <= pos < IndexLength(|image|, Pow2(k)) ==> pos in order
    requires NoCollision(SlicesOf(image, Pow2(k), order), store.chunks, hash)
    modifies store
    ensures r.Valid() && r.size == |image| && r.chunkSize == Pow2(k)
    ensures Sized(r.Infos(), Lookup(store.chunks)) && Content(r.Infos(), Lookup(store.chunks)) == image
    ensures csumMatches
  {
    hide IndexLength, Slice, SlicesOf, Filled, Grown, NoCollision, Lookup, InRange;
    var writer := new FixedIndexWriter(|image|, Pow2(k));
    AddSlices(writer, image, k, hash, store, order);
    r, csumMatches := CloseAndOpen(writer, hash);
    FilledDescribes(image, Pow2(k), order, hash, r, old(store.chunks), store.chunks);
    ContentIsImage(r, image, Lookup(store.chunks));
  }

  // ---- Incremental images ----

  /** The slices of two images agree outside of the given positions. */
  ghost predicate SameOutside(image: Bytes, was: Bytes, chunkSize: nat, order: seq<nat>)
    requires chunkSize > 0 && |image| == |was|
  {
    forall pos :: 0 <= pos < IndexLength(|image|, chunkSize) && pos !in order ==> SameSlice(image, was, chunkSize, pos)
  }

  ghost predicate SameSlice(image: Bytes, was: Bytes, chunkSize: nat, pos: nat)
    requires chunkSize > 0 && |image| == |was| && pos < IndexLength(|image|, chunkSize)
  {
    IndexLengthBound(|image|, chunkSize, pos);
    Slice(image, chunkSize, pos) == Slice(was, chunkSize, pos)
  }

  /** A clone of an index of the old image describes the new one once the changed positions were added. */
  lemma CloneDescribes(
    image: Bytes, was: Bytes, base: Reader, order: seq<nat>, hash: Bytes -> Digest, r: Reader,
    before: map<Digest, Bytes>, chunks: map<Digest, Bytes>)
    requires base.Valid() && r.Valid() && |image| == |was| == base.size == r.size && base.chunkSize == r.chunkSize
    requires InRange(image, r.chunkSize, order) && SameOutside(image, was, r.chunkSize, order)
    requires Describes(base, was, Lookup(before)) && forall d :: d in base.digests ==> d in before
    requires Filled(image, r.chunkSize, order, hash, r.digests) && Untouched(base.digests, r.digests, order)
    requires Grown(before, chunks, SlicesOf(image, r.chunkSize, order), hash)
    requires NoCollision(SlicesOf(image, r.chunkSize, order), before, hash)
    ensures Describes(r, image, Lookup(chunks))
  {
    hide IndexLength, NoCollision, SlicesOf, Slice, Grown, Lookup;
    var c, slices := r.chunkSize, SlicesOf(image, r.chunkSize, order);
    GrownReads(before, chunks, slices, hash);
    forall pos | 0 <= pos < |r.digests|
      ensures Readable(r, image, Lookup(chunks), pos)
    {
      IndexLengthBound(r.size, c, pos);
      if pos in order {
        var i :| 0 <= i < |order| && order[i] == pos;
        assert r.digests[order[i]] == hash(slices[i]);
        assert slices[i] == Slice(image, c, pos);
      } else {
        assert Readable(base, was, Lookup(before), pos) && SameSlice(image, was, c, pos);
        assert base.digests[pos] in base.digests;
        GrownKeeps(before, chunks, slices, hash, base.digests[pos]);
      }
    }
  }

  lemma GrownKeeps(
    before: map<Digest, Bytes>, chunks: map<Digest, Bytes>, cuts: seq<Bytes>, hash: Bytes -> Digest, d: Digest)
    requires Grown(before, chunks, cuts, hash) && d in before
    ensures Lookup(chunks)(d) == Lookup(before)(d)
  {
  }

  /** An incremental backup: clone the index of the previous image, then add the changed slices in any order. */
  method WriteIncremental(
    image: Bytes, k: nat, hash: Bytes -> Digest, store: ChunkFiles, order: seq<nat>, base: Reader, ghost was: Bytes)
    returns (r: Reader, csumMatches: bool)
    requires base.Valid() && base.size == |was| == |image| && base.chunkSize == Pow2(k)
    requires Describes(base, was, Lookup(store.chunks)) && forall d :: d in base.digests ==> d in store.chunks
    requires InRange(image, Pow2(k), order) && SameOutside(image, was, Pow2(k), order)
    requires NoCollision(SlicesOf(image, Pow2(k), order), store.chunks, hash)
    modifies store
    ensures r.Valid() && r.size == |image| && r.chunkSize == Pow2(k)
    ensures Sized(r.Infos(), Lookup(store.chunks)) && Content(r.Infos(), Lookup(store.chunks)) == image
    ensures csumMatches
  {
    hide IndexLength, Slice, SlicesOf, Filled, Grown, NoCollision, Lookup, InRange, Describes, SameOutside, Untouched;
    var writer := new FixedIndexWriter(|image|, Pow2(k));
    var ok := writer.CloneDataFrom(base);
    AddSlices(writer, image, k, hash, store, order);
    r, csumMatches := CloseAndOpen(writer, hash);
    CloneDescribes(image, was, base, order, hash, r, old(store.chunks), store.chunks);
    ContentIsImage(r, image, Lookup(store.chunks));
  }

  lemma NothingFilled(
    image: Bytes, chunkSize: nat, hash: Bytes -> Digest, digests: seq<Digest>, chunks: map<Digest, Bytes>)
    requires chunkSize > 0
    ensures InRange(image, chunkSize, []) && Filled(image, chunkSize, [], hash, digests)
    ensures Grown(chunks, chunks, SlicesOf(image, chunkSize, []), hash)
  {
  }

  /** The end offset and length of a slice pass the alignment check. */
  lemma NextOffset(image: Bytes, k: nat, order: seq<nat>, i: nat)
    requires InRange(image, Pow2(k), order) && i < |order|
    ensures var c, pos := Pow2(k), order[i];
            && pos < IndexLength(|image|, c) && pos * c <= |image|
            && CheckChunkAlignment(|image|, c, ChunkEnd(|image|, c, pos), |Slice(image, c, pos)|) == Ok(pos)
  {
    hide IndexLength, CheckChunkAlignment;
    var c, pos := Pow2(k), order[i];
    IndexLengthBound(|image|, c, pos);
    AcceptsExactlyRanges(|image|, k, ChunkEnd(|image|, c, pos), |Slice(image, c, pos)|, pos);
  }
}
