/** Streams that regroup arbitrary input buffers into chunks. */
module ChunkStreams {
  import opened Common
  import opened Chunking

  /** What one poll of the underlying input yields; an exhausted list means end of input. */
  datatype Input = NotReady | Data(bytes: Bytes) | Failure

  datatype Poll = Pending | Item(chunk: Bytes) | Error | End

  function InputBytes(input: seq<Input>): Bytes {
    if input == [] then []
    else (if input[0].Data? then input[0].bytes else []) + InputBytes(input[1..])
  }

  /** A boundary found in the buffer is the first boundary of everything still to come. */
  lemma FirstChunk(p: Params, buffer: Bytes, rest: Bytes, n: nat)
    requires p.Valid() && n != 0 && FirstCut(p, buffer) == n
    ensures n <= |buffer|
    ensures Chunks(p, buffer + rest) == [buffer[..n]] + Chunks(p, buffer[n..] + rest)
  {
    CutAtPrefix(p, buffer, rest);
    assert (buffer + rest)[..n] == buffer[..n];
    assert (buffer + rest)[n..] == buffer[n..] + rest;
  }

  /** Input split off the front of the list moves into the buffer. */
  lemma TakeInput(buffer: Bytes, input: seq<Input>)
    requires input != []
    ensures buffer + InputBytes(input)
         == (buffer + if input[0].Data? then input[0].bytes else []) + InputBytes(input[1..])
  {
    ConcatAssoc(buffer, if input[0].Data? then input[0].bytes else [], InputBytes(input[1..]));
  }

  class ChunkStream {
    const chunker: Chunker
    var buffer: Bytes
    var scanPos: nat
    var input: seq<Input>

    ghost predicate Valid()
      reads this, chunker, chunker.window
    {
      && scanPos <= |buffer|
      && chunker.p.Valid()
      && (chunker.Scanned(buffer[..scanPos]) || (buffer == [] && input == []))
    }

    /** Everything that has not been returned in a chunk yet. */
    ghost function Remaining(): Bytes
      reads this
    {
      buffer + InputBytes(input)
    }

    constructor (p: Params, input: seq<Input>)
      requires p.Valid()
      ensures Valid() && chunker.p == p && fresh(chunker) && fresh(chunker.window)
      ensures Remaining() == InputBytes(input) && this.input == input
    {
      chunker := new Chunker(p);
      buffer, scanPos := [], 0;
      this.input := input;
    }

    /** Scan what is buffered; on a boundary the chunk leaves the buffer. */
    method ScanBuffer() returns (r: Option<Bytes>)
      requires Valid()
      modifies this, chunker, chunker.window
      ensures Valid() && input == old(input)
      ensures r.None? ==> buffer == old(buffer) && scanPos == |buffer|
      ensures r.Some? ==>
        && |r.value| > 0
        && Chunks(chunker.p, old(Remaining())) == [r.value] + Chunks(chunker.p, Remaining())
        && old(buffer) == r.value + buffer
    {
      hide Chunks, Chunker.Scanned;
      if scanPos == |buffer| {
        return None;
      }
      ghost var seen := buffer[..scanPos];
      assert seen + buffer[scanPos..] == buffer;
      var boundary := chunker.Scan(buffer[scanPos..], seen);
      var chunkSize := scanPos + boundary;
      if boundary == 0 {
        scanPos := |buffer|;
        assert buffer[..scanPos] == buffer;
        return None;
      }
      if chunkSize > |buffer| {
        assert false; // "got unexpected chunk boundary from chunker"
      }
      FirstChunk(chunker.p, buffer, InputBytes(input), chunkSize);
      r := Some(buffer[..chunkSize]);
      buffer := buffer[chunkSize..];
      scanPos := 0;
    }

    method PollNext() returns (r: Poll)
      requires Valid()
      modifies this, chunker, chunker.window
      ensures Valid()
      ensures |input| <= |old(input)|
      ensures r.Item? ==>
        && |r.chunk| > 0
        && Chunks(chunker.p, old(Remaining())) == [r.chunk] + Chunks(chunker.p, Remaining())
        && old(Remaining()) == r.chunk + Remaining()
      ensures r.End? ==> old(Remaining()) == [] && Remaining() == []
      ensures r.Pending? || r.Error? ==> Remaining() == old(Remaining()) && |input| < |old(input)|
    {
      hide Chunks, Chunker.Scanned;
      while true
        invariant Valid() && |input| <= |old(input)|
        invariant Remaining() == old(Remaining())
        decreases |input|
      {
        var found := ScanBuffer();
        if found.Some? {
          ConcatAssoc(found.value, buffer, InputBytes(input));
          return Item(found.value);
        }
        assert buffer[..scanPos] == buffer;
        if input == [] {
          assert Remaining() == buffer;
          scanPos := 0;
          var tail := buffer;
          buffer := [];
          if tail == [] {
            return End;
          }
          chunker.ScannedHasNoCut(tail);
          Tail(chunker.p, tail);
          assert Remaining() == [];
          return Item(tail);
        }
        var next := input[0];
        TakeInput(buffer, input);
        input := input[1..];
        match next
        case NotReady => return Pending;
        case Failure => return Error;
        case Data(bytes) =>
          assert (buffer + bytes)[..scanPos] == buffer[..scanPos];
          buffer := buffer + bytes;
      }
    }
  }

  lemma NoChunks(p: Params)
    requires p.Valid()
    ensures Chunks(p, []) == []
  {
    assert FirstCut(p, []) == 0;
  }

  lemma Tail(p: Params, tail: Bytes)
    requires p.Valid() && tail != [] && FirstCut(p, tail) == 0
    ensures Chunks(p, tail) == [tail] + Chunks(p, [])
  {
    assert FirstCut(p, []) == 0;
  }

  /** Poll to the end: the chunk list depends on the concatenated input only, and loses no byte. */
  method Collect(p: Params, input: seq<Input>) returns (chunks: seq<Bytes>)
    requires p.Valid()
    ensures chunks == Chunks(p, InputBytes(input))
    ensures Flatten(chunks) == InputBytes(input) && SizesWithin(p, chunks)
  {
    hide Chunks;
    var stream := new ChunkStream(p, input);
    chunks := [];
    while true
      invariant stream.Valid() && stream.chunker.p == p && fresh(stream)
      invariant fresh(stream.chunker) && fresh(stream.chunker.window)
      invariant Chunks(p, InputBytes(input)) == chunks + Chunks(p, stream.Remaining())
      decreases |stream.Remaining()|, |stream.input|
    {
      var r := stream.PollNext();
      match r
      case End => NoChunks(p); break;
      case Item(chunk) =>
        ConcatAssoc(chunks, [chunk], Chunks(p, stream.Remaining()));
        chunks := chunks + [chunk];
      case Pending =>
      case Error =>
    }
    ChunksFlatten(p, InputBytes(input));
    ChunkSizes(p, InputBytes(input));
  }

  // ---- Fixed sized chunks ----

  ghost function FixedChunks(size: nat, s: Bytes): seq<Bytes>
    requires size > 0
    decreases |s|
  {
    if |s| >= size then [s[..size]] + FixedChunks(size, s[size..])
    else if s == [] then [] else [s]
  }

  class FixedChunkStream {
    const chunkSize: nat
    var buffer: Bytes
    var input: seq<Input>

    ghost function Remaining(): Bytes
      reads this
    {
      buffer + InputBytes(input)
    }

    constructor (chunkSize: nat, input: seq<Input>)
      ensures this.chunkSize == chunkSize && this.input == input && Remaining() == InputBytes(input)
    {
      this.chunkSize := chunkSize;
      buffer := [];
      this.input := input;
    }

    method PollNext() returns (r: Poll)
      requires chunkSize > 0
      modifies this
      ensures |input| <= |old(input)|
      ensures r.Item? ==>
        FixedChunks(chunkSize, old(Remaining())) == [r.chunk] + FixedChunks(chunkSize, Remaining())
      ensures r.Item? ==> |r.chunk| > 0 && old(Remaining()) == r.chunk + Remaining()
      ensures r.End? ==> old(Remaining()) == [] && Remaining() == []
      ensures r.Pending? || r.Error? ==> Remaining() == old(Remaining()) && |input| < |old(input)|
    {
      while true
        invariant |input| <= |old(input)|
        invariant Remaining() == old(Remaining())
        decreases |input|
      {
        if |buffer| >= chunkSize {
          var chunk := buffer[..chunkSize];
          ghost var all := Remaining();
          buffer := buffer[chunkSize..];
          assert all[..chunkSize] == chunk && all[chunkSize..] == Remaining();
          return Item(chunk);
        }
        if input == [] {
          var tail := buffer;
          buffer := [];
          assert tail + [] == tail;
          return if tail == [] then End else Item(tail);
        }
        var next := input[0];
        TakeInput(buffer, input);
        input := input[1..];
        match next
        case NotReady => return Pending;
        case Failure => return Error;
        case Data(bytes) => buffer := buffer + bytes;
      }
    }
  }

  method CollectFixed(chunkSize: nat, input: seq<Input>) returns (chunks: seq<Bytes>)
    requires chunkSize > 0
    ensures chunks == FixedChunks(chunkSize, InputBytes(input))
    ensures Flatten(chunks) == InputBytes(input)
    ensures forall i :: 0 <= i < |chunks| ==>
      0 < |chunks[i]| <= chunkSize && (i < |chunks| - 1 ==> |chunks[i]| == chunkSize)
  {
    var stream := new FixedChunkStream(chunkSize, input);
    chunks := [];
    while true
      invariant fresh(stream) && stream.chunkSize == chunkSize
      invariant FixedChunks(chunkSize, InputBytes(input)) == chunks + FixedChunks(chunkSize, stream.Remaining())
      decreases |stream.Remaining()|, |stream.input|
    {
      var r := stream.PollNext();
      match r
      case End => break;
      case Item(chunk) => chunks := chunks + [chunk];
      case Pending =>
      case Error =>
    }
    FixedChunksTile(chunkSize, InputBytes(input));
  }

  lemma {:induction false} FixedChunksTile(size: nat, s: Bytes)
    requires size > 0
    ensures var cs := FixedChunks(size, s);
            && Flatten(cs) == s
            && forall i :: 0 <= i < |cs| ==> 0 < |cs[i]| <= size && (i < |cs| - 1 ==> |cs[i]| == size)
    decreases |s|
  {
    if |s| >= size {
      FixedChunksTile(size, s[size..]);
      var rest := FixedChunks(size, s[size..]);
      assert ([s[..size]] + rest)[1..] == rest;
    } else if s != [] {
      assert Flatten([s]) == s + Flatten<byte>([]);
    }
  }
}
