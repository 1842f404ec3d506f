/** The asynchronous index reader: a three state machine that refines a cursor over the flat content. */
module AsyncReader {
  import opened Common
  import opened IndexFile

  /** Spent: still waiting on a fetch that has already failed. */
  datatype ReadState = NoData | WaitForData(digest: Digest) | HaveData | Spent

  datatype Poll = Pending | Ready(bytes: Bytes) | Failed | Panicked

  /** The answer of the chunk store to a poll. */
  datatype Fetch = Waiting | Fetched(bytes: Bytes) | FetchFailed

  type Fetches = Digest -> Fetch

  /** Searching a dynamic index without entries panics. */
  datatype IndexKind = FixedKind | DynamicKind

  ghost predicate Honest(fetch: Fetches, data: ChunkData) {
    forall d: Digest :: fetch(d).Fetched? ==> fetch(d).bytes == data(d)
  }

  /** What a reader without a store still returns: an error, a panic, or bytes of its old buffer. */
  ghost predicate Stale(r: Poll, buffer: Bytes) {
    || r.Failed? || r.Panicked?
    || (r.Ready? && exists o: nat :: IsPart(r.bytes, buffer, o))
  }

  lemma PartIsStale(buffer: Bytes, o: nat, n: nat)
    requires o + n <= |buffer|
    ensures Stale(Ready(buffer[o..o + n]), buffer)
  {
    assert IsPart(buffer[o..o + n], buffer, o);
  }

  lemma NothingIsStale(buffer: Bytes)
    ensures Stale(Ready([]), buffer)
  {
    assert IsPart([], buffer, 0);
  }

  ghost predicate IsPart(part: Bytes, buffer: Bytes, o: nat) {
    o + |part| <= |buffer| && part == buffer[o..o + |part|]
  }

  class AsyncIndexReader {
    const infos: Infos
    const kind: IndexKind
    ghost const data: ChunkData
    var storeHeld: bool
    var readBuffer: Bytes
    var currentChunkOffset: nat
    var currentChunkIdx: nat
    var currentChunkInfo: Option<ChunkReadInfo>
    var position: nat
    var seekToPos: int
    var state: ReadState

    /** What holds in every state, whatever the caller does. */
    ghost predicate Shaped()
      reads this
    {
      && Tiles(infos) && Sized(infos, data)
      && (currentChunkInfo.Some? ==> currentChunkIdx < |infos| && currentChunkInfo.value == infos[currentChunkIdx])
      && (!state.NoData? ==> currentChunkInfo.Some?)
    }

    /** The buffer holds the current chunk, and the position is where the state says. */
    ghost predicate Valid()
      reads this
    {
      && Shaped() && position <= TotalSize(infos)
      && match state
         case NoData =>
           storeHeld && (currentChunkInfo.Some? ==> readBuffer == data(currentChunkInfo.value.digest))
         case WaitForData(digest) =>
           && !storeHeld && digest == currentChunkInfo.value.digest
           && Locate(infos, position) == Some((currentChunkIdx, currentChunkOffset))
         case HaveData =>
           && storeHeld && readBuffer == data(currentChunkInfo.value.digest)
           && Locate(infos, position) == Some((currentChunkIdx, currentChunkOffset))
         case Spent => false
    }

    /** The store went away with a fetch that was dropped or failed. */
    ghost predicate Lost()
      reads this
    {
      Shaped() && !storeHeld && !state.WaitForData?
    }

    constructor (infos: Infos, kind: IndexKind, ghost data: ChunkData)
      requires Tiles(infos) && Sized(infos, data)
      ensures Valid() && this.infos == infos && this.kind == kind && this.data == data
      ensures position == 0 && state.NoData? && readBuffer == [] && currentChunkInfo.None?
    {
      this.infos, this.kind := infos, kind;
      this.data := data;
      storeHeld, readBuffer := true, [];
      currentChunkOffset, currentChunkIdx, currentChunkInfo := 0, 0, None;
      position, seekToPos, state := 0, 0, NoData;
    }

    /** The next chunk to read from: the shortcut for sequential reads, else the index search. */
    function NextChunk(): Option<(nat, nat)>
      requires Shaped()
      reads this
    {
      if currentChunkInfo.Some? && position == currentChunkInfo.value.end then
        if currentChunkIdx + 1 >= |infos| then None else Some((currentChunkIdx + 1, 0))
      else Locate(infos, position)
    }

    /** The shortcut never changes the result. */
    lemma NextChunkLocates()
      requires Shaped()
      ensures NextChunk() == Locate(infos, position)
    {
      hide Locate;
      if currentChunkInfo.Some? && position == currentChunkInfo.value.end {
        var next := currentChunkIdx + 1;
        if next < |infos| {
          assert TileAt(infos, next);
          assert Holds(infos[next], position);
        }
      }
    }

    ghost predicate SearchPanics() {
      infos == [] && kind.DynamicKind?
    }

    /** The NoData arm: pick the chunk, then either reuse the buffer or start a fetch. */
    method Advance() returns (r: Option<Poll>)
      requires Shaped() && state.NoData?
      modifies this
      ensures Shaped() && position == old(position) && readBuffer == old(readBuffer)
      ensures old(Valid()) ==> Valid()
      ensures old(Lost()) ==> Lost()
      ensures r == Some(Panicked) <==> SearchPanics()
      ensures !SearchPanics() && old(NextChunk()).None? ==> r == Some(Ready([])) && state.NoData?
      ensures storeHeld ==> old(storeHeld)
      ensures old(NextChunk()).Some? ==>
        var (idx, offset) := old(NextChunk()).value;
        var old_info := old(currentChunkInfo);
        && currentChunkIdx == idx && currentChunkOffset == offset && currentChunkInfo == Some(infos[idx])
        && if old_info.Some? && old_info.value.digest == infos[idx].digest then
             r == None && state.HaveData? && storeHeld == old(storeHeld)
           else if !old(storeHeld) then r == Some(Failed) && state.NoData?
           else r == None && state == WaitForData(infos[idx].digest) && !storeHeld
      ensures old(NextChunk()).None? ==> r.Some? && storeHeld == old(storeHeld) && state.NoData?
    {
      hide Locate, Tiles, Sized;
      NextChunkLocates();
      if infos == [] && kind.DynamicKind? {
        return Some(Panicked); // the search underflows
      }
      var next := NextChunk();
      if next.None? {
        return Some(Ready([]));
      }
      var (idx, offset) := next.value;
      var info := infos[idx];
      currentChunkOffset := offset;
      currentChunkIdx := idx;
      var oldInfo := currentChunkInfo;
      currentChunkInfo := Some(info);
      if oldInfo.Some? && oldInfo.value.digest == info.digest {
        // hit, chunk is currently in cache
        state := HaveData;
        return None;
      }
      if !storeHeld {
        return Some(Failed);
      }
      storeHeld := false;
      state := WaitForData(info.digest);
      return None;
    }

    /** The HaveData arm: copy from the buffer. */
    method Serve(remaining: nat) returns (r: Poll)
      requires Shaped() && state.HaveData?
      modifies this
      ensures r.Ready? || r.Panicked?
      ensures old(currentChunkOffset) > |readBuffer| ==> r == Panicked
      ensures old(currentChunkOffset) <= |readBuffer| ==>
        var n := Min(|readBuffer| - old(currentChunkOffset), remaining);
        r == Ready(readBuffer[old(currentChunkOffset)..old(currentChunkOffset) + n])
      ensures readBuffer == old(readBuffer) && storeHeld == old(storeHeld) && Shaped() && !state.WaitForData?
      ensures Stale(r, readBuffer) && (r.Ready? ==> position == old(position) + |r.bytes|)
      ensures old(Valid()) ==>
        && Valid() && r.Ready?
        && |r.bytes| <= remaining && (remaining > 0 ==> |r.bytes| > 0)
        && position <= |Content(infos, data)| && r.bytes == Content(infos, data)[old(position)..position]
    {
      hide Locate, Content, Tiles, TotalSize, IsPart;
      var offset := currentChunkOffset;
      var len := |readBuffer|;
      if offset > len {
        return Panicked; // len - offset underflows
      }
      var n := if len - offset < remaining then len - offset else remaining;
      r := Ready(readBuffer[offset..offset + n]);
      PartIsStale(readBuffer, offset, n);
      if Valid() {
        ServedIsContent(infos, data, currentChunkIdx, offset, n);
      }
      position := position + n;
      if offset + n == len {
        state := NoData;
      } else {
        currentChunkOffset := currentChunkOffset + n;
        state := HaveData;
      }
    }

    /** A buffer hit for a read that starts in state NoData. */
    ghost predicate Hit()
      requires Shaped()
      reads this
    {
      state.NoData? && NextChunk().Some? && currentChunkInfo.Some?
      && currentChunkInfo.value.digest == infos[NextChunk().value.0].digest
    }

    /** The chunk this read has to wait for, if any. */
    ghost function Wanted(): Option<Digest>
      requires Shaped()
      reads this
    {
      if state.WaitForData? then Some(state.digest)
      else if state.NoData? && NextChunk().Some? && !Hit() && storeHeld then
        Some(infos[NextChunk().value.0].digest)
      else None
    }

    /** The WaitForData arm: poll the fetch. */
    method Await(fetch: Fetches) returns (r: Option<Poll>)
      requires Shaped() && state.WaitForData? && Honest(fetch, data)
      modifies this`readBuffer, this`state, this`storeHeld
      ensures Shaped()
      ensures match fetch(old(state).digest)
              case Waiting => r == Some(Pending) && state == old(state) && storeHeld == old(storeHeld)
              case Fetched(bytes) => r == None && state.HaveData? && storeHeld
              case FetchFailed => r == Some(Failed) && state.Spent? && storeHeld == old(storeHeld)
      ensures r.Some? ==> readBuffer == old(readBuffer)
      ensures old(Valid()) && r != Some(Failed) ==> Valid()
      ensures old(Valid()) && r == Some(Failed) ==> Lost()
    {
      hide Locate, Tiles, Sized;
      var answer := fetch(state.digest);
      match answer
      case Waiting =>
        return Some(Pending);
      case FetchFailed =>
        state := Spent;
        return Some(Failed);
      case Fetched(bytes) =>
        readBuffer := bytes;
        state := HaveData;
        storeHeld := true;
        return None;
    }

    /** A coherent reader serves the flat content at its position, and only the end of the content as nothing.
        It waits exactly for a chunk it wants, and only a failed fetch makes it fail. A reader that lost its
        store serves its old buffer or fails, and stays lost. */
    method PollRead(remaining: nat, fetch: Fetches) returns (r: Poll)
      requires (Valid() || Lost()) && Honest(fetch, data)
      modifies this
      ensures r.Pending? <==> !SearchPanics() && old(Wanted()).Some? && fetch(old(Wanted()).value).Waiting?
      ensures r.Pending? ==> position == old(position) && readBuffer == old(readBuffer) && state.WaitForData?
      ensures old(Valid()) && !r.Failed? ==> Valid() && (r.Panicked? <==> SearchPanics())
      ensures old(Valid()) && r.Failed? ==> old(Wanted()).Some? && fetch(old(Wanted()).value).FetchFailed? && Lost()
      ensures r.Ready? ==> position == old(position) + |r.bytes|
      ensures old(Valid()) && r.Ready? ==>
        && |r.bytes| <= remaining
        && (remaining > 0 && old(position) < TotalSize(infos) ==> |r.bytes| > 0)
        && position <= |Content(infos, data)| && r.bytes == Content(infos, data)[old(position)..position]
      ensures old(Lost()) ==> Lost() && readBuffer == old(readBuffer) && Stale(r, readBuffer)
      ensures old(Hit()) && old(NextChunk()).value.1 <= |old(readBuffer)| ==>
        var offset := old(NextChunk()).value.1;
        r == Ready(old(readBuffer)[offset..offset + Min(|old(readBuffer)| - offset, remaining)])
      ensures old(Lost() && state.NoData? && !Hit() && NextChunk().Some?) ==> r.Failed?
    {
      hide Locate, Content, Tiles, Sized, Honest, TotalSize, IsPart;
      NothingIsStale(readBuffer);
      if state.Spent? {
        return Panicked; // the future has completed
      }
      if state.NoData? {
        NextChunkLocates();
        if Valid() {
          ContentLength(infos, data);
        }
        var early := Advance();
        if early.Some? {
          return early.value;
        }
      }
      r := Continue(remaining, fetch);
    }

    /** Both other arms: a chunk is current. */
    method Continue(remaining: nat, fetch: Fetches) returns (r: Poll)
      requires (Valid() || Lost()) && (state.WaitForData? || state.HaveData?) && Honest(fetch, data)
      modifies this
      ensures r.Pending? <==> old(state).WaitForData? && fetch(old(state).digest).Waiting?
      ensures r.Failed? <==> old(state).WaitForData? && fetch(old(state).digest).FetchFailed?
      ensures r.Pending? ==> position == old(position) && readBuffer == old(readBuffer) && state.WaitForData?
      ensures old(Valid()) && !r.Failed? ==> Valid() && !r.Panicked?
      ensures r.Failed? ==> Lost()
      ensures r.Ready? ==> position == old(position) + |r.bytes|
      ensures old(Valid()) && r.Ready? ==>
        && |r.bytes| <= remaining && (remaining > 0 ==> |r.bytes| > 0)
        && position <= |Content(infos, data)| && r.bytes == Content(infos, data)[old(position)..position]
      ensures old(Lost()) ==> Lost() && readBuffer == old(readBuffer) && Stale(r, readBuffer)
      ensures old(state).HaveData? && old(currentChunkOffset) <= |old(readBuffer)| ==>
        var offset := old(currentChunkOffset);
        r == Ready(old(readBuffer)[offset..offset + Min(|old(readBuffer)| - offset, remaining)])
    {
      hide Locate, Content, Tiles, Sized, Honest, TotalSize, Stale;
      if state.WaitForData? {
        var early := Await(fetch);
        if early.Some? {
          return early.value;
        }
      }
      r := Serve(remaining);
    }

    method StartSeek(pos: SeekFrom)
      modifies this`seekToPos
      ensures seekToPos == Target(pos, position, TotalSize(infos))
    {
      seekToPos := match pos
        case FromStart(offset) => offset
        case FromEnd(delta) => TotalSize(infos) + delta
        case FromCurrent(delta) => position + delta;
    }

    /** The seek keeps the reader coherent unless a fetch was pending; then the store is lost. */
    method PollComplete() returns (r: Result<nat>)
      requires Valid() || Lost()
      modifies this`position, this`state
      ensures seekToPos < 0 ==> r.Err? && position == old(position) && state == old(state)
      ensures seekToPos >= 0 ==>
        && r == Ok(Min(seekToPos, TotalSize(infos))) && position == Min(seekToPos, TotalSize(infos)) && state.NoData?
        && (Lost() <==> old(Lost() || state.WaitForData?)) && (Valid() <==> !Lost())
    {
      var indexBytes := TotalSize(infos);
      if seekToPos < 0 {
        return Err;
      }
      position := if seekToPos > indexBytes then indexBytes else seekToPos;
      state := NoData;
      return Ok(position);
    }

    /** Where a seek leads: below 0 nowhere, beyond the end to the end. */
    method Seek(pos: SeekFrom) returns (r: Result<nat>)
      requires Valid() || Lost()
      modifies this`position, this`state, this`seekToPos
      ensures r.Err? <==> Target(pos, old(position), TotalSize(infos)) < 0
      ensures r.Err? ==> position == old(position) && (Valid() <==> old(Valid())) && (Lost() <==> old(Lost()))
      ensures r.Ok? ==>
        && r.value == position == Min(Target(pos, old(position), TotalSize(infos)), TotalSize(infos))
        && (Valid() <==> old(Valid() && !state.WaitForData?)) && (Lost() <==> !Valid()) && state.NoData?
      ensures r.Ok? && pos.FromStart? ==> position == Min(pos.offset, TotalSize(infos))
      ensures r.Ok? && pos.FromEnd? && pos.delta <= 0 ==> position == TotalSize(infos) + pos.delta
      ensures r.Ok? && pos.FromCurrent? && old(position) + pos.delta <= TotalSize(infos) ==>
        position == old(position) + pos.delta
      ensures readBuffer == old(readBuffer)
    {
      StartSeek(pos);
      r := PollComplete();
    }
  }

  // ---- A seek during a fetch ----

  datatype Operation = ReadUpTo(remaining: nat) | SeekTo(pos: SeekFrom)

  /** After a seek during a fetch the reader never recovers: whatever is read or sought afterwards, and whatever
      the store would answer, every read fails, panics or returns bytes of the buffer from before the fetch. */
  method ReadOn(reader: AsyncIndexReader, pos: SeekFrom, ops: seq<Operation>, fetch: nat -> Fetches)
    returns (log: seq<Poll>)
    requires reader.Valid() && reader.state.WaitForData? && forall i :: Honest(fetch(i), reader.data)
    requires Target(pos, reader.position, TotalSize(reader.infos)) >= 0
    modifies reader
    ensures forall i :: 0 <= i < |log| ==> Stale(log[i], old(reader.readBuffer))
    ensures reader.Lost() && reader.readBuffer == old(reader.readBuffer)
  {
    hide Stale, Honest;
    var _ := reader.Seek(pos);
    log := [];
    for i := 0 to |ops|
      invariant reader.Lost() && reader.readBuffer == old(reader.readBuffer)
      invariant forall j :: 0 <= j < |log| ==> Stale(log[j], old(reader.readBuffer))
    {
      match ops[i]
      case ReadUpTo(remaining) =>
        var r := reader.PollRead(remaining, fetch(i));
        log := log + [r];
      case SeekTo(next) =>
        var _ := reader.Seek(next);
    }
  }

  /** A new reader gets there: its first read waits, a seek back to the start follows, and the next read
      returns nothing, which means the end, although nothing of the content has been read. */
  method SeekDuringFetch(infos: Infos, kind: IndexKind, ghost data: ChunkData, remaining: nat, fetch: Fetches)
    returns (first: Poll, second: Poll, reader: AsyncIndexReader)
    requires infos != [] && Tiles(infos) && Sized(infos, data) && Honest(fetch, data)
    requires fetch(infos[0].digest).Waiting?
    ensures first == Pending && second == Ready([])
    ensures reader.infos == infos && reader.position == 0 < TotalSize(infos)
  {
    hide Locate, Content, Sized, Stale;
    WithinTotal(infos, 0);
    assert Holds(infos[0], 0) by { assert TileAt(infos, 0); }
    reader := new AsyncIndexReader(infos, kind, data);
    first := reader.PollRead(remaining, fetch);
    var _ := reader.Seek(FromStart(0));
    second := reader.PollRead(remaining, fetch);
  }

  /** A part of a chunk is that part of the content. */
  lemma ServedIsContent(infos: Infos, data: ChunkData, i: nat, offset: nat, n: nat)
    requires Tiles(infos) && Sized(infos, data) && i < |infos| && offset + n <= |data(infos[i].digest)|
    ensures var start := infos[i].start;
            && start + offset + n <= |Content(infos, data)| == TotalSize(infos)
            && data(infos[i].digest)[offset..offset + n] == Content(infos, data)[start + offset..start + offset + n]
            && (offset + n < |data(infos[i].digest)| ==>
                  Locate(infos, start + offset + n) == Some((i, offset + n)))
  {
    hide Locate, Content;
    ContentOfChunk(infos, data, i);
    var content, info := Content(infos, data), infos[i];
    SliceOfSlice(content, info.start, info.end, offset, offset + n);
    if offset + n < |data(info.digest)| {
      assert Holds(info, info.start + offset + n);
    }
  }
}
