/** The sweep over the chunk directories: the directory iterator, the unlink loop and its totals. */
module ChunkSweep {
  import opened Common
  import opened GarbageCollection

  // ---- Directory listings ----

  /** What a directory entry says it is; some file systems do not say. */
  datatype FileType = Regular | Other | Unknown

  /** One result of reading a directory; Broken is a read error. */
  datatype Item = Entry(file: string, kind: FileType) | Broken

  datatype Subdir = Missing | Unreadable | Listing(items: seq<Item>)

  /** A chunk file, by subdirectory number and file name. */
  datatype Name = Name(subdir: nat, file: string)

  datatype Yield = Found(name: Name, kind: FileType, bad: bool) | Failed

  predicate IsHexDigit(c: char) {
    '0' <= c <= '9' || 'a' <= c <= 'f' || 'A' <= c <= 'F'
  }

  /** A SHA-256 in hex, or the same with a suffix as long as ".0.bad". */
  predicate IsChunkName(file: string) {
    (|file| == 64 || |file| == 70) && forall i :: 0 <= i < 64 ==> IsHexDigit(file[i])
  }

  predicate IsBad(file: string) {
    |file| >= 4 && file[|file| - 4..] == ".bad"
  }

  /** Everything still to come when `items` remain of subdirectory `at - 1`. */
  function FromItems(subdirs: seq<Subdir>, at: nat, items: seq<Item>): seq<Yield>
    requires 0 < at <= |subdirs|
    decreases |subdirs| - at, |items| + 1
  {
    if items == [] then FromDirs(subdirs, at)
    else match items[0]
      case Broken => [Failed]
      case Entry(file, kind) =>
        var rest := FromItems(subdirs, at, items[1..]);
        if IsChunkName(file) then [Found(Name(at - 1, file), kind, IsBad(file))] + rest else rest
  }

  /** Everything still to come when subdirectory `at` is opened next; errors end the listing. */
  function FromDirs(subdirs: seq<Subdir>, at: nat): seq<Yield>
    requires at <= |subdirs|
    decreases |subdirs| - at, 0
  {
    if at == |subdirs| then []
    else match subdirs[at]
      case Missing => FromDirs(subdirs, at + 1)
      case Unreadable => [Failed]
      case Listing(items) => FromItems(subdirs, at + 1, items)
  }

  class ChunkIterator {
    const subdirs: seq<Subdir>
    var done: bool
    var inner: Option<seq<Item>>
    var at: nat

    ghost predicate Valid()
      reads this
    {
      at <= |subdirs| && (inner.Some? ==> at > 0)
    }

    ghost function Remaining(): seq<Yield>
      requires Valid()
      reads this
    {
      if done then []
      else if inner.Some? then FromItems(subdirs, at, inner.value)
      else FromDirs(subdirs, at)
    }

    constructor (subdirs: seq<Subdir>)
      ensures Valid() && this.subdirs == subdirs && Remaining() == FromDirs(subdirs, 0)
    {
      this.subdirs := subdirs;
      done, inner, at := false, None, 0;
    }

    method Next() returns (r: Option<Yield>)
      requires Valid()
      modifies this
      ensures Valid()
      ensures r.None? ==> old(Remaining()) == [] && Remaining() == []
      ensures r.Some? ==> old(Remaining()) == [r.value] + Remaining()
    {
      if done {
        return None;
      }
      while true
        invariant Valid() && !done && Remaining() == old(Remaining())
        decreases |subdirs| - at, if inner.Some? then |inner.value| + 1 else 0
      {
        if inner.Some? && inner.value != [] {
          var item := inner.value[0];
          inner := Some(inner.value[1..]);
          match item
          case Broken =>
            done := true;
            return Some(Failed);
          case Entry(file, kind) =>
            if !IsChunkName(file) {
              continue;
            }
            return Some(Found(Name(at - 1, file), kind, IsBad(file)));
        }
        assert Remaining() == FromDirs(subdirs, at) by {
          assert inner.Some? ==> FromItems(subdirs, at, []) == FromDirs(subdirs, at);
        }
        inner := None;
        if at == |subdirs| {
          done := true;
          return None;
        }
        var subdir := subdirs[at];
        at := at + 1;
        match subdir
        case Listing(items) => inner := Some(items);
        case Missing =>
        case Unreadable =>
          done := true;
          return Some(Failed);
      }
    }
  }

  /** No listing fails. */
  ghost predicate Readable(subdirs: seq<Subdir>) {
    forall k :: 0 <= k < |subdirs| ==> !subdirs[k].Unreadable? && (subdirs[k].Listing? ==> Broken !in subdirs[k].items)
  }

  ghost predicate Listed(subdirs: seq<Subdir>, name: Name, kind: FileType) {
    name.subdir < |subdirs| && subdirs[name.subdir].Listing? && Entry(name.file, kind) in subdirs[name.subdir].items
  }

  /** Without read errors the iterator visits the hash-named entries and nothing else. */
  lemma VisitsChunkFiles(subdirs: seq<Subdir>, y: Yield)
    requires Readable(subdirs)
    ensures y in FromDirs(subdirs, 0) <==>
      y.Found? && IsChunkName(y.name.file) && y.bad == IsBad(y.name.file) && Listed(subdirs, y.name, y.kind)
  {
    VisitsFromDirs(subdirs, 0, y);
  }

  ghost predicate Visits(subdirs: seq<Subdir>, at: nat, y: Yield) {
    y.Found? && IsChunkName(y.name.file) && y.bad == IsBad(y.name.file)
    && Listed(subdirs, y.name, y.kind) && y.name.subdir >= at
  }

  lemma {:induction false} VisitsFromDirs(subdirs: seq<Subdir>, at: nat, y: Yield)
    requires Readable(subdirs) && at <= |subdirs|
    ensures y in FromDirs(subdirs, at) <==> Visits(subdirs, at, y)
    decreases |subdirs| - at, 0
  {
    if at < |subdirs| {
      match subdirs[at]
      case Missing => VisitsFromDirs(subdirs, at + 1, y);
      case Listing(items) => VisitsFromItems(subdirs, at + 1, items, y);
    }
  }

  lemma {:induction false} VisitsFromItems(subdirs: seq<Subdir>, at: nat, items: seq<Item>, y: Yield)
    requires Readable(subdirs) && 0 < at <= |subdirs| && Broken !in items
    ensures y in FromItems(subdirs, at, items) <==>
      || Visits(subdirs, at, y)
      || (y.Found? && y.name.subdir == at - 1 && IsChunkName(y.name.file) && y.bad == IsBad(y.name.file)
          && Entry(y.name.file, y.kind) in items)
    decreases |subdirs| - at, |items| + 1
  {
    if items == [] {
      VisitsFromDirs(subdirs, at, y);
    } else {
      VisitsFromItems(subdirs, at, items[1..], y);
      assert items == [items[0]] + items[1..];
    }
  }

  ghost predicate DirReadable(subdir: Subdir) {
    !subdir.Unreadable? && (subdir.Listing? ==> Broken !in subdir.items)
  }

  /** A read error ends the listing, and only a read error is reported as one. */
  lemma FailureEnds(subdirs: seq<Subdir>)
    ensures var ys := FromDirs(subdirs, 0);
            && (Failed in ys <==> exists k :: 0 <= k < |subdirs| && !DirReadable(subdirs[k]))
            && forall i :: 0 <= i < |ys| && ys[i].Failed? ==> i == |ys| - 1
  {
    FailureInDirs(subdirs, 0);
  }

  lemma {:induction false} FailureInDirs(subdirs: seq<Subdir>, at: nat)
    requires at <= |subdirs|
    ensures var ys := FromDirs(subdirs, at);
            && (Failed in ys <==> exists k :: at <= k < |subdirs| && !DirReadable(subdirs[k]))
            && forall i :: 0 <= i < |ys| && ys[i].Failed? ==> i == |ys| - 1
    decreases |subdirs| - at, 0
  {
    if at < |subdirs| {
      match subdirs[at]
      case Missing => FailureInDirs(subdirs, at + 1);
      case Unreadable => assert !DirReadable(subdirs[at]);
      case Listing(items) => FailureInItems(subdirs, at + 1, items);
    }
  }

  lemma {:induction false} FailureInItems(subdirs: seq<Subdir>, at: nat, items: seq<Item>)
    requires 0 < at <= |subdirs|
    ensures var ys := FromItems(subdirs, at, items);
            && (Failed in ys <==> Broken in items || exists k :: at <= k < |subdirs| && !DirReadable(subdirs[k]))
            && forall i :: 0 <= i < |ys| && ys[i].Failed? ==> i == |ys| - 1
    decreases |subdirs| - at, |items| + 1
  {
    hide IsChunkName, IsBad, DirReadable;
    if items == [] {
      FailureInDirs(subdirs, at);
    } else if items[0].Entry? {
      FailureInItems(subdirs, at, items[1..]);
      assert items == [items[0]] + items[1..];
    } else {
      assert items[0] in items;
    }
  }

  // ---- Names of chunk files ----

  function HexDigit(n: nat): char
    requires n < 16
  {
    "0123456789abcdef"[n]
  }

  /** A digest as the store spells it. */
  function HexName(digest: Digest): (r: string)
    ensures |r| == 2 * |digest| && forall i :: 0 <= i < |r| ==> r[i] in "0123456789abcdef"
  {
    if digest == [] then ""
    else [HexDigit(digest[0] / 16), HexDigit(digest[0] % 16)] + HexName(digest[1..])
  }

  /** Without read errors the file of every digest is visited as a good chunk, and one that was renamed because it
      is corrupt as a bad one. */
  lemma DigestFilesVisited(subdirs: seq<Subdir>, k: nat, digest: Digest, kind: FileType)
    requires Readable(subdirs) && |digest| == 32 && k < |subdirs| && subdirs[k].Listing?
    ensures var file := HexName(digest);
            Entry(file, kind) in subdirs[k].items ==> Found(Name(k, file), kind, false) in FromDirs(subdirs, 0)
    ensures var file := HexName(digest) + ".0.bad";
            Entry(file, kind) in subdirs[k].items ==> Found(Name(k, file), kind, true) in FromDirs(subdirs, 0)
  {
    hide FromDirs, HexName, IsHexDigit, IsChunkName, IsBad;
    var good, bad := HexName(digest), HexName(digest) + ".0.bad";
    HexNames(digest);
    VisitsChunkFiles(subdirs, Found(Name(k, good), kind, false));
    VisitsChunkFiles(subdirs, Found(Name(k, bad), kind, true));
  }

  lemma HexNames(digest: Digest)
    requires |digest| == 32
    ensures IsChunkName(HexName(digest)) && !IsBad(HexName(digest))
    ensures IsChunkName(HexName(digest) + ".0.bad") && IsBad(HexName(digest) + ".0.bad")
  {
    hide HexName;
    var good, suffix := HexName(digest), ".0.bad";
    var bad := good + suffix;
    forall c | c in "0123456789abcdef"
      ensures IsHexDigit(c) && c != '.'
    {
    }
    assert good[60] in "0123456789abcdef" && good[60..][0] == good[60];
    assert bad[66..] == suffix[2..] == ".bad";
  }

  // ---- The sweep ----

  datatype FileStat = FileStat(atime: int, size: nat)

  datatype Status = Status(
    removedBytes: nat, removedChunks: nat, removedBad: nat,
    pendingBytes: nat, pendingChunks: nat, stillBad: nat,
    diskBytes: nat, diskChunks: nat)

  const NO_STATUS: Status := Status(0, 0, 0, 0, 0, 0, 0, 0)

  /** Account for one chunk file. */
  function Count(st: Status, stat: FileStat, bad: bool, cutoff: int, oldest: int): Status {
    if stat.atime < cutoff then
      st.(removedBytes := st.removedBytes + stat.size,
          removedChunks := st.removedChunks + (if bad then 0 else 1),
          removedBad := st.removedBad + (if bad then 1 else 0))
    else if stat.atime < oldest then
      st.(pendingBytes := st.pendingBytes + stat.size,
          pendingChunks := st.pendingChunks + (if bad then 0 else 1),
          stillBad := st.stillBad + (if bad then 1 else 0))
    else
      st.(diskBytes := st.diskBytes + stat.size,
          diskChunks := st.diskChunks + (if bad then 0 else 1))
  }

  /** The totals of a sweep over the visited entries, all measured before it began. */
  function Tally(files: map<Name, FileStat>, visited: seq<Yield>, cutoff: int, oldest: int): Status {
    if visited == [] then NO_STATUS
    else
      var st := Tally(files, visited[..|visited| - 1], cutoff, oldest);
      var y := visited[|visited| - 1];
      if y.Found? && y.kind.Regular? && y.name in files then Count(st, files[y.name], y.bad, cutoff, oldest) else st
  }

  ghost predicate IsVisited(visited: seq<Yield>, name: Name) {
    exists i :: 0 <= i < |visited| && visited[i].Found? && visited[i].kind.Regular? && visited[i].name == name
  }

  /** What is left after unlinking every visited file older than the cutoff. */
  ghost function Survivors(files: map<Name, FileStat>, visited: seq<Yield>, cutoff: int): map<Name, FileStat> {
    map n | n in files && !(IsVisited(visited, n) && files[n].atime < cutoff) :: files[n]
  }

  /** A directory never lists one file twice. */
  ghost predicate NamesDistinct(ys: seq<Yield>) {
    forall i, j :: 0 <= i < j < |ys| && ys[i].Found? && ys[j].Found? ==> ys[i].name != ys[j].name
  }

  lemma VisitedSnoc(visited: seq<Yield>, y: Yield)
    requires y.Found? && NamesDistinct(visited + [y])
    ensures !IsVisited(visited, y.name)
    ensures IsVisited(visited + [y], y.name) <==> y.kind.Regular?
    ensures forall n :: n != y.name ==> (IsVisited(visited + [y], n) <==> IsVisited(visited, n))
  {
    var all := visited + [y];
    forall i | 0 <= i < |visited|
      ensures all[i] == visited[i]
    {
    }
    assert all[|visited|] == y;
  }

  /** Visiting one more entry: its file has not been looked at before. */
  lemma SweepNext(files: map<Name, FileStat>, visited: seq<Yield>, y: Yield, cutoff: int, oldest: int)
    requires y.Found? && NamesDistinct(visited + [y])
    ensures var left, after := Survivors(files, visited, cutoff), Survivors(files, visited + [y], cutoff);
            && (y.name in left <==> y.name in files)
            && (y.name in left ==> left[y.name] == files[y.name])
            && after ==
                 if y.kind.Regular? && y.name in left && left[y.name].atime < cutoff then left - {y.name} else left
    ensures Tally(files, visited + [y], cutoff, oldest) ==
      var st := Tally(files, visited, cutoff, oldest);
      if y.kind.Regular? && y.name in files then Count(st, files[y.name], y.bad, cutoff, oldest) else st
  {
    hide IsVisited, Count;
    VisitedSnoc(visited, y);
    assert (visited + [y])[..|visited|] == visited;
  }

  lemma NothingVisited(files: map<Name, FileStat>, cutoff: int, oldest: int)
    ensures Survivors(files, [], cutoff) == files && Tally(files, [], cutoff, oldest) == NO_STATUS
  {
  }

  lemma DistinctPrefix(visited: seq<Yield>, y: Yield, rest: seq<Yield>)
    requires NamesDistinct(visited + ([y] + rest))
    ensures NamesDistinct(visited + [y])
  {
    var all := visited + ([y] + rest);
    assert all[..|visited| + 1] == visited + [y];
  }

  /** A read error, an entry of unknown type, or an old file that cannot be unlinked ends the sweep. */
  predicate Stops(files: map<Name, FileStat>, y: Yield, cutoff: int, stuck: set<Name>) {
    || y.Failed?
    || y.kind.Unknown?
    || (y.kind.Regular? && y.name in files && files[y.name].atime < cutoff && y.name in stuck)
  }

  class ChunkStore {
    var files: map<Name, FileStat>

    constructor (files: map<Name, FileStat>)
      ensures this.files == files
    {
      this.files := files;
    }

    /** Unlink what the mark phase left behind; `stuck` are the files that cannot be unlinked. */
    method SweepUnusedChunks(subdirs: seq<Subdir>, oldestWriter: int, phase1Start: int, stuck: set<Name>)
      returns (r: Result<Status>)
      requires NamesDistinct(FromDirs(subdirs, 0))
      modifies this
      ensures var visited := FromDirs(subdirs, 0); var cutoff := Cutoff(oldestWriter, phase1Start);
              && (r.Ok? ==> files == Survivors(old(files), visited, cutoff)
                            && r.value == Tally(old(files), visited, cutoff, oldestWriter))
              && (r.Err? <==> exists y :: y in visited && Stops(old(files), y, cutoff, stuck))
      ensures forall n ::
        n in old(files)
        && (old(files)[n].atime >= oldestWriter - 300 || old(files)[n].atime >= phase1Start - 86400 - 300) ==>
          n in files && files[n] == old(files)[n]
      ensures r.Ok? ==> forall n ::
        n in old(files) && IsVisited(FromDirs(subdirs, 0), n)
        && old(files)[n].atime < oldestWriter - 300 && old(files)[n].atime < phase1Start - 86400 - 300 ==>
          n !in files
    {
      hide Tally, NamesDistinct, Count, IsVisited, FromDirs;
      var minAtime := phase1Start - RELATIME_GAP;
      if oldestWriter < minAtime {
        minAtime := oldestWriter;
      }
      minAtime := minAtime - SAFETY_GAP;
      ghost var all, was := FromDirs(subdirs, 0), files;
      ghost var visited: seq<Yield> := [];
      var status := NO_STATUS;
      var it := new ChunkIterator(subdirs);
      NothingVisited(was, minAtime, oldestWriter);
      assert [] + all == all;
      while true
        invariant fresh(it) && it.Valid()
        invariant all == visited + it.Remaining()
        invariant files == Survivors(was, visited, minAtime)
        invariant status == Tally(was, visited, minAtime, oldestWriter)
        invariant forall y :: y in visited ==> !Stops(was, y, minAtime, stuck)
        decreases |it.Remaining()|
      {
        var next := it.Next();
        if next.None? {
          assert visited + [] == visited;
          return Ok(status);
        }
        var y := next.value;
        assert all[|visited|] == y;
        if y.Failed? {
          assert y in all && Stops(was, y, minAtime, stuck);
          return Err;
        }
        if y.kind.Unknown? {
          assert y in all && Stops(was, y, minAtime, stuck);
          return Err;
        }
        DistinctPrefix(visited, y, it.Remaining());
        SweepNext(was, visited, y, minAtime, oldestWriter);
        ConcatAssoc(visited, [y], it.Remaining());
        if y.kind.Regular? && y.name in files {
          var stat := files[y.name];
          if stat.atime < minAtime {
            if y.name in stuck {
              assert y in all && Stops(was, y, minAtime, stuck);
              return Err;
            }
            files := files - {y.name};
          }
          status := Count(status, stat, y.bad, minAtime, oldestWriter);
        }
        visited := visited + [y];
      }
    }
  }

  // ---- What the totals mean ----

  /** The bytes of the visited files in a class. */
  function SizeWhere(files: map<Name, FileStat>, visited: seq<Yield>, p: FileStat -> bool): nat {
    if visited == [] then 0
    else
      var y := visited[|visited| - 1];
      SizeWhere(files, visited[..|visited| - 1], p)
      + if y.Found? && y.kind.Regular? && y.name in files && p(files[y.name]) then files[y.name].size else 0
  }

  /** The number of visited files in a class, bad ones or good ones. */
  function CountWhere(files: map<Name, FileStat>, visited: seq<Yield>, bad: bool, p: FileStat -> bool): nat {
    if visited == [] then 0
    else
      var y := visited[|visited| - 1];
      CountWhere(files, visited[..|visited| - 1], bad, p)
      + if y.Found? && y.kind.Regular? && y.name in files && y.bad == bad && p(files[y.name]) then 1 else 0
  }

  function Older(cutoff: int): FileStat -> bool {
    (s: FileStat) => s.atime < cutoff
  }

  function Between(cutoff: int, oldest: int): FileStat -> bool {
    (s: FileStat) => cutoff <= s.atime < oldest
  }

  function InUse(cutoff: int, oldest: int): FileStat -> bool {
    (s: FileStat) => cutoff <= s.atime && oldest <= s.atime
  }

  /** Every counter counts its class of files; bad files in use are in no chunk counter. */
  lemma {:induction false} TallyMeans(files: map<Name, FileStat>, visited: seq<Yield>, cutoff: int, oldest: int)
    ensures var st := Tally(files, visited, cutoff, oldest);
            && st.removedBytes == SizeWhere(files, visited, Older(cutoff))
            && st.pendingBytes == SizeWhere(files, visited, Between(cutoff, oldest))
            && st.diskBytes == SizeWhere(files, visited, InUse(cutoff, oldest))
            && st.removedChunks == CountWhere(files, visited, false, Older(cutoff))
            && st.pendingChunks == CountWhere(files, visited, false, Between(cutoff, oldest))
            && st.diskChunks == CountWhere(files, visited, false, InUse(cutoff, oldest))
            && st.removedBad == CountWhere(files, visited, true, Older(cutoff))
            && st.stillBad == CountWhere(files, visited, true, Between(cutoff, oldest))
  {
    if visited != [] {
      TallyMeans(files, visited[..|visited| - 1], cutoff, oldest);
    }
  }

  function Any(): FileStat -> bool {
    _ => true
  }

  /** Every byte is removed, pending or on disk, and so is every file that is not bad. */
  lemma {:induction false} TallyConserves(files: map<Name, FileStat>, visited: seq<Yield>, cutoff: int, oldest: int)
    ensures var st := Tally(files, visited, cutoff, oldest);
            && st.removedBytes + st.pendingBytes + st.diskBytes == SizeWhere(files, visited, Any())
            && st.removedChunks + st.pendingChunks + st.diskChunks == CountWhere(files, visited, false, Any())
  {
    if visited != [] {
      TallyConserves(files, visited[..|visited| - 1], cutoff, oldest);
    }
  }

  // ---- What the totals mean for the store ----

  ghost function SumSizes(files: map<Name, FileStat>): nat {
    if files == map[] then 0
    else
      var n :| n in files;
      files[n].size + SumSizes(files - {n})
  }

  /** The sum does not depend on the order. */
  lemma {:induction false} SumRemove(files: map<Name, FileStat>, n: Name)
    requires n in files
    ensures SumSizes(files) == files[n].size + SumSizes(files - {n})
    decreases |files|
  {
    var m :| m in files && SumSizes(files) == files[m].size + SumSizes(files - {m});
    if m != n {
      SumRemove(files - {m}, n);
      SumRemove(files - {n}, m);
      assert files - {m} - {n} == files - {n} - {m};
    }
  }

  /** The regular files among the visited entries that are in a class, bad ones, good ones or both. */
  ghost function VisitedFiles(
    files: map<Name, FileStat>, visited: seq<Yield>, bad: set<bool>, p: FileStat -> bool): map<Name, FileStat>
  {
    map n | n in files && IsVisited(visited, n) && IsBad(n.file) in bad && p(files[n]) :: files[n]
  }

  ghost predicate FlagsRight(visited: seq<Yield>) {
    forall y :: y in visited && y.Found? ==> y.bad == IsBad(y.name.file)
  }

  lemma {:induction false} WhereSums(files: map<Name, FileStat>, visited: seq<Yield>, p: FileStat -> bool)
    requires NamesDistinct(visited)
    ensures SizeWhere(files, visited, p) == SumSizes(VisitedFiles(files, visited, {true, false}, p))
  {
    hide IsBad, IsVisited;
    var both := {true, false};
    if visited == [] {
      NothingIsVisited();
      assert VisitedFiles(files, visited, both, p) == map[];
    } else {
      var before, y := visited[..|visited| - 1], visited[|visited| - 1];
      assert visited == before + [y];
      WhereSums(files, before, p);
      VisitedFilesSnoc(files, before, y, both, p);
      if y.Found? && y.kind.Regular? && y.name in files && p(files[y.name]) {
        var now := VisitedFiles(files, visited, both, p);
        SumRemove(now, y.name);
        assert now - {y.name} == VisitedFiles(files, before, both, p);
      }
    }
  }

  lemma {:induction false} WhereCounts(
    files: map<Name, FileStat>, visited: seq<Yield>, bad: bool, p: FileStat -> bool)
    requires NamesDistinct(visited) && FlagsRight(visited)
    ensures CountWhere(files, visited, bad, p) == |VisitedFiles(files, visited, {bad}, p)|
  {
    hide IsBad, IsVisited;
    if visited == [] {
      NothingIsVisited();
      assert VisitedFiles(files, visited, {bad}, p) == map[];
    } else {
      var before, y := visited[..|visited| - 1], visited[|visited| - 1];
      assert visited == before + [y];
      WhereCounts(files, before, bad, p);
      VisitedFilesSnoc(files, before, y, {bad}, p);
    }
  }

  lemma NothingIsVisited()
    ensures forall n :: !IsVisited([], n)
  {
  }

  lemma VisitedFilesSnoc(
    files: map<Name, FileStat>, before: seq<Yield>, y: Yield, bad: set<bool>, p: FileStat -> bool)
    requires NamesDistinct(before + [y])
    ensures var was, now := VisitedFiles(files, before, bad, p), VisitedFiles(files, before + [y], bad, p);
            if y.Found? && y.kind.Regular? && y.name in files && IsBad(y.name.file) in bad && p(files[y.name])
            then y.name !in was && now == was[y.name := files[y.name]]
            else now == was
  {
    hide IsBad, IsVisited;
    if y.Found? {
      VisitedSnoc(before, y);
    } else {
      FailedVisitsNothing(before);
    }
  }

  lemma FailedVisitsNothing(before: seq<Yield>)
    ensures forall n :: IsVisited(before + [Failed], n) <==> IsVisited(before, n)
  {
    var all := before + [Failed];
    forall i | 0 <= i < |before|
      ensures all[i] == before[i]
    {
    }
  }

  /** The listings show the files of the store as they are, each once. */
  ghost predicate Faithful(subdirs: seq<Subdir>, files: map<Name, FileStat>) {
    && Readable(subdirs) && NamesDistinct(FromDirs(subdirs, 0))
    && forall n :: n in files <==> Listed(subdirs, n, Regular)
  }

  ghost function ChunkFilesOf(files: map<Name, FileStat>, bad: set<bool>, p: FileStat -> bool): map<Name, FileStat> {
    map n | n in files && IsChunkName(n.file) && IsBad(n.file) in bad && p(files[n]) :: files[n]
  }

  /** A faithful listing visits exactly the hash-named files of the store. */
  lemma VisitsStore(subdirs: seq<Subdir>, files: map<Name, FileStat>)
    requires Faithful(subdirs, files)
    ensures FlagsRight(FromDirs(subdirs, 0))
    ensures forall n :: n in files ==> (IsVisited(FromDirs(subdirs, 0), n) <==> IsChunkName(n.file))
  {
    hide IsChunkName, IsBad, FromDirs, Listed;
    var visited := FromDirs(subdirs, 0);
    forall y | y in visited && y.Found?
      ensures y.bad == IsBad(y.name.file)
    {
      VisitsChunkFiles(subdirs, y);
    }
    forall n | n in files
      ensures IsVisited(visited, n) <==> IsChunkName(n.file)
    {
      if IsChunkName(n.file) {
        VisitsChunkFiles(subdirs, Found(n, Regular, IsBad(n.file)));
      } else if i :| 0 <= i < |visited| && visited[i].Found? && visited[i].kind.Regular? && visited[i].name == n {
        VisitsChunkFiles(subdirs, visited[i]);
      }
    }
  }

  lemma SameFiles(files: map<Name, FileStat>, visited: seq<Yield>, bad: set<bool>, p: FileStat -> bool)
    requires forall n :: n in files ==> (IsVisited(visited, n) <==> IsChunkName(n.file))
    ensures VisitedFiles(files, visited, bad, p) == ChunkFilesOf(files, bad, p)
  {
    hide IsChunkName, IsBad, IsVisited;
  }

  lemma OfStore(subdirs: seq<Subdir>, files: map<Name, FileStat>, p: FileStat -> bool)
    requires Faithful(subdirs, files)
    ensures var visited := FromDirs(subdirs, 0);
            && SizeWhere(files, visited, p) == SumSizes(ChunkFilesOf(files, {true, false}, p))
            && CountWhere(files, visited, true, p) == |ChunkFilesOf(files, {true}, p)|
            && CountWhere(files, visited, false, p) == |ChunkFilesOf(files, {false}, p)|
  {
    hide IsChunkName, IsBad, FromDirs, SizeWhere, CountWhere, SumSizes, IsVisited, NamesDistinct, FlagsRight;
    hide VisitedFiles, ChunkFilesOf;
    var visited := FromDirs(subdirs, 0);
    VisitsStore(subdirs, files);
    WhereSums(files, visited, p);
    WhereCounts(files, visited, true, p);
    WhereCounts(files, visited, false, p);
    SameFiles(files, visited, {true, false}, p);
    SameFiles(files, visited, {true}, p);
    SameFiles(files, visited, {false}, p);
  }

  function Young(cutoff: int): FileStat -> bool {
    (s: FileStat) => s.atime >= cutoff
  }

  lemma {:induction false} YoungSizes(files: map<Name, FileStat>, visited: seq<Yield>, cutoff: int, oldest: int)
    ensures SizeWhere(files, visited, Young(cutoff)) ==
      SizeWhere(files, visited, Between(cutoff, oldest)) + SizeWhere(files, visited, InUse(cutoff, oldest))
  {
    if visited != [] {
      YoungSizes(files, visited[..|visited| - 1], cutoff, oldest);
    }
  }

  lemma LeftOfStore(subdirs: seq<Subdir>, files: map<Name, FileStat>, cutoff: int)
    requires Faithful(subdirs, files)
    ensures var left := Survivors(files, FromDirs(subdirs, 0), cutoff);
            && left == (map n | n in files && (IsChunkName(n.file) ==> files[n].atime >= cutoff) :: files[n])
            && ChunkFilesOf(left, {true, false}, Any()) == ChunkFilesOf(files, {true, false}, Young(cutoff))
  {
    hide IsChunkName, IsBad, FromDirs, IsVisited, Faithful;
    VisitsStore(subdirs, files);
  }

  /** On a faithful listing: the survivors are the files that are not hash-named or not older than the cutoff, each
      counter is the bytes or the number of its class of hash-named files, and no byte is lost: what was there is
      what was removed plus what remains. */
  lemma SweepOfStore(subdirs: seq<Subdir>, files: map<Name, FileStat>, cutoff: int, oldest: int)
    requires Faithful(subdirs, files)
    ensures var visited, both := FromDirs(subdirs, 0), {true, false};
            var st, left := Tally(files, visited, cutoff, oldest), Survivors(files, visited, cutoff);
            && left == (map n | n in files && (IsChunkName(n.file) ==> files[n].atime >= cutoff) :: files[n])
            && st.removedBytes == SumSizes(ChunkFilesOf(files, both, Older(cutoff)))
            && st.pendingBytes == SumSizes(ChunkFilesOf(files, both, Between(cutoff, oldest)))
            && st.diskBytes == SumSizes(ChunkFilesOf(files, both, InUse(cutoff, oldest)))
            && st.removedBytes + st.pendingBytes + st.diskBytes == SumSizes(ChunkFilesOf(files, both, Any()))
            && st.pendingBytes + st.diskBytes == SumSizes(ChunkFilesOf(left, both, Any()))
            && st.removedChunks == |ChunkFilesOf(files, {false}, Older(cutoff))|
            && st.pendingChunks == |ChunkFilesOf(files, {false}, Between(cutoff, oldest))|
            && st.diskChunks == |ChunkFilesOf(files, {false}, InUse(cutoff, oldest))|
            && st.removedBad == |ChunkFilesOf(files, {true}, Older(cutoff))|
            && st.stillBad == |ChunkFilesOf(files, {true}, Between(cutoff, oldest))|
  {
    hide IsChunkName, IsBad, FromDirs, Faithful, Tally, SizeWhere, CountWhere, SumSizes, IsVisited;
    hide NamesDistinct, FlagsRight;
    var visited, both := FromDirs(subdirs, 0), {true, false};
    TallyMeans(files, visited, cutoff, oldest);
    TallyConserves(files, visited, cutoff, oldest);
    var older, between, inUse := Older(cutoff), Between(cutoff, oldest), InUse(cutoff, oldest);
    OfStore(subdirs, files, older);
    OfStore(subdirs, files, between);
    OfStore(subdirs, files, inUse);
    OfStore(subdirs, files, Any());
    LeftOfStore(subdirs, files, cutoff);
    YoungSizes(files, visited, cutoff, oldest);
    OfStore(subdirs, files, Young(cutoff));
  }
}
