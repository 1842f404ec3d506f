/** The iterative extraction over a catalog file: a stack machine that performs the recursive preorder walk. */
module CatalogExtract {
  import opened Common
  import opened Catalog
  import opened CatalogFile
  import opened CatalogWalk

  // ---- Extraction ----

  /** What the extractor is told to do. */
  datatype Action =
    | SetPath(path: Bytes)
    | Enter(path: Bytes, name: Bytes, create: bool)
    | Leave
    | ExtractEntry(path: Bytes, entry: DirEntry)
    | Unreadable(path: Bytes)

  /** The catalog file, the patterns, and whether there are none. */
  datatype Walker = Walker(file: Bytes, m: MatchList, matches: bool)

  function CreateDir(w: Walker, path: Bytes, mode: Option<nat>): bool {
    w.matches && w.m(path, mode) != Some(Exclude)
  }

  function DidMatch(w: Walker, path: Bytes, mode: Option<nat>): bool {
    match w.m(path, mode)
    case Some(Include) => true
    case Some(Exclude) => false
    case None => w.matches
  }

  /** Reference: the recursive preorder walk over the file, as if nothing but listing a directory could fail. */
  function WalkEach(w: Walker, start: nat, es: seq<DirEntry>, prefix: Bytes): seq<Action>
    decreases start, 1, |es|
  {
    if es == [] then []
    else
      var path := Extend(prefix, es[0].name);
      [SetPath(path)] + (Tail(w, start, path, es[0]) + WalkEach(w, start, es[1..], prefix))
  }

  /** The actions of an entry behind its SetPath. */
  function Tail(w: Walker, start: nat, path: Bytes, e: DirEntry): seq<Action>
    decreases start, 0, 0
  {
    if e.attr.Directory? then
      var es := ReadDir(w.file, e.attr.start);
      if e.attr.start >= start || es.Err? then [Unreadable(path)]
      else
        [Enter(path, e.name, CreateDir(w, path, Mode(e.attr)))]
        + (WalkEach(w, e.attr.start, es.value, path) + [Leave])
    else if DidMatch(w, path, Mode(e.attr)) then [ExtractEntry(path, e)]
    else []
  }

  function StartOf(dir: DirEntry): nat {
    if dir.attr.Directory? then dir.attr.start else 0
  }

  /** What is left to do in the directories on the stack, innermost first. */
  function Unwind(
    w: Walker, parents: seq<DirEntry>, dirs: seq<seq<DirEntry>>, lens: seq<nat>, path: Bytes): seq<Action>
    requires |parents| == |dirs| == |lens| && forall i :: 0 <= i < |lens| ==> lens[i] <= |path|
  {
    if dirs == [] then []
    else
      var n := |dirs| - 1;
      [Leave] + (WalkEach(w, StartOf(parents[n]), dirs[n], path[..lens[n]])
                 + Unwind(w, parents[..n], dirs[..n], lens[..n], path))
  }

  /** Only the part of the path below the recorded lengths matters. */
  lemma {:induction false} UnwindPath(
    w: Walker, parents: seq<DirEntry>, dirs: seq<seq<DirEntry>>, lens: seq<nat>, path: Bytes, path': Bytes, keep: nat)
    requires |parents| == |dirs| == |lens| && keep <= |path| && keep <= |path'| && path[..keep] == path'[..keep]
    requires forall i :: 0 <= i < |lens| ==> lens[i] <= keep
    ensures Unwind(w, parents, dirs, lens, path) == Unwind(w, parents, dirs, lens, path')
  {
    hide WalkEach, StartOf;
    if dirs != [] {
      var n := |dirs| - 1;
      UnwindPath(w, parents[..n], dirs[..n], lens[..n], path, path', keep);
      assert path[..lens[n]] == path[..keep][..lens[n]];
      assert path'[..lens[n]] == path'[..keep][..lens[n]];
    }
  }

  lemma UnwindPush(
    w: Walker, parents: seq<DirEntry>, dirs: seq<seq<DirEntry>>, lens: seq<nat>, parent: DirEntry,
    dir: seq<DirEntry>, len: nat, path: Bytes)
    requires |parents| == |dirs| == |lens| && len <= |path| && forall i :: 0 <= i < |lens| ==> lens[i] <= |path|
    ensures Unwind(w, parents + [parent], dirs + [dir], lens + [len], path)
         == [Leave] + (WalkEach(w, StartOf(parent), dir, path[..len]) + Unwind(w, parents, dirs, lens, path))
  {
    hide WalkEach, StartOf;
    var n := |dirs|;
    assert (dirs + [dir])[..n] == dirs && (lens + [len])[..n] == lens && (parents + [parent])[..n] == parents;
  }

  lemma UnwindPop(w: Walker, parents: seq<DirEntry>, dirs: seq<seq<DirEntry>>, lens: seq<nat>, path: Bytes)
    requires |parents| == |dirs| == |lens| && forall i :: 0 <= i < |lens| ==> lens[i] <= |path|
    ensures dirs == [] ==> Unwind(w, parents, dirs, lens, path) == []
    ensures dirs != [] ==>
      var n := |dirs| - 1;
      Unwind(w, parents, dirs, lens, path)
      == [Leave] + (WalkEach(w, StartOf(parents[n]), dirs[n], path[..lens[n]])
                    + Unwind(w, parents[..n], dirs[..n], lens[..n], path))
  {
  }

  predicate Fails(fails: Action -> bool, a: Action) {
    a.Unreadable? || (!a.SetPath? && fails(a))
  }

  /** Do the actions up to the first that fails. */
  function Perform(fails: Action -> bool, actions: seq<Action>): Outcome<Action> {
    if actions == [] then Outcome([], true)
    else if Fails(fails, actions[0]) then Outcome([], false)
    else Then(Outcome([actions[0]], true), Perform(fails, actions[1..]))
  }

  lemma {:induction false} PerformConcat(fails: Action -> bool, xs: seq<Action>, ys: seq<Action>)
    ensures Perform(fails, xs + ys) == Then(Perform(fails, xs), Perform(fails, ys))
  {
    if xs == [] {
      assert xs + ys == ys;
    } else {
      assert (xs + ys)[1..] == xs[1..] + ys;
      PerformConcat(fails, xs[1..], ys);
      ThenAssoc(Outcome([xs[0]], true), Perform(fails, xs[1..]), Perform(fails, ys));
    }
  }

  lemma PerformFirst(fails: Action -> bool, a: Action, rest: seq<Action>)
    ensures Perform(fails, [a] + rest) ==
      if Fails(fails, a) then Outcome([], false) else Then(Outcome([a], true), Perform(fails, rest))
  {
    assert ([a] + rest)[1..] == rest;
  }

  /** The recorded path lengths grow inwards. */
  predicate Grows(lens: seq<nat>, top: nat)
    ensures Grows(lens, top) ==> forall i :: 0 <= i < |lens| ==> lens[i] <= top
  {
    && (forall i :: 0 <= i < |lens| ==> lens[i] <= top)
    && (forall i, j :: 0 <= i < j < |lens| ==> lens[i] <= lens[j])
  }

  lemma GrowsPush(lens: seq<nat>, top: nat, top': nat)
    requires Grows(lens, top) && top <= top'
    ensures Grows(lens + [top], top')
  {
  }

  lemma GrowsPop(lens: seq<nat>, top: nat)
    requires Grows(lens, top) && lens != []
    ensures Grows(lens[..|lens| - 1], lens[|lens| - 1])
  {
  }

  class ExtractorState {
    const w: Walker
    const fails: Action -> bool
    var path: Bytes
    var pathLen: nat
    var pathLenStack: seq<nat>
    var dirStack: seq<DirEntry>
    var matches: bool
    var matchesStack: seq<bool>
    var readDir: seq<DirEntry>
    var readDirStack: seq<seq<DirEntry>>
    var done: seq<Action>

    /** The stacks move in step, dirStack one (the root) higher, and path lengths grow inwards. */
    ghost predicate Valid()
      reads this
    {
      && |pathLenStack| == |matchesStack| == |readDirStack| == |dirStack| - 1
      && (forall i :: 0 <= i < |dirStack| ==> dirStack[i].attr.Directory?)
      && pathLen <= |path| && Grows(pathLenStack, pathLen)
      && matches == w.matches
      && (forall i :: 0 <= i < |matchesStack| ==> matchesStack[i] == w.matches)
    }

    /** The directory that is being listed. */
    ghost function Current(): DirEntry
      requires Valid()
      reads this
    {
      dirStack[|dirStack| - 1]
    }

    ghost function Remaining(): seq<Action>
      requires Valid()
      reads this
    {
      WalkEach(w, StartOf(Current()), readDir, path[..pathLen])
      + Unwind(w, dirStack[..|dirStack| - 1], readDirStack, pathLenStack, path)
    }

    constructor (w: Walker, start: nat, root: seq<DirEntry>, fails: Action -> bool)
      ensures Valid() && this.w == w && this.fails == fails && done == []
      ensures Remaining() == WalkEach(w, start, root, [])
    {
      this.w, this.fails := w, fails;
      path, pathLen, pathLenStack := [], 0, [];
      dirStack := [DirEntry([], Directory(start))];
      matches, matchesStack := w.matches, [];
      readDir, readDirStack := root, [];
      done := [];
    }

    /** Go up one directory; false when the root is finished. The "internal iterator errors" never happen. */
    method HandleEndOfDirectory() returns (r: Result<bool>)
      requires Valid() && readDir == []
      modifies this
      ensures r.Ok? && !r.value ==> Valid() && old(Remaining()) == [] && done == old(done)
      ensures r.Err? || r.value ==> old(Remaining()) != [] && old(Remaining())[0] == Leave && (r.Ok? <==> !fails(Leave))
      ensures r.Ok? && r.value ==> Valid() && done == old(done) + [Leave] && Remaining() == old(Remaining())[1..]
      ensures r.Err? ==> done == old(done)
    {
      hide WalkEach, StartOf, Unwind, Grows;
      EmptyWalk(w, StartOf(Current()), path[..pathLen]);
      UnwindPop(w, dirStack[..|dirStack| - 1], readDirStack, pathLenStack, path);
      if readDirStack == [] {
        return Ok(false);
      }
      var n := |readDirStack| - 1;
      GrowsPop(pathLenStack, pathLen);
      ghost var was := dirStack[..n + 1];
      assert path[..pathLen][..pathLenStack[n]] == path[..pathLenStack[n]];
      readDir, readDirStack := readDirStack[n], readDirStack[..n];
      if matchesStack == [] {
        return Err;
      }
      matches, matchesStack := matchesStack[n], matchesStack[..n];
      if dirStack == [] {
        return Err;
      }
      dirStack := dirStack[..|dirStack| - 1];
      if pathLenStack == [] {
        return Err;
      }
      pathLen, pathLenStack := pathLenStack[n], pathLenStack[..n];
      assert dirStack[..n] == was[..n] && dirStack[n] == was[n];
      if fails(Leave) {
        return Err;
      }
      done := done + [Leave];
      return Ok(true);
    }

    /** Descend into a directory entry whose full path has just been set. */
    method HandleNewDirectory(entry: DirEntry) returns (ok: bool)
      requires Valid() && entry.attr.Directory?
      modifies this
      ensures var tail := Tail(w, StartOf(old(Current())), old(path), entry);
              && tail != [] && (ok <==> !Fails(fails, tail[0]))
              && (ok ==> Valid() && done == old(done) + [tail[0]] && Remaining() == tail[1..] + old(Remaining()))
              && (!ok ==> done == old(done))
    {
      hide WalkEach, Unwind, ReadDir, Grows;
      GrowsPush(pathLenStack, pathLen, |path|);
      ghost var was, parents := Remaining(), dirStack[..|dirStack| - 1];
      var es := ReadDir(w.file, entry.attr.start);
      if entry.attr.start >= dirStack[|dirStack| - 1].attr.start || es.Err? {
        return false;
      }
      var enter := Enter(path, entry.name, matches && w.m(path, Mode(entry.attr)) != Some(Exclude));
      if fails(enter) {
        return false;
      }
      UnwindPush(w, parents, readDirStack, pathLenStack, Current(), readDir, pathLen, path);
      assert parents + [Current()] == dirStack;
      readDirStack, readDir := readDirStack + [readDir], es.value;
      matchesStack := matchesStack + [matches];
      dirStack := dirStack + [entry];
      pathLenStack := pathLenStack + [pathLen];
      pathLen := |path|;
      done := done + [enter];
      assert dirStack[..|dirStack| - 1] == old(dirStack) && path[..pathLen] == path;
      ghost var inner := WalkEach(w, entry.attr.start, es.value, path);
      ConcatAssoc(inner, [Leave], was);
      assert ([enter] + (inner + [Leave]))[1..] == inner + [Leave];
      return true;
    }

    /** Performs the first action of the entry, if there is one; what follows is left to the loop. */
    method HandleEntry(entry: DirEntry) returns (ok: bool)
      requires Valid()
      modifies this
      ensures var tail := Tail(w, StartOf(old(Current())), old(path), entry);
              && (ok <==> tail == [] || !Fails(fails, tail[0]))
              && (ok && tail == [] ==> Valid() && done == old(done) && Remaining() == old(Remaining()))
              && (ok && tail != [] ==>
                    Valid() && done == old(done) + [tail[0]] && Remaining() == tail[1..] + old(Remaining()))
              && (!ok ==> done == old(done))
    {
      hide WalkEach, ReadDir, Unwind;
      var matchResult := w.m(path, Mode(entry.attr));
      var didMatch := match matchResult
        case Some(Include) => true
        case Some(Exclude) => false
        case None => matches;
      if entry.attr.Directory? {
        hide Tail;
        ok := HandleNewDirectory(entry);
      } else if didMatch {
        var extract := ExtractEntry(path, entry);
        if fails(extract) {
          return false;
        }
        dirStack := dirStack + [entry];
        done := done + [extract];
        dirStack := dirStack[..|dirStack| - 1];
        assert dirStack == old(dirStack);
        assert [extract][1..] + old(Remaining()) == old(Remaining());
        ok := true;
      } else {
        ok := true;
      }
    }

    /** Take the next entry and put its path together. */
    method NextEntry(entry: DirEntry)
      requires Valid() && readDir != [] && entry == readDir[0]
      modifies this
      ensures Valid() && Current() == old(Current()) && path == Extend(old(path[..pathLen]), entry.name)
      ensures done == old(done) + [SetPath(path)]
      ensures old(Remaining()) == [SetPath(path)] + (Tail(w, StartOf(Current()), path, entry) + Remaining())
    {
      hide WalkEach, Unwind, Tail;
      ghost var prefix, was, start := path[..pathLen], path, StartOf(Current());
      ghost var parents := dirStack[..|dirStack| - 1];
      WalkFirst(w, start, readDir, prefix);
      readDir := readDir[1..];
      path := path[..pathLen];
      if !(entry.name != [] && entry.name[0] == SLASH) {
        path := path + [SLASH];
      }
      path := path + entry.name;
      done := done + [SetPath(path)];
      assert path[..pathLen] == prefix;
      UnwindPath(w, parents, readDirStack, pathLenStack, was, path, pathLen);
      Regroup([SetPath(path)], Tail(w, start, path, entry), WalkEach(w, start, readDir, prefix),
              Unwind(w, parents, readDirStack, pathLenStack, path));
    }

    /** One turn of the loop for an entry. */
    method VisitEntry() returns (ok: bool, ghost acts: seq<Action>)
      requires Valid() && readDir != []
      modifies this
      ensures done == old(done) + acts && acts != []
      ensures ok ==> Valid() && Advances(fails, old(Remaining()), acts, Remaining())
      ensures !ok ==> StopsAfter(fails, old(Remaining()), acts)
    {
      hide WalkEach, Unwind, Tail, Valid, Remaining, StartOf, Current, Advances, StopsAfter;
      var entry := readDir[0];
      ghost var before := Remaining();
      NextEntry(entry);
      ghost var first, tail, mid := SetPath(path), Tail(w, StartOf(Current()), path, entry), Remaining();
      ok := HandleEntry(entry);
      acts := if ok && tail != [] then [first] + [tail[0]] else [first];
      EntryAdvances(fails, first, tail, mid, ok);
    }

    /** The loop: performs the actions of the recursive walk, once each and in order, up to the first that fails. */
    method Extract() returns (ok: bool)
      requires Valid()
      modifies this
      ensures var all := Perform(fails, old(Remaining()));
              done == old(done) + all.done && ok == all.ok
    {
      hide WalkEach, Unwind, Perform, Valid, Remaining, Ahead, Fails;
      ghost var all, did := Perform(fails, Remaining()), [];
      AheadStart(fails, Remaining());
      while true
        invariant Valid() && done == old(done) + did && Ahead(fails, all, did, Remaining())
        decreases |Remaining()|
      {
        ghost var before, acts := Remaining(), [];
        if readDir == [] {
          var more := HandleEndOfDirectory();
          if more.Ok? && !more.value {
            AheadEnd(fails, all, did);
            break;
          }
          ok := more.Ok?;
          acts := if ok then [Leave] else [];
          LeavesOrStops(fails, before, ok);
        } else {
          ok, acts := VisitEntry();
        }
        if !ok {
          AheadStops(fails, all, did, acts, before);
          ConcatAssoc(old(done), did, acts);
          return false;
        }
        AheadStep(fails, all, did, acts, before, Remaining());
        ConcatAssoc(old(done), did, acts);
        did := did + acts;
      }
      return true;
    }
  }

  /** Of what was to be done, acts was done, without failure, and rest remains. */
  ghost predicate Advances(fails: Action -> bool, before: seq<Action>, acts: seq<Action>, rest: seq<Action>) {
    before == acts + rest && forall a :: a in acts ==> !Fails(fails, a)
  }

  /** Of what was to be done, acts was done, and then an action failed. */
  ghost predicate StopsAfter(fails: Action -> bool, before: seq<Action>, acts: seq<Action>) {
    && |acts| < |before| && acts == before[..|acts|] && Fails(fails, before[|acts|])
    && forall a :: a in acts ==> !Fails(fails, a)
  }

  /** The path of an entry is set, and its first action is done if it has one and that does not fail. */
  lemma EntryAdvances(fails: Action -> bool, first: Action, tail: seq<Action>, mid: seq<Action>, ok: bool)
    requires !Fails(fails, first) && (ok <==> tail == [] || !Fails(fails, tail[0]))
    ensures var before := [first] + (tail + mid);
            && (ok && tail == [] ==> Advances(fails, before, [first], mid))
            && (ok && tail != [] ==> Advances(fails, before, [first] + [tail[0]], tail[1..] + mid))
            && (!ok ==> StopsAfter(fails, before, [first]))
  {
    hide Fails;
    if tail == [] {
      assert tail + mid == mid;
    } else {
      assert tail + mid == [tail[0]] + (tail[1..] + mid);
      ConcatAssoc([first], [tail[0]], tail[1..] + mid);
    }
  }

  lemma LeavesOrStops(fails: Action -> bool, before: seq<Action>, ok: bool)
    requires before != [] && before[0] == Leave && (ok <==> !fails(Leave))
    ensures ok ==> Advances(fails, before, [Leave], before[1..])
    ensures !ok ==> StopsAfter(fails, before, [])
  {
  }

  /** Of everything, did is done and rest is still to be done. */
  ghost predicate Ahead(fails: Action -> bool, all: Outcome<Action>, did: seq<Action>, rest: seq<Action>) {
    all == Then(Outcome(did, true), Perform(fails, rest))
  }

  lemma AheadStart(fails: Action -> bool, rest: seq<Action>)
    ensures Ahead(fails, Perform(fails, rest), [], rest)
  {
    hide Perform;
    assert [] + Perform(fails, rest).done == Perform(fails, rest).done;
  }

  lemma AheadEnd(fails: Action -> bool, all: Outcome<Action>, did: seq<Action>)
    requires Ahead(fails, all, did, [])
    ensures all == Outcome(did, true)
  {
    assert did + [] == did;
  }

  lemma {:induction false} PerformAll(fails: Action -> bool, acts: seq<Action>)
    requires forall a :: a in acts ==> !Fails(fails, a)
    ensures Perform(fails, acts) == Outcome(acts, true)
  {
    hide Fails;
    if acts != [] {
      PerformAll(fails, acts[1..]);
      assert acts == [acts[0]] + acts[1..];
    }
  }

  lemma AheadStep(
    fails: Action -> bool, all: Outcome<Action>, did: seq<Action>, acts: seq<Action>, before: seq<Action>,
    rest: seq<Action>)
    requires Ahead(fails, all, did, before) && Advances(fails, before, acts, rest)
    ensures Ahead(fails, all, did + acts, rest)
  {
    hide Fails, Perform;
    PerformAll(fails, acts);
    PerformConcat(fails, acts, rest);
    ConcatAssoc(did, acts, Perform(fails, rest).done);
  }

  lemma AheadStops(
    fails: Action -> bool, all: Outcome<Action>, did: seq<Action>, acts: seq<Action>, before: seq<Action>)
    requires Ahead(fails, all, did, before) && StopsAfter(fails, before, acts)
    ensures all == Outcome(did + acts, false)
  {
    hide Fails, Perform;
    var a, rest := before[|acts|], before[|acts| + 1..];
    assert before == acts + ([a] + rest);
    PerformAll(fails, acts);
    PerformConcat(fails, acts, [a] + rest);
    PerformFirst(fails, a, rest);
    assert acts + [] == acts;
  }

  lemma Regroup<T>(a: seq<T>, b: seq<T>, c: seq<T>, d: seq<T>)
    ensures (a + (b + c)) + d == a + (b + (c + d))
  {
  }

  lemma EmptyWalk(w: Walker, start: nat, prefix: Bytes)
    ensures WalkEach(w, start, [], prefix) == []
  {
  }

  lemma WalkFirst(w: Walker, start: nat, es: seq<DirEntry>, prefix: Bytes)
    requires es != []
    ensures var path := Extend(prefix, es[0].name);
            WalkEach(w, start, es, prefix)
            == [SetPath(path)] + (Tail(w, start, path, es[0]) + WalkEach(w, start, es[1..], prefix))
  {
  }

  // ---- Extraction of a recorded tree ----

  /** The preorder walk over a tree: every directory is entered, whatever the patterns say. */
  function Walk(m: MatchList, matches: bool, ts: seq<Tree>, prefix: Bytes): seq<Action>
    decreases ts
  {
    if ts == [] then [] else WalkTree(m, matches, ts[0], prefix) + Walk(m, matches, ts[1..], prefix)
  }

  function WalkTree(m: MatchList, matches: bool, t: Tree, prefix: Bytes): seq<Action>
    decreases t
  {
    var path, w := Extend(prefix, t.name), Walker([], m, matches);
    [SetPath(path)]
    + if t.Dir? then
        [Enter(path, t.name, CreateDir(w, path, FileMode(t)))] + (Walk(m, matches, t.children, path) + [Leave])
      else if DidMatch(w, path, FileMode(t)) then [ExtractEntry(path, DirEntry(t.name, t.attr))]
      else []
  }

  function Failing(fails: Action -> bool): Action -> bool {
    (a: Action) => Fails(fails, a)
  }

  /** Nothing below t is kept from being listed by a name that is too long. */
  ghost predicate Listable(t: Tree) {
    t.Dir? ==> ShortTrees(t.children)
  }

  lemma DoOne(fails: Action -> bool, a: Action)
    requires !a.Unreadable?
    ensures Achieves(Perform(fails, [a]), [a], true, Failing(fails))
  {
    PerformFirst(fails, a, []);
    assert [a] + [] == [a] && a in [a];
  }

  lemma DoNothing(fails: Action -> bool)
    ensures Achieves(Perform(fails, []), [], true, Failing(fails))
  {
  }

  lemma DoBoth(fails: Action -> bool, xs: seq<Action>, xs': seq<Action>, rx: bool,
               ys: seq<Action>, ys': seq<Action>, ry: bool)
    requires Achieves(Perform(fails, xs), xs', rx, Failing(fails))
    requires Achieves(Perform(fails, ys), ys', ry, Failing(fails))
    ensures Achieves(Perform(fails, xs + ys), xs' + ys', rx && ry, Failing(fails))
  {
    hide Achieves, Perform;
    PerformConcat(fails, xs, ys);
    AchievesThen(Perform(fails, xs), xs', rx, Perform(fails, ys), ys', ry, Failing(fails));
  }

  /** On a described list of entries the walk over the file is the walk over the trees, up to the first directory
      with a name that is too long and up to the first action that fails. */
  lemma {:induction false} WalkReads(
    w: Walker, blocks: Blocks, start: nat, es: seq<DirEntry>, ts: seq<Tree>, prefix: Bytes, fails: Action -> bool)
    requires BlocksWritten(blocks, w.file) && DescribesAll(blocks, es, ts, start)
    ensures Achieves(Perform(fails, WalkEach(w, start, es, prefix)), Walk(w.m, w.matches, ts, prefix),
                     forall i :: 0 <= i < |ts| ==> Listable(ts[i]), Failing(fails))
    decreases ts, 1
  {
    hide WalkEach, Walk, WalkTree, Tail, Perform, Achieves, Listable, BlocksWritten, Describes, Extend;
    if ts == [] {
      EmptyWalk(w, start, prefix);
      NoWalk(w.m, w.matches, prefix);
      DoNothing(fails);
    } else {
      var rest, path := ts[1..], Extend(prefix, es[0].name);
      assert Describes(blocks, es[0], ts[0], start) && DescribesAll(blocks, es[1..], rest, start);
      WalkReads(w, blocks, start, es[1..], rest, prefix, fails);
      WalkFirst(w, start, es, prefix);
      TreeWalkFirst(w.m, w.matches, ts, prefix);
      var others := forall i :: 0 <= i < |rest| ==> Listable(rest[i]);
      var tail, tail' := Tail(w, start, path, es[0]), TreeTail(w.m, w.matches, path, ts[0]);
      SameName(blocks, es[0], ts[0], start);
      if ts[0].Dir? {
        DescribedDir(blocks, es[0], ts[0], start);
        var at := es[0].attr.start;
        WalkReads(w, blocks, at, blocks[at], ts[0].children, path, fails);
      }
      TailReads(w, blocks, start, path, es[0], ts[0], fails);
      DoBoth(fails, tail, tail', Listable(ts[0]),
             WalkEach(w, start, es[1..], prefix), Walk(w.m, w.matches, rest, prefix), others);
      DoOne(fails, SetPath(path));
      DoBoth(fails, [SetPath(path)], [SetPath(path)], true,
             tail + WalkEach(w, start, es[1..], prefix), tail' + Walk(w.m, w.matches, rest, prefix),
             Listable(ts[0]) && others);
      AllListable(ts);
    }
  }

  lemma SameName(blocks: Blocks, e: DirEntry, t: Tree, bound: nat)
    requires Describes(blocks, e, t, bound)
    ensures e.name == t.name && Mode(e.attr) == FileMode(t) && (e.attr.Directory? <==> t.Dir?)
    ensures !t.Dir? ==> e == DirEntry(t.name, t.attr)
  {
  }

  lemma AllListable(ts: seq<Tree>)
    requires ts != []
    ensures (forall i :: 0 <= i < |ts| ==> Listable(ts[i])) <==>
      Listable(ts[0]) && forall i :: 0 <= i < |ts[1..]| ==> Listable(ts[1..][i])
  {
    hide Listable;
    var rest := ts[1..];
    if forall i :: 0 <= i < |rest| ==> Listable(rest[i]) {
      forall i | 0 < i < |ts|
        ensures Listable(ts[i])
      {
        assert ts[i] == rest[i - 1];
      }
    } else {
      var i :| 0 <= i < |rest| && !Listable(rest[i]);
      assert ts[i + 1] == rest[i];
    }
  }

  lemma NoWalk(m: MatchList, matches: bool, prefix: Bytes)
    ensures Walk(m, matches, [], prefix) == []
  {
  }

  /** The actions of a tree behind its SetPath. */
  function TreeTail(m: MatchList, matches: bool, path: Bytes, t: Tree): seq<Action> {
    var w := Walker([], m, matches);
    if t.Dir? then
      [Enter(path, t.name, CreateDir(w, path, FileMode(t)))] + (Walk(m, matches, t.children, path) + [Leave])
    else if DidMatch(w, path, FileMode(t)) then [ExtractEntry(path, DirEntry(t.name, t.attr))]
    else []
  }

  lemma TreeWalkFirst(m: MatchList, matches: bool, ts: seq<Tree>, prefix: Bytes)
    requires ts != []
    ensures var path := Extend(prefix, ts[0].name);
            Walk(m, matches, ts, prefix)
            == [SetPath(path)] + (TreeTail(m, matches, path, ts[0]) + Walk(m, matches, ts[1..], prefix))
  {
    var path := Extend(prefix, ts[0].name);
    assert WalkTree(m, matches, ts[0], prefix) == [SetPath(path)] + TreeTail(m, matches, path, ts[0]);
    ConcatAssoc([SetPath(path)], TreeTail(m, matches, path, ts[0]), Walk(m, matches, ts[1..], prefix));
  }

  /** One entry, given what the walk does below it. */
  lemma TailReads(
    w: Walker, blocks: Blocks, start: nat, path: Bytes, e: DirEntry, t: Tree, fails: Action -> bool)
    requires BlocksWritten(blocks, w.file) && Describes(blocks, e, t, start)
    requires t.Dir? ==>
      e.attr.start in blocks
      && Achieves(Perform(fails, WalkEach(w, e.attr.start, blocks[e.attr.start], path)),
               Walk(w.m, w.matches, t.children, path),
               forall i :: 0 <= i < |t.children| ==> Listable(t.children[i]), Failing(fails))
    ensures Achieves(Perform(fails, Tail(w, start, path, e)), TreeTail(w.m, w.matches, path, t), Listable(t),
                     Failing(fails))
  {
    hide WalkEach, Walk, Perform, Achieves, Describes, DescribesAll, ReadDir, BlockAt, Listable;
    SameName(blocks, e, t, start);
    if t.Dir? {
      DescribedDir(blocks, e, t, start);
      var at := e.attr.start;
      assert BlockAt(w.file, at, blocks[at]);
      ReadDirReads(w.file, at, blocks[at]);
      SameNames(blocks, blocks[at], t.children, at);
      ListableDir(t);
      if ShortNames(blocks[at]) {
        var enter := Enter(path, e.name, CreateDir(w, path, Mode(e.attr)));
        var inner, inner' := WalkEach(w, at, blocks[at], path), Walk(w.m, w.matches, t.children, path);
        DoOne(fails, enter);
        DoOne(fails, Leave);
        DoBoth(fails, inner, inner', Listable(t), [Leave], [Leave], true);
        DoBoth(fails, [enter], [enter], true, inner + [Leave], inner' + [Leave], Listable(t));
      } else {
        CannotList(fails, path, TreeTail(w.m, w.matches, path, t));
      }
    } else {
      assert Listable(t) by { LeafListable(t); }
      if DidMatch(w, path, Mode(e.attr)) {
        DoOne(fails, ExtractEntry(path, e));
      } else {
        DoNothing(fails);
      }
    }
  }

  lemma LeafListable(t: Tree)
    requires !t.Dir?
    ensures Listable(t)
  {
  }

  lemma ListableDir(t: Tree)
    requires t.Dir?
    ensures Listable(t) <==>
      forall i :: 0 <= i < |t.children| ==> |t.children[i].name| < NAME_LIMIT && Listable(t.children[i])
  {
    assert ShortTrees(t.children) <==> forall i :: 0 <= i < |t.children| ==> ShortTree(t.children[i]);
  }

  lemma CannotList(fails: Action -> bool, path: Bytes, all: seq<Action>)
    ensures Achieves(Perform(fails, [Unreadable(path)]), all, false, Failing(fails))
  {
  }

  /** Extracting from the root of a catalog file. */
  method ExtractAll(file: Bytes, m: MatchList, noPatterns: bool, fails: Action -> bool)
    returns (done: seq<Action>, ok: bool)
    ensures var root := Root(file);
            if root.Err? || ReadDir(file, root.value).Err? then done == [] && !ok
            else Outcome(done, ok) == Perform(fails, WalkEach(Walker(file, m, noPatterns), root.value,
                                                              ReadDir(file, root.value).value, []))
  {
    hide ReadDir, WalkEach, Perform;
    var root := Root(file);
    if root.Err? {
      return [], false;
    }
    var es := ReadDir(file, root.value);
    if es.Err? {
      return [], false;
    }
    var state := new ExtractorState(Walker(file, m, noPatterns), root.value, es.value, fails);
    ok := state.Extract();
    done := state.done;
    assert done == [] + Perform(fails, WalkEach(Walker(file, m, noPatterns), root.value, es.value, [])).done;
  }

  /** Extraction from the finished file of every successful list of calls performs the walk over the recorded tree
      in order. It stops early exactly if some name is too long or some action fails. */
  method ExtractCatalog(file: Bytes, m: MatchList, noPatterns: bool, fails: Action -> bool, ghost calls: seq<Call>)
    returns (done: seq<Action>, ok: bool)
    requires Run(calls).Ok? && FinishFile(Run(calls).value) == Ok(file)
    ensures |Recorded(calls)| == 1
    ensures var tree := Recorded(calls)[0].children;
            Achieves(Outcome(done, ok), Walk(m, noPatterns, tree, []), ShortTrees(tree), Failing(fails))
  {
    hide ReadDir, WalkEach, Walk, Perform, Achieves, ShortTrees, Run, Recorded, FinishFile;
    done, ok := ExtractAll(file, m, noPatterns, fails);
    CatalogWalkReads(file, m, noPatterns, fails, calls);
    NothingDone(Walk(m, noPatterns, Recorded(calls)[0].children, []), Failing(fails));
  }

  lemma NothingDone(all: seq<Action>, fails: Action -> bool)
    ensures Achieves(Outcome([], false), all, false, fails)
  {
  }

  lemma CatalogWalkReads(file: Bytes, m: MatchList, noPatterns: bool, fails: Action -> bool, calls: seq<Call>)
    requires Run(calls).Ok? && FinishFile(Run(calls).value) == Ok(file)
    ensures |Recorded(calls)| == 1 && Root(file).Ok?
    ensures var tree, root := Recorded(calls)[0].children, ReadDir(file, Root(file).value);
            if root.Err? then !ShortTrees(tree)
            else Achieves(Perform(fails, WalkEach(Walker(file, m, noPatterns), Root(file).value, root.value, [])),
                          Walk(m, noPatterns, tree, []), ShortTrees(tree), Failing(fails))
  {
    hide ReadDir, WalkEach, Walk, Perform, Achieves, Run, Recorded, FinishFile, BlockAt, DescribesAll;
    hide ShortTrees, Listable;
    var file', blocks := FinishedBlocks(calls);
    var start, tree := Root(file).value, Recorded(calls)[0].children;
    var es := blocks[start];
    assert BlockAt(file, start, es);
    ReadDirReads(file, start, es);
    SameNames(blocks, es, tree, start);
    ListableDir(Dir([], tree));
    RootListable(tree);
    assert ShortNames(es) ==> (ShortTrees(tree) <==> forall i :: 0 <= i < |tree| ==> Listable(tree[i]));
    WalkReads(Walker(file, m, noPatterns), blocks, start, es, tree, [], fails);
  }

  lemma RootListable(ts: seq<Tree>)
    ensures Listable(Dir([], ts)) <==> ShortTrees(ts)
  {
  }

  function PathsSet(actions: seq<Action>): seq<Bytes> {
    if actions == [] then []
    else (if actions[0].SetPath? then [actions[0].path] else []) + PathsSet(actions[1..])
  }

  function VisitPaths(vs: seq<Visit>): seq<Bytes> {
    if vs == [] then [] else [vs[0].path] + VisitPaths(vs[1..])
  }

  lemma {:induction false} PathsSetConcat(xs: seq<Action>, ys: seq<Action>)
    ensures PathsSet(xs + ys) == PathsSet(xs) + PathsSet(ys)
  {
    if xs == [] {
      assert xs + ys == ys;
    } else {
      assert (xs + ys)[1..] == xs[1..] + ys;
      PathsSetConcat(xs[1..], ys);
    }
  }

  lemma {:induction false} VisitPathsConcat(xs: seq<Visit>, ys: seq<Visit>)
    ensures VisitPaths(xs + ys) == VisitPaths(xs) + VisitPaths(ys)
  {
    if xs == [] {
      assert xs + ys == ys;
    } else {
      assert (xs + ys)[1..] == xs[1..] + ys;
      VisitPathsConcat(xs[1..], ys);
    }
  }

  /** The extraction visits every entry of the tree exactly once, in preorder, under its full path,
      whatever the patterns say: unlike the search it also descends into excluded directories. */
  lemma {:induction false} WalkVisitsAll(
    m: MatchList, matches: bool, ts: seq<Tree>, prefix: Bytes, above: seq<(Bytes, Option<nat>)>)
    ensures PathsSet(Walk(m, matches, ts, prefix)) == VisitPaths(Preorder(ts, prefix, above))
    decreases ts
  {
    hide PathsSet, VisitPaths, TreeTail, Walk;
    if ts != [] {
      var t, path := ts[0], Extend(prefix, ts[0].name);
      WalkVisitsAll(m, matches, ts[1..], prefix, above);
      TreeWalkFirst(m, matches, ts, prefix);
      var tail, rest := TreeTail(m, matches, path, t), Walk(m, matches, ts[1..], prefix);
      PathsSetConcat([SetPath(path)], tail + rest);
      PathsSetConcat(tail, rest);
      VisitPathsConcat(PreorderOf(t, prefix, above), Preorder(ts[1..], prefix, above));
      var below := above + [(path, FileMode(t))];
      if t.Dir? {
        WalkVisitsAll(m, matches, t.children, path, below);
      }
      EntryVisits(m, matches, t, path);
      VisitPathsConcat([Visit(path, FileMode(t), above)], if t.Dir? then Preorder(t.children, path, below) else []);
      OnePath(path, FileMode(t), above);
      ConcatAssoc([path], PathsSet(tail), PathsSet(rest));
    } else {
      assert PathsSet(Walk(m, matches, [], prefix)) == [] == VisitPaths([]) by { NoVisits(m, matches, prefix); }
    }
  }

  lemma NoVisits(m: MatchList, matches: bool, prefix: Bytes)
    ensures PathsSet(Walk(m, matches, [], prefix)) == [] == VisitPaths([])
  {
  }

  lemma OnePath(path: Bytes, mode: Option<nat>, above: seq<(Bytes, Option<nat>)>)
    ensures PathsSet([SetPath(path)]) == [path] == VisitPaths([Visit(path, mode, above)])
    ensures VisitPaths([]) == []
  {
  }

  /** Behind its own path an entry sets the paths of its children only. */
  lemma EntryVisits(m: MatchList, matches: bool, t: Tree, path: Bytes)
    ensures PathsSet(TreeTail(m, matches, path, t)) ==
      if t.Dir? then PathsSet(Walk(m, matches, t.children, path)) else []
  {
    hide Walk;
    if t.Dir? {
      var inner := Walk(m, matches, t.children, path);
      var enter := Enter(path, t.name, CreateDir(Walker([], m, matches), path, FileMode(t)));
      PathsSetConcat([enter], inner + [Leave]);
      PathsSetConcat(inner, [Leave]);
    }
  }

  /** e lies below the directory that lists ts, and its full path is path. */
  ghost predicate Lists(ts: seq<Tree>, prefix: Bytes, path: Bytes, e: Tree)
    decreases ts
  {
    exists i :: 0 <= i < |ts| && ListsAt(ts[i], prefix, path, e)
  }

  ghost predicate ListsAt(t: Tree, prefix: Bytes, path: Bytes, e: Tree)
    decreases t
  {
    var here := Extend(prefix, t.name);
    (t == e && here == path) || (t.Dir? && Lists(t.children, here, path, e))
  }

  /** Extracted is exactly what a pattern includes, and what no pattern decides when there are none;
      excluding a directory does not exclude the entries below it. */
  lemma {:induction false} WalkExtracts(
    m: MatchList, matches: bool, ts: seq<Tree>, prefix: Bytes, path: Bytes, e: Tree)
    requires !e.Dir?
    ensures ExtractEntry(path, DirEntry(e.name, e.attr)) in Walk(m, matches, ts, prefix) <==>
      && Lists(ts, prefix, path, e)
      && (m(path, FileMode(e)) == Some(Include) || (m(path, FileMode(e)) == None && matches))
    decreases ts
  {
    hide FileMode, Extend;
    if ts != [] {
      var rest := ts[1..];
      WalkExtracts(m, matches, rest, prefix, path, e);
      assert Lists(ts, prefix, path, e) <==> ListsAt(ts[0], prefix, path, e) || Lists(rest, prefix, path, e) by {
        if Lists(ts, prefix, path, e) && !ListsAt(ts[0], prefix, path, e) {
          var i :| 0 <= i < |ts| && ListsAt(ts[i], prefix, path, e);
          assert rest[i - 1] == ts[i];
        }
        if Lists(rest, prefix, path, e) {
          var i :| 0 <= i < |rest| && ListsAt(rest[i], prefix, path, e);
          assert ts[i + 1] == rest[i];
        }
      }
      if ts[0].Dir? {
        WalkExtracts(m, matches, ts[0].children, Extend(prefix, ts[0].name), path, e);
      }
    }
  }

  // ---- Directories are entered and left in step ----

  /** Every directory of the tree is entered under its path; it is created exactly if there are no patterns and
      none of them excludes it. */
  lemma {:induction false} WalkEnters(
    m: MatchList, matches: bool, ts: seq<Tree>, prefix: Bytes, path: Bytes, name: Bytes, create: bool)
    ensures Enter(path, name, create) in Walk(m, matches, ts, prefix) <==>
      && create == (matches && m(path, Some(16384)) != Some(Exclude))
      && exists e: Tree :: e.Dir? && e.name == name && Lists(ts, prefix, path, e)
    decreases ts
  {
    hide Extend;
    if ts != [] {
      var t, rest, here := ts[0], ts[1..], Extend(prefix, ts[0].name);
      WalkEnters(m, matches, rest, prefix, path, name, create);
      if t.Dir? {
        WalkEnters(m, matches, t.children, here, path, name, create);
      }
      forall e: Tree
        ensures Lists(ts, prefix, path, e) <==> ListsAt(t, prefix, path, e) || Lists(rest, prefix, path, e)
      {
        ListsFirst(ts, prefix, path, e);
      }
      EntersFirst(m, matches, t, prefix, path, name, create);
    }
  }

  lemma ListsFirst(ts: seq<Tree>, prefix: Bytes, path: Bytes, e: Tree)
    requires ts != []
    ensures Lists(ts, prefix, path, e) <==> ListsAt(ts[0], prefix, path, e) || Lists(ts[1..], prefix, path, e)
  {
    var rest := ts[1..];
    if Lists(ts, prefix, path, e) && !ListsAt(ts[0], prefix, path, e) {
      var i :| 0 <= i < |ts| && ListsAt(ts[i], prefix, path, e);
      assert rest[i - 1] == ts[i];
    }
    if Lists(rest, prefix, path, e) {
      var i :| 0 <= i < |rest| && ListsAt(rest[i], prefix, path, e);
      assert ts[i + 1] == rest[i];
    }
  }

  lemma EntersFirst(
    m: MatchList, matches: bool, t: Tree, prefix: Bytes, path: Bytes, name: Bytes, create: bool)
    ensures var here := Extend(prefix, t.name);
            Enter(path, name, create) in WalkTree(m, matches, t, prefix) <==>
              t.Dir? && (|| Enter(path, name, create) in Walk(m, matches, t.children, here)
                         || (path == here && name == t.name
                             && create == (matches && m(here, Some(16384)) != Some(Exclude))))
  {
    hide Extend, Walk;
  }

  /** The path names something directly in the directory. */
  ghost predicate InDir(path: Bytes, dir: Bytes) {
    |dir| < |path| && path[..|dir|] == dir && path[|dir|] == SLASH
  }

  /** Starting with these directories open, every path is set and every entry extracted in the innermost one, a
      directory is entered from the one it lies in, and in the end just those in `end` are open. */
  ghost predicate Nests(actions: seq<Action>, open: seq<Bytes>, end: seq<Bytes>)
    requires open != []
    decreases |actions|
  {
    var top := open[|open| - 1];
    if actions == [] then open == end
    else match actions[0]
      case SetPath(path) => InDir(path, top) && Nests(actions[1..], open, end)
      case ExtractEntry(path, _) => InDir(path, top) && Nests(actions[1..], open, end)
      case Enter(path, _, _) => InDir(path, top) && Nests(actions[1..], open + [path], end)
      case Leave => |open| > 1 && Nests(actions[1..], open[..|open| - 1], end)
      case Unreadable(_) => false
  }

  lemma ExtendInDir(prefix: Bytes, name: Bytes)
    ensures InDir(Extend(prefix, name), prefix)
  {
  }

  lemma {:induction false} WalkNestsThen(
    m: MatchList, matches: bool, ts: seq<Tree>, open: seq<Bytes>, rest: seq<Action>, end: seq<Bytes>)
    requires open != [] && Nests(rest, open, end)
    ensures Nests(Walk(m, matches, ts, open[|open| - 1]) + rest, open, end)
    decreases ts
  {
    hide Nests, Walk, TreeTail, Extend, InDir;
    var prefix := open[|open| - 1];
    if ts == [] {
      NoWalk(m, matches, prefix);
      assert [] + rest == rest;
    } else {
      var t, path := ts[0], Extend(prefix, ts[0].name);
      WalkNestsThen(m, matches, ts[1..], open, rest, end);
      var later := Walk(m, matches, ts[1..], prefix) + rest;
      if t.Dir? {
        var inside := open + [path];
        LeaveNests(inside, later, open, end);
        WalkNestsThen(m, matches, t.children, inside, [Leave] + later, end);
      }
      TailNests(m, matches, t, prefix, open, later, end);
      TreeWalkFirst(m, matches, ts, prefix);
      Regroup([SetPath(path)], TreeTail(m, matches, path, t), Walk(m, matches, ts[1..], prefix), rest);
    }
  }

  lemma LeaveNests(inside: seq<Bytes>, later: seq<Action>, open: seq<Bytes>, end: seq<Bytes>)
    requires open != [] && |inside| == |open| + 1 && inside[..|open|] == open && Nests(later, open, end)
    ensures Nests([Leave] + later, inside, end)
  {
    assert ([Leave] + later)[1..] == later;
  }

  lemma TailNests(
    m: MatchList, matches: bool, t: Tree, prefix: Bytes, open: seq<Bytes>, later: seq<Action>, end: seq<Bytes>)
    requires open != [] && open[|open| - 1] == prefix && Nests(later, open, end)
    requires var path := Extend(prefix, t.name);
             t.Dir? ==> Nests(Walk(m, matches, t.children, path) + ([Leave] + later), open + [path], end)
    ensures var path := Extend(prefix, t.name);
            Nests([SetPath(path)] + (TreeTail(m, matches, path, t) + later), open, end)
  {
    hide Walk, Extend, InDir, CreateDir, DidMatch;
    var path := Extend(prefix, t.name);
    var tail := TreeTail(m, matches, path, t);
    ExtendInDir(prefix, t.name);
    assert ([SetPath(path)] + (tail + later))[1..] == tail + later;
    if t.Dir? {
      var inner := Walk(m, matches, t.children, path);
      assert (tail + later)[1..] == inner + ([Leave] + later);
    } else if tail == [] {
      assert tail + later == later;
    } else {
      assert (tail + later)[1..] == later;
    }
  }

  /** The walk from the root: whatever is extracted goes into the directory that is open at that moment, and the root
      alone is open in the end. */
  lemma WalkNests(m: MatchList, matches: bool, ts: seq<Tree>)
    ensures Nests(Walk(m, matches, ts, []), [[]], [[]])
  {
    hide Walk;
    var actions := Walk(m, matches, ts, []);
    WalkNestsThen(m, matches, ts, [[]], [], [[]]);
    assert actions + [] == actions;
  }
}
