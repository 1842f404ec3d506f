/** The recursive pattern search over a catalog file. */
module CatalogWalk {
  import opened Common
  import opened Catalog
  import opened CatalogFile

  datatype MatchType = Include | Exclude

  /** A pattern list, as a function of path and file mode. */
  type MatchList = (Bytes, Option<nat>) -> Option<MatchType>

  /** The mode bits handed to the pattern list; hard links have none. */
  function Mode(attr: Attr): Option<nat> {
    match attr
    case Directory(_) => Some(0x4000)
    case File(_, _) => Some(0x8000)
    case Symlink => Some(0xa000)
    case Hardlink => None
    case BlockDevice => Some(0x6000)
    case CharDevice => Some(0x2000)
    case Fifo => Some(0x1000)
    case Socket => Some(0xc000)
  }

  /** The file type bits of each kind; no two kinds share them. */
  lemma ModeNumbers(a: Attr, b: Attr)
    ensures Mode(Directory(0)) == Some(16384) && Mode(File(0, 0)) == Some(32768) && Mode(Symlink) == Some(40960)
    ensures Mode(BlockDevice) == Some(24576) && Mode(CharDevice) == Some(8192) && Mode(Fifo) == Some(4096)
    ensures Mode(Socket) == Some(49152) && Mode(Hardlink) == None
    ensures Mode(a) == Mode(b) <==> EntryType(a) == EntryType(b)
  {
  }

  function FileMode(t: Tree): Option<nat> {
    if t.Dir? then Mode(Directory(0)) else Mode(t.attr)
  }

  /** Append a name; names that start with a slash bring their own separator. */
  function Extend(prefix: Bytes, name: Bytes): (r: Bytes)
    ensures prefix <= r
  {
    if name != [] && name[0] == SLASH then prefix + name else (prefix + [SLASH]) + name
  }

  // ---- Doing things one after the other, up to the first failure ----

  datatype Outcome<T> = Outcome(done: seq<T>, ok: bool)

  function Then<T>(first: Outcome<T>, rest: Outcome<T>): Outcome<T> {
    if first.ok then Outcome(first.done + rest.done, rest.ok) else first
  }

  /** Everything was done, in order, if all of it could be reached and nothing failed; else a first part of it. */
  ghost predicate Achieves<T(!new)>(r: Outcome<T>, all: seq<T>, reachable: bool, fails: T -> bool) {
    && r.done <= all
    && (r.ok <==> reachable && forall x :: x in all ==> !fails(x))
    && (r.ok ==> r.done == all)
  }

  lemma AchievesThen<T(!new)>(
    a: Outcome<T>, xs: seq<T>, ra: bool, b: Outcome<T>, ys: seq<T>, rb: bool, fails: T -> bool)
    requires Achieves(a, xs, ra, fails) && Achieves(b, ys, rb, fails)
    ensures Achieves(Then(a, b), xs + ys, ra && rb, fails)
  {
    if a.ok {
      assert xs + b.done <= xs + ys;
    }
  }

  // ---- Find ----

  /** An entry of the tree with its full path and the entries on the way down to it. */
  datatype Visit = Visit(path: Bytes, mode: Option<nat>, above: seq<(Bytes, Option<nat>)>)

  /** Every entry below a directory, in preorder. */
  function Preorder(ts: seq<Tree>, prefix: Bytes, above: seq<(Bytes, Option<nat>)>): seq<Visit>
    decreases ts
  {
    if ts == [] then []
    else PreorderOf(ts[0], prefix, above) + Preorder(ts[1..], prefix, above)
  }

  function PreorderOf(t: Tree, prefix: Bytes, above: seq<(Bytes, Option<nat>)>): seq<Visit>
    decreases t
  {
    var path := Extend(prefix, t.name);
    [Visit(path, FileMode(t), above)]
    + if t.Dir? then Preorder(t.children, path, above + [(path, FileMode(t))]) else []
  }

  ghost predicate NoneExcluded(m: MatchList, above: seq<(Bytes, Option<nat>)>) {
    forall i :: 0 <= i < |above| ==> m(above[i].0, above[i].1) != Some(Exclude)
  }

  /** Included itself, and below no excluded directory. */
  ghost predicate Selected(m: MatchList, v: Visit) {
    m(v.path, v.mode) == Some(Include) && NoneExcluded(m, v.above)
  }

  ghost function SelectedPaths(m: MatchList, vs: seq<Visit>): seq<Bytes> {
    if vs == [] then []
    else (if Selected(m, vs[0]) then [vs[0].path] else []) + SelectedPaths(m, vs[1..])
  }

  lemma {:induction false} SelectedPathsConcat(m: MatchList, xs: seq<Visit>, ys: seq<Visit>)
    ensures SelectedPaths(m, xs + ys) == SelectedPaths(m, xs) + SelectedPaths(m, ys)
  {
    if xs == [] {
      assert xs + ys == ys;
    } else {
      assert (xs + ys)[1..] == xs[1..] + ys;
      SelectedPathsConcat(m, xs[1..], ys);
    }
  }

  /** Nothing is selected below an excluded directory. */
  lemma {:induction false} NothingSelected(m: MatchList, ts: seq<Tree>, prefix: Bytes, above: seq<(Bytes, Option<nat>)>)
    requires !NoneExcluded(m, above)
    ensures SelectedPaths(m, Preorder(ts, prefix, above)) == []
    decreases ts
  {
    if ts != [] {
      var t, path := ts[0], Extend(prefix, ts[0].name);
      var below := above + [(path, FileMode(t))];
      assert !NoneExcluded(m, below) by {
        var i :| 0 <= i < |above| && m(above[i].0, above[i].1) == Some(Exclude);
        assert below[i] == above[i];
      }
      var inner := if t.Dir? then Preorder(t.children, path, below) else [];
      if t.Dir? {
        NothingSelected(m, t.children, path, below);
      }
      SelectedPathsConcat(m, [Visit(path, FileMode(t), above)], inner);
      NothingSelected(m, ts[1..], prefix, above);
      SelectedPathsConcat(m, PreorderOf(t, prefix, above), Preorder(ts[1..], prefix, above));
    }
  }

  /** What one entry contributes when no directory above it is excluded. */
  lemma SelectedOf(m: MatchList, t: Tree, prefix: Bytes, above: seq<(Bytes, Option<nat>)>)
    requires NoneExcluded(m, above)
    ensures var path := Extend(prefix, t.name); var mode := FileMode(t);
            var below := above + [(path, mode)];
            && NoneExcluded(m, below) == (m(path, mode) != Some(Exclude))
            && SelectedPaths(m, PreorderOf(t, prefix, above)) ==
                 if m(path, mode) == Some(Exclude) then []
                 else (if m(path, mode) == Some(Include) then [path] else [])
                      + (if t.Dir? then SelectedPaths(m, Preorder(t.children, path, below)) else [])
  {
    var path, mode := Extend(prefix, t.name), FileMode(t);
    var below := above + [(path, mode)];
    assert below[|above|] == (path, mode);
    var visit := Visit(path, mode, above);
    var inner := if t.Dir? then Preorder(t.children, path, below) else [];
    SelectedPathsConcat(m, [visit], inner);
    assert [visit][1..] == [];
    if t.Dir? && m(path, mode) == Some(Exclude) {
      NothingSelected(m, t.children, path, below);
    }
  }

  /** The search below a directory; a directory that does not lie before its parent would never end. */
  function FindIn(file: Bytes, start: nat, prefix: Bytes, m: MatchList, refuses: Bytes -> bool): Outcome<Bytes>
    decreases start, 1, 0
  {
    var es := ReadDir(file, start);
    if es.Err? then Outcome([], false) else FindEach(file, start, es.value, prefix, m, refuses)
  }

  function FindEach(
    file: Bytes, start: nat, es: seq<DirEntry>, prefix: Bytes, m: MatchList, refuses: Bytes -> bool): Outcome<Bytes>
    decreases start, 0, |es| + 1
  {
    if es == [] then Outcome([], true)
    else Then(FindAt(file, start, es[0], prefix, m, refuses), FindEach(file, start, es[1..], prefix, m, refuses))
  }

  function FindAt(
    file: Bytes, start: nat, e: DirEntry, prefix: Bytes, m: MatchList, refuses: Bytes -> bool): Outcome<Bytes>
    decreases start, 0, 0
  {
    var path := Extend(prefix, e.name);
    match m(path, Mode(e.attr))
    case Some(Exclude) => Outcome([], true)
    case verdict =>
      Then(if verdict == Some(Include) then Outcome([path], !refuses(path)) else Outcome([], true),
           if !e.attr.Directory? then Outcome([], true)
           else if e.attr.start >= start then Outcome([], false)
           else FindIn(file, e.attr.start, path, m, refuses))
  }

  lemma ThenAssoc<T>(a: Outcome<T>, b: Outcome<T>, c: Outcome<T>)
    ensures Then(Then(a, b), c) == Then(a, Then(b, c))
    ensures a.ok ==> Then(a, Outcome([], true)) == a && Then(Outcome([], true), a) == a
  {
    if a.ok && b.ok {
      ConcatAssoc(a.done, b.done, c.done);
    }
  }

  /** The loop over a directory, with one path buffer for all entries. */
  method Find(file: Bytes, start: nat, filePath: Bytes, m: MatchList, refuses: Bytes -> bool)
    returns (called: seq<Bytes>, restored: Bytes, ok: bool)
    ensures Outcome(called, ok) == FindIn(file, start, filePath, m, refuses)
    ensures ok ==> restored == filePath
    decreases start, 1
  {
    hide FindAt, ReadDir;
    var fileLen, path := |filePath|, filePath;
    var es := ReadDir(file, start);
    if es.Err? {
      return [], path, false;
    }
    called := [];
    ghost var all := FindEach(file, start, es.value, filePath, m, refuses);
    assert es.value[0..] == es.value;
    for i := 0 to |es.value|
      invariant filePath <= path
      invariant all == Then(Outcome(called, true), FindEach(file, start, es.value[i..], filePath, m, refuses))
    {
      assert es.value[i..][1..] == es.value[i + 1..] && es.value[i..][0] == es.value[i];
      assert path[..fileLen] == filePath;
      var inner;
      inner, path, ok := FindEntry(file, start, es.value[i], path, fileLen, m, refuses);
      ThenAssoc(Outcome(called, true), Outcome(inner, ok),
                FindEach(file, start, es.value[i + 1..], filePath, m, refuses));
      called := called + inner;
      if !ok {
        return called, path, false;
      }
    }
    return called, path[..fileLen], true;
  }

  /** The loop body: extend the path, ask the patterns, call back, descend. */
  method FindEntry(
    file: Bytes, start: nat, e: DirEntry, buffer: Bytes, fileLen: nat, m: MatchList, refuses: Bytes -> bool)
    returns (called: seq<Bytes>, path: Bytes, ok: bool)
    requires fileLen <= |buffer|
    ensures Outcome(called, ok) == FindAt(file, start, e, buffer[..fileLen], m, refuses)
    ensures ok ==> buffer[..fileLen] <= path
    decreases start, 0
  {
    hide FindIn;
    path := buffer[..fileLen];
    if !(e.name != [] && e.name[0] == SLASH) {
      path := path + [SLASH];
    }
    path := path + e.name;
    var verdict := m(path, Mode(e.attr));
    if verdict == Some(Exclude) {
      return [], path, true;
    }
    called := if verdict == Some(Include) then [path] else [];
    if verdict == Some(Include) && refuses(path) {
      return called, path, false;
    }
    if !e.attr.Directory? {
      return called, path, true;
    }
    if e.attr.start >= start {
      return called, path, false;
    }
    var inner;
    inner, path, ok := Find(file, e.attr.start, path, m, refuses);
    called := called + inner;
  }

  /** No name that is too long stands in a directory the search has to list. */
  ghost predicate Searchable(m: MatchList, ts: seq<Tree>, prefix: Bytes)
    decreases ts
  {
    forall i :: 0 <= i < |ts| ==> |ts[i].name| < NAME_LIMIT && SearchableAt(m, ts[i], prefix)
  }

  ghost predicate SearchableAt(m: MatchList, t: Tree, prefix: Bytes)
    decreases t
  {
    var path := Extend(prefix, t.name);
    t.Dir? && m(path, FileMode(t)) != Some(Exclude) ==> Searchable(m, t.children, path)
  }

  /** In a described directory the search calls back on exactly the selected entries, in preorder. It fails exactly
      if it has to list a directory with a name that is too long, or if a callback fails; excluded directories
      are not listed. */
  lemma {:induction false} FindReads(
    file: Bytes, blocks: Blocks, start: nat, ts: seq<Tree>, prefix: Bytes, m: MatchList, refuses: Bytes -> bool,
    above: seq<(Bytes, Option<nat>)>)
    requires BlocksWritten(blocks, file) && start in blocks && DescribesAll(blocks, blocks[start], ts, start)
    requires NoneExcluded(m, above)
    ensures Achieves(FindIn(file, start, prefix, m, refuses), SelectedPaths(m, Preorder(ts, prefix, above)),
                     Searchable(m, ts, prefix), refuses)
    decreases ts, 1
  {
    hide ReadDir, BlockAt, FindEach, SelectedPaths, Preorder, NoneExcluded;
    var es := blocks[start];
    assert BlockAt(file, start, es);
    ReadDirReads(file, start, es);
    SameNames(blocks, es, ts, start);
    if ShortNames(es) {
      FindEachReads(file, blocks, start, es, ts, prefix, m, refuses, above);
      assert Searchable(m, ts, prefix) <==> forall i :: 0 <= i < |ts| ==> SearchableAt(m, ts[i], prefix);
    }
  }

  lemma {:induction false} FindEachReads(
    file: Bytes, blocks: Blocks, start: nat, es: seq<DirEntry>, ts: seq<Tree>, prefix: Bytes, m: MatchList,
    refuses: Bytes -> bool, above: seq<(Bytes, Option<nat>)>)
    requires BlocksWritten(blocks, file) && DescribesAll(blocks, es, ts, start) && NoneExcluded(m, above)
    ensures Achieves(FindEach(file, start, es, prefix, m, refuses), SelectedPaths(m, Preorder(ts, prefix, above)),
                     forall i :: 0 <= i < |ts| ==> SearchableAt(m, ts[i], prefix), refuses)
    decreases ts, 0
  {
    hide SelectedPaths, NoneExcluded, PreorderOf, SearchableAt, FindAt, Achieves, Describes, BlocksWritten;
    if ts == [] {
      NothingToFind(m, refuses);
    } else {
      var t, rest := ts[0], ts[1..];
      assert Describes(blocks, es[0], t, start) && DescribesAll(blocks, es[1..], rest, start);
      FindEachReads(file, blocks, start, es[1..], rest, prefix, m, refuses, above);
      if t.Dir? {
        var path := Extend(prefix, t.name);
        var below := above + [(path, FileMode(t))];
        DescribedDir(blocks, es[0], t, start);
        SelectedOf(m, t, prefix, above);
        if m(path, FileMode(t)) != Some(Exclude) {
          FindReads(file, blocks, es[0].attr.start, t.children, path, m, refuses, below);
        }
      }
      FindAtReads(file, blocks, start, es[0], t, prefix, m, refuses, above);
      SelectedPathsConcat(m, PreorderOf(t, prefix, above), Preorder(rest, prefix, above));
      var first, others := SearchableAt(m, t, prefix), forall i :: 0 <= i < |rest| ==> SearchableAt(m, rest[i], prefix);
      AchievesThen(FindAt(file, start, es[0], prefix, m, refuses), SelectedPaths(m, PreorderOf(t, prefix, above)),
                   first, FindEach(file, start, es[1..], prefix, m, refuses),
                   SelectedPaths(m, Preorder(rest, prefix, above)), others, refuses);
      AllSearchable(m, ts, prefix);
    }
  }

  lemma AllSearchable(m: MatchList, ts: seq<Tree>, prefix: Bytes)
    requires ts != []
    ensures var rest := ts[1..];
            (forall i :: 0 <= i < |ts| ==> SearchableAt(m, ts[i], prefix)) <==>
            SearchableAt(m, ts[0], prefix) && forall i :: 0 <= i < |rest| ==> SearchableAt(m, rest[i], prefix)
  {
    hide SearchableAt;
    var rest := ts[1..];
    forall i | 0 <= i < |rest|
      ensures rest[i] == ts[i + 1]
    {
    }
    if SearchableAt(m, ts[0], prefix) && forall i :: 0 <= i < |rest| ==> SearchableAt(m, rest[i], prefix) {
      forall i | 0 <= i < |ts|
        ensures SearchableAt(m, ts[i], prefix)
      {
        assert i > 0 ==> ts[i] == rest[i - 1];
      }
    }
  }

  lemma NothingToFind(m: MatchList, refuses: Bytes -> bool)
    ensures Achieves(Outcome([], true), SelectedPaths(m, []), true, refuses)
  {
  }

  lemma DescribedDir(blocks: Blocks, e: DirEntry, t: Tree, bound: nat)
    requires t.Dir? && Describes(blocks, e, t, bound)
    ensures e.name == t.name && e.attr.Directory? && e.attr.start < bound && e.attr.start in blocks
    ensures DescribesAll(blocks, blocks[e.attr.start], t.children, e.attr.start)
  {
  }

  /** One entry, given what the search does below it. */
  lemma FindAtReads(
    file: Bytes, blocks: Blocks, start: nat, e: DirEntry, t: Tree, prefix: Bytes, m: MatchList,
    refuses: Bytes -> bool, above: seq<(Bytes, Option<nat>)>)
    requires Describes(blocks, e, t, start) && NoneExcluded(m, above)
    requires var path := Extend(prefix, t.name);
             t.Dir? && m(path, FileMode(t)) != Some(Exclude) ==>
               Achieves(FindIn(file, e.attr.start, path, m, refuses),
                        SelectedPaths(m, Preorder(t.children, path, above + [(path, FileMode(t))])),
                        Searchable(m, t.children, path), refuses)
    ensures Achieves(FindAt(file, start, e, prefix, m, refuses), SelectedPaths(m, PreorderOf(t, prefix, above)),
                     SearchableAt(m, t, prefix), refuses)
  {
    hide SelectedPaths, NoneExcluded, PreorderOf, Preorder, FindIn, DescribesAll, Searchable;
    SelectedOf(m, t, prefix, above);
    var path, mode := Extend(prefix, t.name), FileMode(t);
    if m(path, mode) != Some(Exclude) {
      var here := if m(path, mode) == Some(Include) then [path] else [];
      var first := if m(path, mode) == Some(Include) then Outcome([path], !refuses(path)) else Outcome([], true);
      assert Achieves(first, here, true, refuses);
      if t.Dir? {
        AchievesThen(first, here, true, FindIn(file, e.attr.start, path, m, refuses),
                     SelectedPaths(m, Preorder(t.children, path, above + [(path, mode)])),
                     Searchable(m, t.children, path), refuses);
      } else {
        AchievesThen(first, here, true, Outcome([], true), [], true, refuses);
      }
    }
  }

  /** The search over the finished file of every successful list of calls. */
  lemma FindInCatalog(calls: seq<Call>, prefix: Bytes, m: MatchList, refuses: Bytes -> bool)
    requires Run(calls).Ok? && FinishFile(Run(calls).value).Ok?
    ensures |Recorded(calls)| == 1
    ensures var file, tree := FinishFile(Run(calls).value).value, Recorded(calls)[0].children;
            && Root(file).Ok?
            && Achieves(FindIn(file, Root(file).value, prefix, m, refuses),
                        SelectedPaths(m, Preorder(tree, prefix, [])), Searchable(m, tree, prefix), refuses)
  {
    hide FindIn, SelectedPaths, Preorder, Searchable, Achieves, BlocksWritten;
    var file, blocks := FinishedBlocks(calls);
    assert NoneExcluded(m, []);
    FindReads(file, blocks, Root(file).value, Recorded(calls)[0].children, prefix, m, refuses, []);
  }
}
