/** Looking entries up by name and by path. */
module CatalogSearch {
  import opened Common
  import opened Varint
  import opened Catalog
  import opened CatalogFile

  // ---- Lookup stops at the first match ----

  function FirstNamed(es: seq<DirEntry>, name: Bytes): Option<DirEntry> {
    if es == [] then None
    else if es[0].name == name then Some(es[0])
    else FirstNamed(es[1..], name)
  }

  /** The raw entries a lookup parses. */
  function UpToNamed(raws: seq<RawEntry>, name: Bytes): seq<RawEntry> {
    if raws == [] then []
    else if raws[0].name == name then [raws[0]]
    else [raws[0]] + UpToNamed(raws[1..], name)
  }

  /** The entries in front of the first damage, and whether there is none. */
  datatype Parseable = Parseable(raws: seq<RawEntry>, complete: bool)

  function ParseablePart(cursor: Bytes, n: nat): Parseable
    decreases n
  {
    if n == 0 then Parseable([], cursor == []) else
    var e := ParseEntry(cursor);
    if e.Err? then Parseable([], false) else
    var rest := ParseablePart(e.value.rest, n - 1);
    Parseable([e.value.value] + rest.raws, rest.complete)
  }

  function ParseableBlock(file: Bytes, start: nat): Parseable {
    var data := ReadRawBlock(file, start);
    if data.Err? then Parseable([], false) else
    var n := DecodeU64(data.value);
    if n.Err? then Parseable([], false) else ParseablePart(n.value.rest, n.value.value)
  }

  lemma {:induction false} ParseSeesPart(cursor: Bytes, n: nat, name: Bytes)
    ensures var p := ParseablePart(cursor, n);
            && ParseEntries(cursor, n, Never()) == (if p.complete then Ok(p.raws) else Err)
            && ParseEntries(cursor, n, Named(name)) ==
                 (if p.complete || HasNamed(p.raws, name) then Ok(UpToNamed(p.raws, name)) else Err)
    decreases n
  {
    hide ParseEntry;
    if n > 0 {
      var e := ParseEntry(cursor);
      if e.Ok? {
        ParseSeesPart(e.value.rest, n - 1, name);
        var rest := ParseablePart(e.value.rest, n - 1).raws;
        assert ([e.value.value] + rest)[1..] == rest;
      }
    }
  }

  predicate HasNamed(raws: seq<RawEntry>, name: Bytes) {
    raws != [] && (raws[0].name == name || HasNamed(raws[1..], name))
  }

  function FirstRaw(raws: seq<RawEntry>, name: Bytes): RawEntry
    requires HasNamed(raws, name)
  {
    if raws[0].name == name then raws[0] else FirstRaw(raws[1..], name)
  }

  lemma {:induction false} UpToNamedEnds(raws: seq<RawEntry>, name: Bytes)
    ensures var seen := UpToNamed(raws, name);
            if HasNamed(raws, name) then seen != [] && seen[|seen| - 1] == FirstRaw(raws, name)
            else seen == raws && (seen != [] ==> seen[|seen| - 1].name != name)
    ensures HasNamed(raws, name) ==> FirstRaw(raws, name).name == name
  {
    if raws != [] {
      UpToNamedEnds(raws[1..], name);
      assert raws == [raws[0]] + raws[1..];
    }
  }

  /** For all bytes: lookup works on the entries in front of the first damage, read_dir only without damage. */
  lemma LookupSeesPart(file: Bytes, start: nat, name: Bytes)
    ensures var p := ParseableBlock(file, start);
            && ReadDir(file, start) == (if p.complete then ResolveAll(p.raws, start) else Err)
            && Lookup(file, start, name) ==
                 if HasNamed(p.raws, name) then
                   var e := Resolve(FirstRaw(p.raws, name), start);
                   if e.Err? then Err else Ok(Some(e.value))
                 else if p.complete then Ok(None) else Err
  {
    hide ParseEntries, ParseablePart, Resolve, ResolveAll, UpToNamed, HasNamed, FirstRaw;
    var data := ReadRawBlock(file, start);
    if data.Ok? && DecodeU64(data.value).Ok? {
      var n := DecodeU64(data.value).value;
      ParseSeesPart(n.rest, n.value, name);
      UpToNamedEnds(ParseablePart(n.rest, n.value).raws, name);
    } else {
      NothingNamed(name);
    }
  }

  lemma NothingNamed(name: Bytes)
    ensures !HasNamed([], name)
  {
  }

  lemma {:induction false} FirstNamedResolved(raws: seq<RawEntry>, start: nat, name: Bytes)
    requires ResolveAll(raws, start).Ok?
    ensures var first := FirstNamed(ResolveAll(raws, start).value, name);
            if !HasNamed(raws, name) then first == None
            else first.Some? && Resolve(FirstRaw(raws, name), start) == Ok(first.value)
  {
    if raws != [] {
      FirstNamedResolved(raws[1..], start, name);
      var e := Resolve(raws[0], start).value;
      var rest := ResolveAll(raws[1..], start).value;
      assert ([e] + rest)[1..] == rest;
    }
  }

  /** Wherever read_dir succeeds, lookup returns its first entry with that name. */
  lemma LookupIsFirstMatch(file: Bytes, start: nat, name: Bytes)
    requires ReadDir(file, start).Ok?
    ensures Lookup(file, start, name) == Ok(FirstNamed(ReadDir(file, start).value, name))
  {
    hide ParseableBlock, ReadDir, Lookup, Resolve, ResolveAll, FirstNamed, HasNamed, FirstRaw;
    LookupSeesPart(file, start, name);
    FirstNamedResolved(ParseableBlock(file, start).raws, start, name);
  }

  // ---- Lookup in a written directory ----

  /** A name that the reader refuses stands at or before the first match. */
  ghost predicate LongBefore(names: seq<Bytes>, name: Bytes) {
    exists i :: 0 <= i < |names| && |names[i]| >= NAME_LIMIT && name !in names[..i]
  }

  function EntryNames(es: seq<DirEntry>): seq<Bytes> {
    seq(|es|, i requires 0 <= i < |es| => es[i].name)
  }

  lemma FirstAndRest(names: seq<Bytes>, i: nat)
    requires 0 < i <= |names|
    ensures names[..i] == [names[0]] + names[1..][..i - 1]
  {
  }

  lemma LongBeforeFirst(names: seq<Bytes>, name: Bytes)
    requires names != []
    ensures LongBefore(names, name) <==>
      |names[0]| >= NAME_LIMIT || (names[0] != name && LongBefore(names[1..], name))
  {
    var rest := names[1..];
    if |names[0]| >= NAME_LIMIT {
      assert name !in names[..0];
    } else {
      if i :| 0 <= i < |names| && |names[i]| >= NAME_LIMIT && name !in names[..i] {
        FirstAndRest(names, i);
        assert rest[i - 1] == names[i];
      }
      if i :| 0 <= i < |rest| && |rest[i]| >= NAME_LIMIT && name !in rest[..i] {
        FirstAndRest(names, i + 1);
        assert names[i + 1] == rest[i];
      }
    }
  }

  lemma {:induction false} NamedSeen(es: seq<DirEntry>, pos: nat, name: Bytes)
    requires forall e :: e in es ==> Encodable(e, pos)
    ensures var seen := SeenEntries(es, pos, Named(name)); var first := FirstNamed(es, name);
            && (seen.Err? <==> LongBefore(EntryNames(es), name))
            && (seen.Ok? ==>
                  if first.None? then seen.value == [] || seen.value[|seen.value| - 1].name != name
                  else seen.value != [] && Encodable(first.value, pos)
                       && seen.value[|seen.value| - 1] == RawOf(first.value, pos) && first.value.name == name)
  {
    if es != [] {
      hide LongBefore;
      LongBeforeFirst(EntryNames(es), name);
      assert EntryNames(es)[1..] == EntryNames(es[1..]);
      NamedSeen(es[1..], pos, name);
    }
  }

  /** In a written directory lookup returns the first match, and fails exactly if a name that is too long stands
      at or before it. read_dir fails on such a name anywhere. */
  lemma LookupReads(file: Bytes, start: nat, es: seq<DirEntry>, name: Bytes)
    requires BlockAt(file, start, es)
    ensures Lookup(file, start, name) ==
      if LongBefore(EntryNames(es), name) then Err else Ok(FirstNamed(es, name))
  {
    hide Parse, ReadRawBlock, SeenEntries, EncodeTable, LongBefore, FirstNamed, EntryNames, Resolve, RawOf;
    ReadRawBlockReads(file, start, es);
    ParseTableReads(es, start, Named(name));
    NamedSeen(es, start, name);
    var first := FirstNamed(es, name);
    if first.Some? && !LongBefore(EntryNames(es), name) {
      ResolveRaw(first.value, start);
      RawName(first.value, start);
    }
  }

  lemma RawName(e: DirEntry, pos: nat)
    requires Encodable(e, pos)
    ensures RawOf(e, pos).name == e.name
  {
  }

  // ---- Paths ----

  function Split(path: Bytes): (r: seq<Bytes>)
    ensures |r| > 0
  {
    if path == [] then [[]]
    else
      var rest := Split(path[1..]);
      if path[0] == SLASH then [[]] + rest else [[path[0]] + rest[0]] + rest[1..]
  }

  function JoinNames(names: seq<Bytes>): Bytes
    requires names != []
  {
    if |names| == 1 then names[0] else names[0] + ([SLASH] + JoinNames(names[1..]))
  }

  lemma {:induction false} SplitName(name: Bytes, rest: Bytes)
    requires SLASH !in name
    ensures Split(name) == [name]
    ensures Split(name + ([SLASH] + rest)) == [name] + Split(rest)
  {
    var path := name + ([SLASH] + rest);
    if name == [] {
      assert path[1..] == rest;
    } else {
      SplitName(name[1..], rest);
      assert path[1..] == name[1..] + ([SLASH] + rest);
      assert [name[0]] + name[1..] == name;
    }
  }

  lemma {:induction false} SplitJoin(names: seq<Bytes>)
    requires names != [] && forall n :: n in names ==> SLASH !in n
    ensures Split(JoinNames(names)) == names
  {
    hide Split;
    SplitName(names[0], if |names| == 1 then [] else JoinNames(names[1..]));
    if |names| > 1 {
      SplitJoin(names[1..]);
    }
  }

  /** Reference descent: list each directory, take the first entry with the wanted name. */
  function Descend(file: Bytes, e: DirEntry, names: seq<Bytes>): Result<DirEntry>
    decreases |names|
  {
    if names == [] then Ok(e)
    else if !e.attr.Directory? then Err
    else
      var es := ReadDir(file, e.attr.start);
      if es.Err? then Err else
      var next := FirstNamed(es.value, names[0]);
      if next.None? then Err else Descend(file, next.value, names[1..])
  }

  /** Descent by lookup. */
  function LookupPath(file: Bytes, e: DirEntry, names: seq<Bytes>): Result<DirEntry>
    decreases |names|
  {
    if names == [] then Ok(e)
    else if !e.attr.Directory? then Err
    else
      var next := Lookup(file, e.attr.start, names[0]);
      if next.Err? || next.value.None? then Err else LookupPath(file, next.value.value, names[1..])
  }

  /** Descent by lookup reaches whatever descent by listing reaches. */
  lemma {:induction false} LookupPathDescends(file: Bytes, e: DirEntry, names: seq<Bytes>)
    requires Descend(file, e, names).Ok?
    ensures LookupPath(file, e, names) == Descend(file, e, names)
    decreases |names|
  {
    hide ReadDir, Lookup, FirstNamed;
    if names != [] {
      LookupIsFirstMatch(file, e.attr.start, names[0]);
      LookupPathDescends(file, FirstNamed(ReadDir(file, e.attr.start).value, names[0]).value, names[1..]);
    }
  }

  function PathNames(path: Bytes): (r: seq<Bytes>)
    ensures |r| > 0
  {
    Split(if path != [] && path[0] == SLASH then path[1..] else path)
  }

  /** The loop over the path components. */
  method LookupRecursive(file: Bytes, path: Bytes) returns (r: Result<DirEntry>)
    ensures Root(file).Err? ==> r.Err?
    ensures Root(file).Ok? ==>
      var root := DirEntry([], Directory(Root(file).value));
      r == if path == [SLASH] then Ok(root) else LookupPath(file, root, PathNames(path))
  {
    hide Lookup, Split;
    var start := Root(file);
    if start.Err? {
      return Err;
    }
    var current := DirEntry([], Directory(start.value));
    if path == [SLASH] {
      return Ok(current);
    }
    var components := Split(if path != [] && path[0] == SLASH then path[1..] else path);
    ghost var root := current;
    assert components[0..] == components;
    for i := 0 to |components|
      invariant LookupPath(file, root, components) == LookupPath(file, current, components[i..])
    {
      assert components[i..][1..] == components[i + 1..];
      if !current.attr.Directory? {
        return Err;
      }
      var entry := Lookup(file, current.attr.start, components[i]);
      if entry.Err? || entry.value.None? {
        return Err;
      }
      current := entry.value.value;
    }
    return Ok(current);
  }

  /** An absolute path of slash-free names reaches what first-match descent reaches. */
  lemma AbsolutePath(names: seq<Bytes>)
    requires names != [] && forall n :: n in names ==> n != [] && SLASH !in n
    ensures var path := [SLASH] + JoinNames(names); path != [SLASH] && PathNames(path) == names
    ensures PathNames(JoinNames(names)) == names
  {
    hide Split;
    SplitJoin(names);
    assert ([SLASH] + JoinNames(names))[1..] == JoinNames(names);
    assert names[0] in names && |JoinNames(names)| >= |names[0]|;
  }

  // ---- Paths in a finished catalog ----

  function TreeNames(ts: seq<Tree>): seq<Bytes> {
    seq(|ts|, i requires 0 <= i < |ts| => ts[i].name)
  }

  function FirstTree(ts: seq<Tree>, name: Bytes): Option<Tree> {
    if ts == [] then None
    else if ts[0].name == name then Some(ts[0])
    else FirstTree(ts[1..], name)
  }

  /** What a path leads to in the recorded tree, if no name that is too long stands in the way. */
  ghost function TreeAt(t: Tree, names: seq<Bytes>): Result<Tree>
    decreases |names|
  {
    if names == [] then Ok(t)
    else if !t.Dir? || LongBefore(TreeNames(t.children), names[0]) then Err
    else
      var next := FirstTree(t.children, names[0]);
      if next.None? then Err else TreeAt(next.value, names[1..])
  }

  /** The entry of a tree: a leaf with its attributes, or a directory whose block reads back as the children. */
  ghost predicate EntryOf(file: Bytes, e: DirEntry, t: Tree) {
    && e.name == t.name
    && match t
       case Leaf(_, attr) => e.attr == attr
       case Dir(_, children) =>
         && e.attr.Directory?
         && ReadChildren(file, e.attr.start) == if ShortTrees(children) then Ok(children) else Err
  }

  lemma {:induction false} FirstDescribed(blocks: Blocks, es: seq<DirEntry>, ts: seq<Tree>, bound: nat, name: Bytes)
    requires DescribesAll(blocks, es, ts, bound)
    ensures EntryNames(es) == TreeNames(ts)
    ensures var e, t := FirstNamed(es, name), FirstTree(ts, name);
            if t.None? then e.None? else e.Some? && Describes(blocks, e.value, t.value, bound)
    decreases ts
  {
    assert forall i :: 0 <= i < |ts| ==> Describes(blocks, es[i], ts[i], bound) && es[i].name == ts[i].name;
    if ts != [] {
      assert DescribesAll(blocks, es[1..], ts[1..], bound);
      FirstDescribed(blocks, es[1..], ts[1..], bound, name);
    }
  }

  lemma {:induction false} FindsPath(
    file: Bytes, blocks: Blocks, e: DirEntry, t: Tree, names: seq<Bytes>, bound: nat)
    returns (bound': nat)
    requires BlocksWritten(blocks, file) && Describes(blocks, e, t, bound)
    ensures var r, found := LookupPath(file, e, names), TreeAt(t, names);
            && (r.Ok? <==> found.Ok?)
            && (r.Ok? ==> Describes(blocks, r.value, found.value, bound'))
    decreases |names|
  {
    hide Lookup, LongBefore, FirstNamed, FirstTree, EntryNames, TreeNames, BlockAt, DescribesAll;
    bound' := bound;
    if names != [] && t.Dir? {
      var start := e.attr.start;
      assert BlockAt(file, start, blocks[start]);
      LookupReads(file, start, blocks[start], names[0]);
      FirstDescribed(blocks, blocks[start], t.children, start, names[0]);
      var next := FirstTree(t.children, names[0]);
      if !LongBefore(TreeNames(t.children), names[0]) && next.Some? {
        bound' := FindsPath(
          file, blocks, FirstNamed(blocks[start], names[0]).value, next.value, names[1..], start);
      }
    }
  }

  lemma DescribedEntry(file: Bytes, blocks: Blocks, e: DirEntry, t: Tree, bound: nat)
    requires BlocksWritten(blocks, file) && Describes(blocks, e, t, bound)
    ensures EntryOf(file, e, t)
  {
    hide ReadChildren;
    if t.Dir? {
      ReadsChildren(file, blocks, e.attr.start, t.children);
    }
  }

  /** In the finished file of every successful list of calls, a path leads to the entry of what it leads to in the
      recorded tree; it fails exactly if it leads nowhere or past a name that is too long. */
  lemma PathLookupReads(calls: seq<Call>, names: seq<Bytes>)
    requires Run(calls).Ok? && FinishFile(Run(calls).value).Ok?
    ensures |Recorded(calls)| == 1
    ensures var file := FinishFile(Run(calls).value).value; var tree := Dir([], Recorded(calls)[0].children);
            && Root(file).Ok?
            && var r, found := LookupPath(file, DirEntry([], Directory(Root(file).value)), names), TreeAt(tree, names);
               (r.Ok? <==> found.Ok?) && (r.Ok? ==> EntryOf(file, r.value, found.value))
  {
    hide EntryOf, LookupPath, TreeAt, BlocksWritten, FinishFile;
    var file, blocks := FinishedBlocks(calls);
    var start := Root(file).value;
    var e, t := DirEntry([], Directory(start)), Dir([], Recorded(calls)[0].children);
    DescribesDir(blocks, e, t, start + 1);
    var bound := FindsPath(file, blocks, e, t, names, start + 1);
    var r := LookupPath(file, e, names);
    if r.Ok? {
      DescribedEntry(file, blocks, r.value, TreeAt(t, names).value, bound);
    }
  }

  // ---- Lookup and listing differ ----

  function TwoEntries(long: Name): seq<Call> {
    [AddEntry([97], Fifo), AddEntry(long, Fifo)]
  }

  lemma EmptyCatalog()
    ensures Run([]) == Ok(WriterState(MAGIC, [DirInfo([SLASH], [])])) && Recorded([]) == [Level([SLASH], [])]
  {
  }

  lemma AddRuns(calls: seq<Call>, name: Name, attr: Attr, es: seq<DirEntry>, ts: seq<Tree>)
    requires !attr.Directory? && Run(calls) == Ok(WriterState(MAGIC, [DirInfo([SLASH], es)]))
    requires Recorded(calls) == [Level([SLASH], ts)]
    ensures Run(calls + [AddEntry(name, attr)]) ==
      Ok(WriterState(MAGIC, [DirInfo([SLASH], es + [DirEntry(name, attr)])]))
    ensures Recorded(calls + [AddEntry(name, attr)]) == [Level([SLASH], ts + [Leaf(name, attr)])]
  {
    hide EndApplied;
    var calls' := calls + [AddEntry(name, attr)];
    assert calls'[..|calls|] == calls;
    var dir, level := DirInfo([SLASH], es), Level([SLASH], ts);
    assert PushEntry([dir], DirEntry(name, attr)) == [dir.(entries := es + [DirEntry(name, attr)])];
    assert AddChild([level], Leaf(name, attr)) == [level.(children := ts + [Leaf(name, attr)])];
  }

  lemma TwoEntriesRun(long: Name)
    requires |long| == NAME_LIMIT
    ensures var w := Run(TwoEntries(long));
            && w == Ok(WriterState(MAGIC, [DirInfo([SLASH], [DirEntry([97], Fifo), DirEntry(long, Fifo)])]))
            && FinishFile(w.value).Ok?
    ensures Recorded(TwoEntries(long)) == [Level([SLASH], [Leaf([97], Fifo), Leaf(long, Fifo)])]
  {
    hide Run, Recorded, Fits, Block;
    EmptyCatalog();
    AddRuns([], [97], Fifo, [], []);
    assert [] + [DirEntry([97], Fifo)] == [DirEntry([97], Fifo)] && [] + [Leaf([97], Fifo)] == [Leaf([97], Fifo)];
    assert [] + [AddEntry([97], Fifo)] == [AddEntry([97], Fifo)];
    AddRuns([AddEntry([97], Fifo)], long, Fifo, [DirEntry([97], Fifo)], [Leaf([97], Fifo)]);
    assert [DirEntry([97], Fifo)] + [DirEntry(long, Fifo)] == [DirEntry([97], Fifo), DirEntry(long, Fifo)];
    assert [AddEntry([97], Fifo)] + [AddEntry(long, Fifo)] == TwoEntries(long);
    assert [Leaf([97], Fifo)] + [Leaf(long, Fifo)] == [Leaf([97], Fifo), Leaf(long, Fifo)];
    SmallTable(long, |MAGIC|);
  }

  lemma SmallTable(long: Name, start: nat)
    requires |long| == NAME_LIMIT && start < 9
    ensures Fits([DirEntry([97], Fifo), DirEntry(long, Fifo)], start, 8)
  {
    hide EncodeU64;
    var es := [DirEntry([97], Fifo), DirEntry(long, Fifo)];
    U64RoundTrip(2, []);
    U64RoundTrip(1, []);
    U64RoundTrip(NAME_LIMIT, []);
    assert es[1..] == [es[1]] && es[1..][1..] == [];
    assert EncodeEntries(es[1..], start) == EncodeEntry(es[1], start) + [];
    assert |EncodeEntries(es, start)| == |EncodeEntry(es[0], start)| + |EncodeEntry(es[1], start)|;
    U64RoundTrip(|EncodeTable(es, start)|, []);
  }

  /** The writer accepts a name that no listing gets past, and lookup still finds what stands before it. */
  lemma LookupPastReadDir(long: Name)
    requires |long| == NAME_LIMIT
    ensures Run(TwoEntries(long)).Ok? && FinishFile(Run(TwoEntries(long)).value).Ok?
    ensures var file := FinishFile(Run(TwoEntries(long)).value).value;
            && ReadCatalog(file).Err? && Root(file).Ok?
            && LookupPath(file, DirEntry([], Directory(Root(file).value)), [[97]]) == Ok(DirEntry([97], Fifo))
  {
    hide Run, FinishFile, Recorded, ReadCatalog, LookupPath, Root;
    var calls := TwoEntries(long);
    TwoEntriesRun(long);
    CatalogRoundTrip(calls);
    PathLookupReads(calls, [[97]]);
    var leaf, leaf' := Leaf([97], Fifo), Leaf(long, Fifo);
    assert !ShortTree([leaf, leaf'][1]);
    assert [[97]][1..] == [];
    var ts := [leaf, leaf'];
    LongBeforeFirst(TreeNames(ts), [97]);
    assert TreeAt(Dir([], ts), [[97]]) == Ok(leaf);
  }
}
