/** Writing a whole catalog file, and the proof that reading it returns the recorded tree. */
module CatalogFile {
  import opened Common
  import opened Varint
  import opened Catalog

  // ---- The writer ----

  datatype Call = StartDirectory(name: Name) | EndDirectory | AddEntry(name: Name, attr: Attr)

  /** The file position is the length of the output. */
  datatype WriterState = WriterState(out: Bytes, stack: seq<DirInfo>)

  const NEW_WRITER: WriterState := WriterState(MAGIC, [DirInfo([47], [])])

  /** Directory entries refer to blocks that are already written. */
  ghost predicate PointsBack(w: WriterState) {
    && |w.out| < TWO64
    && forall i :: 0 <= i < |w.stack| ==> forall e :: e in w.stack[i].entries ==> Encodable(e, |w.out|)
  }

  lemma TopPointsBack(w: WriterState)
    requires PointsBack(w) && w.stack != []
    ensures |w.out| < TWO64 && forall e :: e in w.stack[|w.stack| - 1].entries ==> Encodable(e, |w.out|)
  {
  }

  function Block(es: seq<DirEntry>, start: nat): Bytes
    requires |es| < TWO64 && (forall e :: e in es ==> Encodable(e, start)) && |EncodeTable(es, start)| < TWO64
  {
    EncodeU64(|EncodeTable(es, start)|) + EncodeTable(es, start)
  }

  /** All lengths and positions stay within 64 bits. */
  predicate Fits(es: seq<DirEntry>, start: nat, trailer: nat)
    requires forall e :: e in es ==> Encodable(e, start)
  {
    |es| < TWO64 && |EncodeTable(es, start)| < TWO64 && start + |Block(es, start)| + trailer < TWO64
  }

  function PushEntry(stack: seq<DirInfo>, e: DirEntry): seq<DirInfo>
    requires stack != []
  {
    var top := stack[|stack| - 1];
    stack[|stack| - 1 := top.(entries := top.entries + [e])]
  }

  /** Close the innermost directory; it is gone even when it had no parent. */
  function EndApplied(w: WriterState): (r: (bool, WriterState))
    requires PointsBack(w)
    ensures PointsBack(r.1)
  {
    if w.stack == [] then (false, w) else
    var dir, rest, start := w.stack[|w.stack| - 1], w.stack[..|w.stack| - 1], |w.out|;
    if !Fits(dir.entries, start, 0) then (false, w) else
    var out := w.out + Block(dir.entries, start);
    if rest == [] then (false, WriterState(out, []))
    else (true, WriterState(out, PushEntry(rest, DirEntry(dir.name, Directory(start)))))
  }

  /** One call: whether it succeeds, and the state it leaves, also when it fails. */
  function Apply(w: WriterState, call: Call): (r: (bool, WriterState))
    requires PointsBack(w)
    ensures PointsBack(r.1)
  {
    match call
    case StartDirectory(name) => (true, w.(stack := w.stack + [DirInfo(name, [])]))
    case AddEntry(name, attr) =>
      if w.stack == [] || attr.Directory? then (false, w)
      else (true, w.(stack := PushEntry(w.stack, DirEntry(name, attr))))
    case EndDirectory => EndApplied(w)
  }

  function FinishFile(w: WriterState): Result<Bytes>
    requires PointsBack(w)
  {
    if |w.stack| != 1 || !Fits(w.stack[0].entries, |w.out|, 8) then Err
    else Ok(w.out + Block(w.stack[0].entries, |w.out|) + ToLe(|w.out|, 8))
  }

  /** The table of a directory block, entry by entry. */
  method EncodeDirectory(es: seq<DirEntry>, start: nat) returns (table: Bytes)
    requires |es| < TWO64 && forall e :: e in es ==> Encodable(e, start)
    ensures table == EncodeTable(es, start)
  {
    hide EncodeEntry;
    table := CatalogEncodeU64(|es|);
    assert es[0..] == es;
    for i := 0 to |es|
      invariant table + EncodeEntries(es[i..], start) == EncodeTable(es, start)
    {
      assert es[i..][1..] == es[i + 1..];
      ConcatAssoc(table, EncodeEntry(es[i], start), EncodeEntries(es[i + 1..], start));
      table := table + EncodeEntry(es[i], start);
    }
  }

  class CatalogWriter {
    var writer: Bytes
    var dirstack: seq<DirInfo>
    var pos: nat

    ghost function View(): WriterState
      reads this
    {
      WriterState(writer, dirstack)
    }

    ghost predicate Valid()
      reads this
    {
      pos == |writer| && PointsBack(View())
    }

    constructor ()
      ensures Valid() && View() == NEW_WRITER
    {
      writer, dirstack, pos := MAGIC, [DirInfo([47], [])], 8;
    }

    method WriteAll(data: Bytes)
      modifies this
      ensures writer == old(writer) + data && pos == old(pos) + |data| && dirstack == old(dirstack)
    {
      writer := writer + data;
      pos := pos + |data|;
    }

    method Start(name: Name)
      requires Valid()
      modifies this
      ensures Valid() && View() == Apply(old(View()), StartDirectory(name)).1
    {
      dirstack := dirstack + [DirInfo(name, [])];
    }

    /** The body shared by add_file and the seven other kinds. */
    method Add(name: Name, attr: Attr) returns (ok: bool)
      requires Valid() && !attr.Directory?
      modifies this
      ensures Valid() && (ok, View()) == Apply(old(View()), AddEntry(name, attr))
    {
      if dirstack == [] {
        return false;
      }
      var top := dirstack[|dirstack| - 1];
      dirstack := dirstack[|dirstack| - 1 := DirInfo(top.name, top.entries + [DirEntry(name, attr)])];
      return true;
    }

    /** Write the block of a directory that has left the stack; false on 64 bit overflow. */
    method WriteBlock(es: seq<DirEntry>, trailer: nat) returns (ok: bool)
      requires pos == |writer| && pos < TWO64 && forall e :: e in es ==> Encodable(e, pos)
      modifies this
      ensures ok == Fits(es, old(pos), trailer) && dirstack == old(dirstack) && pos == |writer|
      ensures writer == if ok then old(writer) + Block(es, old(pos)) else old(writer)
    {
      if |es| >= TWO64 {
        return false;
      }
      var table := EncodeDirectory(es, pos);
      if |table| >= TWO64 {
        return false;
      }
      var size := CatalogEncodeU64(|table|);
      if pos + |size + table| + trailer >= TWO64 {
        return false;
      }
      WriteAll(size + table);
      return true;
    }

    method End() returns (ok: bool)
      requires Valid()
      modifies this
      ensures Valid() && (ok, View()) == Apply(old(View()), EndDirectory)
    {
      hide PointsBack, Fits, Block;
      if dirstack == [] {
        return false;
      }
      var dir, start := dirstack[|dirstack| - 1], pos;
      TopPointsBack(View());
      ok := WriteBlock(dir.entries, 0);
      if !ok {
        return false;
      }
      dirstack := dirstack[..|dirstack| - 1];
      if dirstack == [] {
        assert View() == EndApplied(old(View())).1;
        return false;
      }
      var top := dirstack[|dirstack| - 1];
      dirstack := dirstack[|dirstack| - 1 := top.(entries := top.entries + [DirEntry(dir.name, Directory(start))])];
      assert View() == EndApplied(old(View())).1;
    }

    method Finish() returns (ok: bool)
      requires Valid()
      modifies this
      ensures var file := FinishFile(old(View()));
              ok == file.Ok? && (ok ==> writer == file.value)
    {
      if |dirstack| != 1 {
        return false;
      }
      var dir, start := dirstack[0], pos;
      ok := WriteBlock(dir.entries, 8);
      if ok {
        dirstack := [];
        WriteAll(ToLe(start, 8));
      }
    }
  }

  // ---- The reader ----

  function Root(file: Bytes): Result<nat> {
    if |file| < 8 || file[..8] != MAGIC then Err else Ok(FromLe(file[|file| - 8..]))
  }

  /** Recursive descent; a directory that does not lie before its parent would never end. */
  function ReadChildren(file: Bytes, start: nat): Result<seq<Tree>>
    decreases start, 1, 0
  {
    var es := ReadDir(file, start);
    if es.Err? then Err else ReadEach(file, start, es.value)
  }

  function ReadEach(file: Bytes, start: nat, es: seq<DirEntry>): Result<seq<Tree>>
    decreases start, 0, |es|
  {
    if es == [] then Ok([]) else
    match es[0].attr
    case Directory(at) =>
      if at >= start then Err else
      var children := ReadChildren(file, at);
      if children.Err? then Err
      else Prepend([Dir(es[0].name, children.value)], ReadEach(file, start, es[1..]))
    case attr => Prepend([Leaf(es[0].name, attr)], ReadEach(file, start, es[1..]))
  }

  function ReadCatalog(file: Bytes): Result<seq<Tree>> {
    var root := Root(file);
    if root.Err? then Err else ReadChildren(file, root.value)
  }

  // ---- What was recorded ----

  datatype Level = Level(name: Name, children: seq<Tree>)

  function AddChild(levels: seq<Level>, t: Tree): seq<Level>
    requires levels != []
  {
    var top := levels[|levels| - 1];
    levels[|levels| - 1 := top.(children := top.children + [t])]
  }

  /** The meaning of a call, without any file: open levels with the trees completed so far. */
  function RecordCall(levels: seq<Level>, call: Call): seq<Level> {
    match call
    case StartDirectory(name) => levels + [Level(name, [])]
    case AddEntry(name, attr) => if levels == [] then levels else AddChild(levels, Leaf(name, attr))
    case EndDirectory =>
      if |levels| < 2 then []
      else
        var top := levels[|levels| - 1];
        AddChild(levels[..|levels| - 1], Dir(top.name, top.children))
  }

  function Recorded(calls: seq<Call>): seq<Level> {
    if calls == [] then [Level([47], [])]
    else RecordCall(Recorded(calls[..|calls| - 1]), calls[|calls| - 1])
  }

  // ---- The link between file and tree ----

  type Blocks = map<nat, seq<DirEntry>>

  /** An entry stands for a tree whose directory blocks are all known and lie below the bound. */
  ghost predicate Describes(blocks: Blocks, e: DirEntry, t: Tree, bound: nat)
    decreases t
  {
    match t
    case Leaf(name, attr) => e == DirEntry(name, attr) && !attr.Directory?
    case Dir(name, children) =>
      && e.name == name && e.attr.Directory?
      && e.attr.start < bound && e.attr.start in blocks
      && DescribesAll(blocks, blocks[e.attr.start], children, e.attr.start)
  }

  ghost predicate DescribesAll(blocks: Blocks, es: seq<DirEntry>, ts: seq<Tree>, bound: nat)
    decreases ts
  {
    |es| == |ts| && forall i :: 0 <= i < |ts| ==> Describes(blocks, es[i], ts[i], bound)
  }

  ghost predicate BlocksWritten(blocks: Blocks, file: Bytes) {
    forall start :: start in blocks ==> BlockAt(file, start, blocks[start])
  }

  ghost predicate LevelMatches(blocks: Blocks, dir: DirInfo, level: Level, bound: nat) {
    dir.name == level.name && DescribesAll(blocks, dir.entries, level.children, bound)
  }

  ghost predicate Matches(w: WriterState, blocks: Blocks, levels: seq<Level>) {
    && MAGIC <= w.out
    && |w.out| < TWO64
    && |w.stack| == |levels|
    && BlocksWritten(blocks, w.out)
    && forall i :: 0 <= i < |levels| ==> LevelMatches(blocks, w.stack[i], levels[i], |w.out|)
  }

  /** Later blocks and positions do not disturb earlier entries. */
  lemma {:induction false} DescribesMore(blocks: Blocks, more: Blocks, e: DirEntry, t: Tree, bound: nat, bound': nat)
    requires Describes(blocks, e, t, bound) && bound <= bound'
    requires forall k :: k in blocks ==> k in more && more[k] == blocks[k]
    ensures Describes(more, e, t, bound')
    decreases t
  {
    match t
    case Leaf(_, _) =>
    case Dir(_, children) =>
      var es := blocks[e.attr.start];
      forall i | 0 <= i < |children|
        ensures Describes(more, es[i], children[i], e.attr.start)
      {
        DescribesMore(blocks, more, es[i], children[i], e.attr.start, e.attr.start);
      }
  }

  lemma DescribesAllMore(blocks: Blocks, more: Blocks, es: seq<DirEntry>, ts: seq<Tree>, bound: nat, bound': nat)
    requires DescribesAll(blocks, es, ts, bound) && bound <= bound'
    requires forall k :: k in blocks ==> k in more && more[k] == blocks[k]
    ensures DescribesAll(more, es, ts, bound')
  {
    forall i | 0 <= i < |ts|
      ensures Describes(more, es[i], ts[i], bound')
    {
      DescribesMore(blocks, more, es[i], ts[i], bound, bound');
    }
  }

  lemma BlockExtends(file: Bytes, more: Bytes, start: nat, es: seq<DirEntry>)
    requires BlockAt(file, start, es)
    ensures BlockAt(file + more, start, es) && start < |file|
  {
    hide EncodeTable, EncodeU64;
    assert (file + more)[start..] == file[start..] + more;
    assert |EncodeTable(es, start)| > 0;
  }

  /** Appending a block, and whatever follows it, keeps every earlier block. */
  lemma AppendBlock(blocks: Blocks, file: Bytes, es: seq<DirEntry>, more: Bytes)
    requires BlocksWritten(blocks, file) && |file| < TWO64 && (forall e :: e in es ==> Encodable(e, |file|))
    requires Fits(es, |file|, 0)
    ensures |file| !in blocks
    ensures BlocksWritten(blocks[|file| := es], file + Block(es, |file|) + more)
  {
    hide BlockAt, EncodeTable, EncodeU64;
    var start, block := |file|, Block(es, |file|);
    var blocks', file' := blocks[start := es], file + block + more;
    forall k | k in blocks
      ensures k < start && BlockAt(file', k, blocks[k])
    {
      assert BlockAt(file, k, blocks[k]);
      BlockExtends(file, block + more, k, blocks[k]);
      ConcatAssoc(file, block, more);
    }
    NewBlock(file, es, more);
  }

  lemma NewBlock(file: Bytes, es: seq<DirEntry>, more: Bytes)
    requires |file| < TWO64 && (forall e :: e in es ==> Encodable(e, |file|)) && Fits(es, |file|, 0)
    ensures BlockAt(file + Block(es, |file|) + more, |file|, es)
  {
    hide EncodeTable, EncodeU64;
    var block := Block(es, |file|);
    assert (file + block + more)[|file|..] == block + more;
  }

  lemma TopMatches(blocks: Blocks, stack: seq<DirInfo>, levels: seq<Level>, e: DirEntry, t: Tree, bound: nat)
    requires |stack| == |levels| > 0 && Describes(blocks, e, t, bound)
    requires forall i :: 0 <= i < |levels| ==> LevelMatches(blocks, stack[i], levels[i], bound)
    ensures var stack', levels' := PushEntry(stack, e), AddChild(levels, t);
            forall i :: 0 <= i < |levels'| ==> LevelMatches(blocks, stack'[i], levels'[i], bound)
  {
    hide Describes;
    var top := |stack| - 1;
    assert LevelMatches(blocks, stack[top], levels[top], bound);
    assert LevelMatches(blocks, PushEntry(stack, e)[top], AddChild(levels, t)[top], bound);
  }

  function BlocksAfter(blocks: Blocks, w: WriterState, call: Call): Blocks {
    if call.EndDirectory? && w.stack != [] then blocks[|w.out| := w.stack[|w.stack| - 1].entries] else blocks
  }

  /** Closing a directory: its block is written, its entry describes the completed subtree. */
  lemma EndMatches(w: WriterState, blocks: Blocks, levels: seq<Level>)
    requires Matches(w, blocks, levels) && PointsBack(w) && Apply(w, EndDirectory).0
    ensures Matches(Apply(w, EndDirectory).1, BlocksAfter(blocks, w, EndDirectory), RecordCall(levels, EndDirectory))
  {
    hide Describes, DescribesAll, EncodeTable, EncodeU64, BlocksWritten;
    var n, start := |w.stack| - 1, |w.out|;
    var dir, level := w.stack[n], levels[n];
    assert LevelMatches(blocks, dir, level, start);
    var out, more := w.out + Block(dir.entries, start), blocks[start := dir.entries];
    AppendBlock(blocks, w.out, dir.entries, []);
    assert out + [] == out;
    forall i | 0 <= i < n
      ensures LevelMatches(more, w.stack[i], levels[i], |out|)
    {
      assert LevelMatches(blocks, w.stack[i], levels[i], start);
      DescribesAllMore(blocks, more, w.stack[i].entries, levels[i].children, start, |out|);
    }
    DescribesAllMore(blocks, more, dir.entries, level.children, start, start);
    var e, t := DirEntry(dir.name, Directory(start)), Dir(level.name, level.children);
    DescribesDir(more, e, t, |out|);
    TopMatches(more, w.stack[..n], levels[..n], e, t, |out|);
  }

  lemma DescribesDir(blocks: Blocks, e: DirEntry, t: Tree, bound: nat)
    requires t.Dir? && e.name == t.name && e.attr.Directory? && e.attr.start < bound && e.attr.start in blocks
    requires DescribesAll(blocks, blocks[e.attr.start], t.children, e.attr.start)
    ensures Describes(blocks, e, t, bound)
  {
  }

  /** Every successful call keeps file and recorded levels in step. */
  lemma MatchesStep(w: WriterState, blocks: Blocks, levels: seq<Level>, call: Call)
    requires Matches(w, blocks, levels) && PointsBack(w) && Apply(w, call).0
    ensures Matches(Apply(w, call).1, BlocksAfter(blocks, w, call), RecordCall(levels, call))
  {
    match call
    case StartDirectory(_) =>
    case AddEntry(name, attr) =>
      TopMatches(blocks, w.stack, levels, DirEntry(name, attr), Leaf(name, attr), |w.out|);
    case EndDirectory => EndMatches(w, blocks, levels);
  }

  // ---- Whole runs ----

  /** The state after a list of calls; Err once a call fails. */
  function Run(calls: seq<Call>): (r: Result<WriterState>)
    ensures r.Ok? ==> PointsBack(r.value)
  {
    if calls == [] then Ok(NEW_WRITER) else
    var w := Run(calls[..|calls| - 1]);
    if w.Err? then Err else
    var (ok, w') := Apply(w.value, calls[|calls| - 1]);
    if ok then Ok(w') else Err
  }

  lemma {:induction false} RunMatches(calls: seq<Call>) returns (blocks: Blocks)
    requires Run(calls).Ok?
    ensures Matches(Run(calls).value, blocks, Recorded(calls))
  {
    if calls == [] {
      blocks := map[];
    } else {
      var before := calls[..|calls| - 1];
      var earlier := RunMatches(before);
      var w, call := Run(before).value, calls[|calls| - 1];
      MatchesStep(w, earlier, Recorded(before), call);
      blocks := BlocksAfter(earlier, w, call);
    }
  }

  ghost predicate ShortTree(t: Tree)
    decreases t
  {
    |t.name| < NAME_LIMIT && (t.Dir? ==> ShortTrees(t.children))
  }

  ghost predicate ShortTrees(ts: seq<Tree>)
    decreases ts
  {
    forall i :: 0 <= i < |ts| ==> ShortTree(ts[i])
  }

  /** The reader recovers the children of a described directory, or fails on a long name below it. */
  lemma {:induction false} ReadsChildren(file: Bytes, blocks: Blocks, start: nat, ts: seq<Tree>)
    requires BlocksWritten(blocks, file) && start in blocks && DescribesAll(blocks, blocks[start], ts, start)
    ensures ReadChildren(file, start) == if ShortTrees(ts) then Ok(ts) else Err
    decreases ts, 1
  {
    hide ReadDir, BlockAt;
    var es := blocks[start];
    assert BlockAt(file, start, es);
    ReadDirReads(file, start, es);
    SameNames(blocks, es, ts, start);
    if ShortNames(es) {
      ReadsEach(file, blocks, start, es, ts);
    }
  }

  lemma SameNames(blocks: Blocks, es: seq<DirEntry>, ts: seq<Tree>, bound: nat)
    requires DescribesAll(blocks, es, ts, bound)
    ensures ShortNames(es) <==> forall i :: 0 <= i < |ts| ==> |ts[i].name| < NAME_LIMIT
  {
    assert forall i :: 0 <= i < |ts| ==> Describes(blocks, es[i], ts[i], bound) && es[i].name == ts[i].name;
    if ShortNames(es) {
      forall i | 0 <= i < |ts|
        ensures |ts[i].name| < NAME_LIMIT
      {
        assert es[i] in es;
      }
    }
  }

  lemma {:induction false} ReadsEach(file: Bytes, blocks: Blocks, start: nat, es: seq<DirEntry>, ts: seq<Tree>)
    requires BlocksWritten(blocks, file) && DescribesAll(blocks, es, ts, start)
    requires forall i :: 0 <= i < |ts| ==> |ts[i].name| < NAME_LIMIT
    ensures ReadEach(file, start, es) == if ShortTrees(ts) then Ok(ts) else Err
    decreases ts, 0
  {
    hide ReadChildren, BlockAt;
    if ts != [] {
      assert Describes(blocks, es[0], ts[0], start);
      ReadsEach(file, blocks, start, es[1..], ts[1..]);
      assert ts == [ts[0]] + ts[1..];
      if ts[0].Dir? {
        ReadsChildren(file, blocks, es[0].attr.start, ts[0].children);
      }
    }
  }

  /** For every list of calls that succeeds and leaves only the root open, the finished file reads back
      as exactly the recorded tree, and reading fails if and only if some name is too long. */
  lemma CatalogRoundTrip(calls: seq<Call>)
    requires Run(calls).Ok? && FinishFile(Run(calls).value).Ok?
    ensures |Recorded(calls)| == 1
    ensures var file, tree := FinishFile(Run(calls).value).value, Recorded(calls)[0].children;
            ReadCatalog(file) == if ShortTrees(tree) then Ok(tree) else Err
  {
    hide FinishFile, BlocksWritten, DescribesAll, ReadChildren;
    var file, blocks := FinishedBlocks(calls);
    ReadsChildren(file, blocks, Root(file).value, Recorded(calls)[0].children);
  }

  /** The blocks of a finished file, with the root block among them. */
  lemma FinishedBlocks(calls: seq<Call>) returns (file: Bytes, blocks: Blocks)
    requires Run(calls).Ok? && FinishFile(Run(calls).value).Ok?
    ensures |Recorded(calls)| == 1 && file == FinishFile(Run(calls).value).value
    ensures Root(file).Ok? && BlocksWritten(blocks, file) && Root(file).value in blocks
    ensures var start := Root(file).value; DescribesAll(blocks, blocks[start], Recorded(calls)[0].children, start)
  {
    hide BlocksWritten, DescribesAll, Describes;
    var before := RunMatches(calls);
    var w, root := Run(calls).value, Recorded(calls)[0];
    file := FinishFile(w).value;
    FinishedFile(w, before, root);
    blocks := before[|w.out| := w.stack[0].entries];
  }

  lemma FinishedFile(w: WriterState, blocks: Blocks, root: Level)
    requires Matches(w, blocks, [root]) && PointsBack(w) && FinishFile(w).Ok?
    ensures var file, start, es := FinishFile(w).value, |w.out|, w.stack[0].entries;
            && Root(file) == Ok(start)
            && BlocksWritten(blocks[start := es], file)
            && DescribesAll(blocks[start := es], es, root.children, start)
  {
    hide Describes, DescribesAll, Block, BlocksWritten;
    var start, es := |w.out|, w.stack[0].entries;
    assert LevelMatches(blocks, w.stack[0], [root][0], start);
    var block, trailer := Block(es, start), ToLe(start, 8);
    AppendBlock(blocks, w.out, es, trailer);
    DescribesAllMore(blocks, blocks[start := es], es, root.children, start, start);
    RootReads(w.out, block, start);
  }

  lemma RootReads(out: Bytes, block: Bytes, start: nat)
    requires MAGIC <= out && start < TWO64
    ensures Root(out + block + ToLe(start, 8)) == Ok(start)
  {
    hide FromLe, ToLe;
    Pow256At8();
    LeRoundTrip(start, 8);
    var file := out + block + ToLe(start, 8);
    assert file[|file| - 8..] == ToLe(start, 8);
    assert file[..8] == MAGIC;
  }

  // ---- The format, byte by byte ----

  /** A directory "d" with one file "f" of 300 bytes, modified one second before the epoch. */
  function SmallCalls(): seq<Call> {
    [StartDirectory([100]), AddEntry([102], File(300, -1)), EndDirectory]
  }

  lemma SmallNumbers()
    ensures EncodeU64(1) == [1] && EncodeU64(5) == [5] && EncodeU64(8) == [8] && EncodeU64(9) == [9]
    ensures EncodeU64(300) == [172, 2] && EncodeI64(-1) == [129, 0]
    ensures ToLe(17, 8) == [17, 0, 0, 0, 0, 0, 0, 0]
  {
    assert ToLe(0, 4) == [0, 0, 0, 0];
    assert ToLe(0, 7) == [0] + ([0] + ([0] + ToLe(0, 4)));
  }

  lemma OneEntryTable(e: DirEntry, pos: nat)
    requires Encodable(e, pos)
    ensures EncodeTable([e], pos) == EncodeU64(1) + EncodeEntry(e, pos)
  {
    hide EncodeU64, EncodeEntry;
    var es := [e];
    assert es[1..] == [];
    assert EncodeEntries(es, pos) == EncodeEntry(e, pos) + EncodeEntries(es[1..], pos);
    assert EncodeEntry(e, pos) + [] == EncodeEntry(e, pos);
  }

  lemma SmallBlocks()
    ensures var f := DirEntry([102], File(300, -1));
            Encodable(f, 8) && EncodeTable([f], 8) == [1, 102, 1, 102, 172, 2, 129, 0]
    ensures var d := DirEntry([100], Directory(8));
            Encodable(d, 17) && EncodeTable([d], 17) == [1, 100, 1, 100, 9]
  {
    hide EncodeU64, EncodeI64, EncodeTable;
    SmallNumbers();
    var f, d := DirEntry([102], File(300, -1)), DirEntry([100], Directory(8));
    OneEntryTable(f, 8);
    OneEntryTable(d, 17);
    assert EncodeAttr(f.attr, 8) == [172, 2] + [129, 0] == [172, 2, 129, 0];
    assert EncodeEntry(f, 8) == [102] + ([1] + ([102] + [172, 2, 129, 0])) == [102, 1, 102, 172, 2, 129, 0];
    assert EncodeEntry(d, 17) == [100] + ([1] + ([100] + [9])) == [100, 1, 100, 9];
  }

  lemma PushOnto(front: seq<DirInfo>, dir: DirInfo, e: DirEntry)
    ensures PushEntry(front + [dir], e) == front + [dir.(entries := dir.entries + [e])]
  {
  }

  /** Closing a directory below one parent. */
  lemma EndOnto(out: Bytes, parent: DirInfo, dir: DirInfo)
    requires PointsBack(WriterState(out, [parent] + [dir])) && forall e :: e in dir.entries ==> Encodable(e, |out|)
    requires Fits(dir.entries, |out|, 0)
    ensures EndApplied(WriterState(out, [parent] + [dir])) ==
      (true, WriterState(out + Block(dir.entries, |out|),
                         [parent.(entries := parent.entries + [DirEntry(dir.name, Directory(|out|))])]))
  {
    hide PointsBack, Fits, Block, PushEntry;
    var w, e := WriterState(out, [parent] + [dir]), DirEntry(dir.name, Directory(|out|));
    PushOnto([], parent, e);
    assert [] + [parent] == [parent] == w.stack[..1];
    var parent' := parent.(entries := parent.entries + [e]);
    assert [] + [parent'] == [parent'];
  }

  lemma SmallRun()
    ensures var d := DirEntry([100], Directory(8));
            Run(SmallCalls()) ==
              Ok(WriterState(MAGIC + [8, 1, 102, 1, 102, 172, 2, 129, 0], [DirInfo([47], [d])]))
  {
    hide EncodeTable, EncodeU64, EncodeI64, Run, PushEntry, EndApplied;
    var calls, f := SmallCalls(), DirEntry([102], File(300, -1));
    var root, d0, d1 := DirInfo([47], []), DirInfo([100], []), DirInfo([100], [f]);
    EmptyRun();
    RunSnoc([], calls[0]);
    assert [] + [calls[0]] == [calls[0]];
    assert Run([calls[0]]) == Ok(WriterState(MAGIC, [root] + [d0]));
    RunSnoc([calls[0]], calls[1]);
    PushOnto([root], d0, f);
    assert [] + [f] == [f];
    assert Run([calls[0]] + [calls[1]]) == Ok(WriterState(MAGIC, [root] + [d1]));
    RunSnoc([calls[0]] + [calls[1]], calls[2]);
    assert [calls[0]] + [calls[1]] + [calls[2]] == calls;
    SmallBlock();
    EndOnto(MAGIC, root, d1);
    assert [] + [DirEntry([100], Directory(8))] == [DirEntry([100], Directory(8))];
  }

  lemma EmptyRun()
    ensures Run([]) == Ok(WriterState(MAGIC, [DirInfo([47], [])]))
  {
  }

  lemma SmallBlock()
    ensures var f := DirEntry([102], File(300, -1));
            Encodable(f, 8) && Fits([f], 8, 0) && Block([f], 8) == [8, 1, 102, 1, 102, 172, 2, 129, 0]
    ensures var d := DirEntry([100], Directory(8));
            Encodable(d, 17) && Fits([d], 17, 8) && Block([d], 17) == [5, 1, 100, 1, 100, 9]
  {
    hide EncodeTable, EncodeU64, EncodeI64;
    SmallBlocks();
    SmallNumbers();
    assert [8] + [1, 102, 1, 102, 172, 2, 129, 0] == [8, 1, 102, 1, 102, 172, 2, 129, 0];
    assert [5] + [1, 100, 1, 100, 9] == [5, 1, 100, 1, 100, 9];
  }

  lemma RunSnoc(calls: seq<Call>, call: Call)
    ensures Run(calls + [call]) ==
      if Run(calls).Err? then Err
      else if Apply(Run(calls).value, call).0 then Ok(Apply(Run(calls).value, call).1) else Err
  {
    hide Apply;
    assert (calls + [call])[..|calls|] == calls;
  }

  /** The whole file: magic, the block of "d" at 8, the root block at 17 with a backward offset of 9, and 17. */
  lemma SmallCatalog()
    ensures Run(SmallCalls()).Ok?
    ensures FinishFile(Run(SmallCalls()).value) ==
      Ok([145, 253, 96, 249, 196, 103, 88, 213]
         + [8, 1, 102, 1, 102, 172, 2, 129, 0]
         + [5, 1, 100, 1, 100, 9]
         + [17, 0, 0, 0, 0, 0, 0, 0])
  {
    hide EncodeTable, EncodeU64, EncodeI64, ToLe, Run, Block, Fits;
    SmallRun();
    SmallBlock();
    SmallNumbers();
  }
}
