/** The paths that search and extraction put together are the paths that lookup takes apart. */
module CatalogPaths {
  import opened Common
  import opened Catalog
  import opened CatalogFile
  import opened CatalogSearch
  import opened CatalogWalk
  import opened CatalogExtract

  // ---- Names on the way down ----

  /** Following the names from the directory that lists ts leads to t. */
  ghost predicate Leads(ts: seq<Tree>, names: seq<Bytes>, t: Tree)
    decreases |names|, 1
  {
    exists i :: 0 <= i < |ts| && LeadsFrom(ts[i], names, t)
  }

  ghost predicate LeadsFrom(at: Tree, names: seq<Bytes>, t: Tree)
    decreases |names|, 0
  {
    && names != [] && at.name == names[0]
    && if |names| == 1 then at == t else at.Dir? && Leads(at.children, names[1..], t)
  }

  /** A name without the one slash it may bring along. */
  function Bare(name: Bytes): Bytes {
    if name != [] && name[0] == SLASH then name[1..] else name
  }

  function Bares(names: seq<Bytes>): (r: seq<Bytes>)
    ensures |r| == |names|
  {
    if names == [] then [] else [Bare(names[0])] + Bares(names[1..])
  }

  /** The prefix, and every name behind one slash. */
  function PathFrom(prefix: Bytes, names: seq<Bytes>): Bytes
    requires names != []
  {
    prefix + ([SLASH] + JoinNames(Bares(names)))
  }

  lemma ExtendIs(prefix: Bytes, name: Bytes)
    ensures Extend(prefix, name) == PathFrom(prefix, [name])
  {
    assert Bares([name]) == [Bare(name)];
    if name != [] && name[0] == SLASH {
      assert name == [SLASH] + name[1..];
    } else {
      ConcatAssoc(prefix, [SLASH], name);
    }
  }

  lemma PathFromStep(prefix: Bytes, name: Bytes, rest: seq<Bytes>)
    requires rest != []
    ensures PathFrom(Extend(prefix, name), rest) == PathFrom(prefix, [name] + rest)
  {
    hide Extend, JoinNames;
    ExtendIs(prefix, name);
    var bare, tail := Bare(name), [SLASH] + JoinNames(Bares(rest));
    assert ([name] + rest)[1..] == rest;
    assert Bares([name] + rest) == [bare] + Bares(rest);
    JoinMore(bare, Bares(rest));
    JoinOne(bare);
    assert Bares([name]) == [bare];
    ConcatAssoc([SLASH], bare, tail);
    ConcatAssoc(prefix, [SLASH] + bare, tail);
  }

  lemma JoinOne(name: Bytes)
    ensures JoinNames([name]) == name
  {
  }

  lemma JoinMore(name: Bytes, rest: seq<Bytes>)
    requires rest != []
    ensures JoinNames([name] + rest) == name + ([SLASH] + JoinNames(rest))
  {
    assert ([name] + rest)[1..] == rest;
  }

  /** Below a directory an entry is listed under a path if and only if names lead to it and make up that path. */
  lemma ListedUnderNames(ts: seq<Tree>, prefix: Bytes, path: Bytes, e: Tree)
    ensures Lists(ts, prefix, path, e) <==>
      exists names :: names != [] && Leads(ts, names, e) && path == PathFrom(prefix, names)
  {
    hide PathFrom, Lists, Leads;
    if Lists(ts, prefix, path, e) {
      var names := NamesOf(ts, prefix, path, e);
    }
    if names :| names != [] && Leads(ts, names, e) && path == PathFrom(prefix, names) {
      NamesAreListed(ts, prefix, names, e);
    }
  }

  lemma {:induction false} NamesOf(ts: seq<Tree>, prefix: Bytes, path: Bytes, e: Tree) returns (names: seq<Bytes>)
    requires Lists(ts, prefix, path, e)
    ensures names != [] && Leads(ts, names, e) && path == PathFrom(prefix, names)
    decreases ts
  {
    hide PathFrom, Extend;
    var i :| 0 <= i < |ts| && ListsAt(ts[i], prefix, path, e);
    var t, here := ts[i], Extend(prefix, ts[i].name);
    if t == e && here == path {
      names := [t.name];
      ExtendIs(prefix, t.name);
    } else {
      var rest := NamesOf(t.children, here, path, e);
      names := [t.name] + rest;
      PathFromStep(prefix, t.name, rest);
      assert names[1..] == rest;
    }
    assert LeadsFrom(t, names, e);
  }

  lemma {:induction false} NamesAreListed(ts: seq<Tree>, prefix: Bytes, names: seq<Bytes>, e: Tree)
    requires names != [] && Leads(ts, names, e)
    ensures Lists(ts, prefix, PathFrom(prefix, names), e)
    decreases |names|
  {
    hide PathFrom, Extend;
    var i :| 0 <= i < |ts| && LeadsFrom(ts[i], names, e);
    var t, path := ts[i], PathFrom(prefix, names);
    if |names| == 1 {
      assert names == [t.name];
      ExtendIs(prefix, t.name);
    } else {
      NamesAreListed(t.children, Extend(prefix, t.name), names[1..], e);
      PathFromStep(prefix, t.name, names[1..]);
      assert names == [t.name] + names[1..];
    }
    assert ListsAt(t, prefix, path, e);
  }

  /** Every visit is an entry of the tree, under its path and with its mode. */
  lemma {:induction false} VisitIsListed(
    ts: seq<Tree>, prefix: Bytes, above: seq<(Bytes, Option<nat>)>, v: Visit) returns (e: Tree)
    requires v in Preorder(ts, prefix, above)
    ensures Lists(ts, prefix, v.path, e) && v.mode == FileMode(e)
    decreases ts
  {
    hide Extend, FileMode;
    var t, here := ts[0], Extend(prefix, ts[0].name);
    if v in PreorderOf(t, prefix, above) {
      if v == Visit(here, FileMode(t), above) {
        e := t;
      } else {
        e := VisitIsListed(t.children, here, above + [(here, FileMode(t))], v);
      }
      assert ListsAt(ts[0], prefix, v.path, e);
    } else {
      e := VisitIsListed(ts[1..], prefix, above, v);
      var i :| 0 <= i < |ts[1..]| && ListsAt(ts[1..][i], prefix, v.path, e);
      assert ts[i + 1] == ts[1..][i];
    }
  }

  /** Every entry of the tree is visited under its path. */
  lemma {:induction false} ListedIsVisited(
    ts: seq<Tree>, prefix: Bytes, above: seq<(Bytes, Option<nat>)>, path: Bytes, e: Tree) returns (v: Visit)
    requires Lists(ts, prefix, path, e)
    ensures v in Preorder(ts, prefix, above) && v.path == path && v.mode == FileMode(e)
    decreases ts
  {
    hide Extend, FileMode;
    var t, here := ts[0], Extend(prefix, ts[0].name);
    if ListsAt(t, prefix, path, e) {
      if t == e && here == path {
        v := Visit(here, FileMode(t), above);
      } else {
        v := ListedIsVisited(t.children, here, above + [(here, FileMode(t))], path, e);
      }
      assert v in PreorderOf(t, prefix, above);
    } else {
      var i :| 0 <= i < |ts| && ListsAt(ts[i], prefix, path, e);
      assert ts[1..][i - 1] == ts[i];
      v := ListedIsVisited(ts[1..], prefix, above, path, e);
    }
  }

  /** What the preorder walk visits, in terms of names: exactly the entries that names lead to, under those names
      joined by slashes. */
  lemma VisitedUnderNames(ts: seq<Tree>, path: Bytes, mode: Option<nat>)
    ensures (exists v :: v in Preorder(ts, [], []) && v.path == path && v.mode == mode) <==>
      exists names, e :: Reached(ts, path, mode, names, e)
  {
    hide PathFrom, Leads, Lists, Preorder, FileMode;
    if v :| v in Preorder(ts, [], []) && v.path == path && v.mode == mode {
      var e := VisitIsListed(ts, [], [], v);
      var names := NamesOf(ts, [], path, e);
      FromRoot(names);
      assert Reached(ts, path, mode, names, e);
    }
    if names, e :| Reached(ts, path, mode, names, e) {
      FromRoot(names);
      NamesAreListed(ts, [], names, e);
      var v := ListedIsVisited(ts, [], [], path, e);
    }
  }

  ghost predicate Reached(ts: seq<Tree>, path: Bytes, mode: Option<nat>, names: seq<Bytes>, e: Tree) {
    names != [] && Leads(ts, names, e) && path == [SLASH] + JoinNames(Bares(names)) && mode == FileMode(e)
  }

  lemma FromRoot(names: seq<Bytes>)
    requires names != []
    ensures PathFrom([], names) == [SLASH] + JoinNames(Bares(names))
  {
    hide JoinNames, Bares;
    var path := [SLASH] + JoinNames(Bares(names));
    assert [] + path == path;
  }

  // ---- Back to lookup ----

  /** Names as a file system has them: not empty, without slash, short enough, and distinct in a directory. */
  ghost predicate WellNamed(ts: seq<Tree>)
    decreases ts
  {
    && (forall i :: 0 <= i < |ts| ==> GoodName(ts[i].name) && (ts[i].Dir? ==> WellNamed(ts[i].children)))
    && (forall i, j :: 0 <= i < j < |ts| ==> ts[i].name != ts[j].name)
  }

  ghost predicate GoodName(name: Bytes) {
    name != [] && SLASH !in name && |name| < NAME_LIMIT
  }

  lemma {:induction false} GoodNames(ts: seq<Tree>, names: seq<Bytes>, t: Tree)
    requires WellNamed(ts) && names != [] && Leads(ts, names, t)
    ensures (forall n :: n in names ==> GoodName(n)) && Bares(names) == names
    decreases |names|
  {
    var i :| 0 <= i < |ts| && LeadsFrom(ts[i], names, t);
    assert names == [names[0]] + names[1..];
    if |names| > 1 {
      GoodNames(ts[i].children, names[1..], t);
    }
  }

  lemma {:induction false} FirstIsOnly(ts: seq<Tree>, i: nat)
    requires i < |ts| && forall j, k :: 0 <= j < k < |ts| ==> ts[j].name != ts[k].name
    ensures FirstTree(ts, ts[i].name) == Some(ts[i])
  {
    if i > 0 {
      FirstIsOnly(ts[1..], i - 1);
    }
  }

  lemma {:induction false} TreeAtNames(dir: Tree, names: seq<Bytes>, t: Tree)
    requires dir.Dir? && WellNamed(dir.children) && names != [] && Leads(dir.children, names, t)
    ensures TreeAt(dir, names) == Ok(t)
    decreases |names|
  {
    hide FirstTree;
    var ts := dir.children;
    var i :| 0 <= i < |ts| && LeadsFrom(ts[i], names, t);
    FirstIsOnly(ts, i);
    assert !LongBefore(TreeNames(ts), names[0]);
    if |names| > 1 {
      TreeAtNames(ts[i], names[1..], t);
    }
  }

  /** In a finished catalog with well formed names: names that lead to t in the recorded tree, joined by slashes, are a
      path; lookup takes it apart into those names again and finds the entry of t. */
  lemma NamesLookUp(calls: seq<Call>, names: seq<Bytes>, t: Tree)
    requires Run(calls).Ok? && FinishFile(Run(calls).value).Ok?
    requires |Recorded(calls)| == 1 ==> WellNamed(Recorded(calls)[0].children)
    requires |Recorded(calls)| == 1 ==> names != [] && Leads(Recorded(calls)[0].children, names, t)
    ensures |Recorded(calls)| == 1
    ensures var file, path := FinishFile(Run(calls).value).value, [SLASH] + JoinNames(names);
            && Root(file).Ok? && path != [SLASH] && PathNames(path) == names
            && var r := LookupPath(file, DirEntry([], Directory(Root(file).value)), PathNames(path));
               r.Ok? && EntryOf(file, r.value, t)
  {
    hide Run, Recorded, FinishFile, Leads, WellNamed, LookupPath, TreeAt, EntryOf, PathNames;
    PathLookupReads(calls, names);
    var tree := Recorded(calls)[0].children;
    GoodNames(tree, names, t);
    AbsolutePath(names);
    TreeAtNames(Dir([], tree), names, t);
  }

  lemma {:induction false} SelectedIsVisited(m: MatchList, vs: seq<Visit>, path: Bytes) returns (v: Visit)
    requires path in SelectedPaths(m, vs)
    ensures v in vs && v.path == path && m(path, v.mode) == Some(Include)
  {
    if Selected(m, vs[0]) && vs[0].path == path {
      v := vs[0];
    } else {
      v := SelectedIsVisited(m, vs[1..], path);
    }
  }

  /** Every path on which the search over a finished catalog calls back leads lookup to the entry that the patterns
      included. */
  lemma SearchedPathsLookUp(calls: seq<Call>, m: MatchList, refuses: Bytes -> bool, path: Bytes)
    returns (names: seq<Bytes>, t: Tree)
    requires Run(calls).Ok? && FinishFile(Run(calls).value).Ok?
    requires |Recorded(calls)| == 1 ==> WellNamed(Recorded(calls)[0].children)
    requires var file := FinishFile(Run(calls).value).value;
             Root(file).Ok? && path in FindIn(file, Root(file).value, [], m, refuses).done
    ensures |Recorded(calls)| == 1 && names != [] && Leads(Recorded(calls)[0].children, names, t)
    ensures path == [SLASH] + JoinNames(names) && m(path, FileMode(t)) == Some(Include)
    ensures var file := FinishFile(Run(calls).value).value;
            var r := LookupPath(file, DirEntry([], Directory(Root(file).value)), PathNames(path));
            r.Ok? && EntryOf(file, r.value, t)
  {
    hide Run, Recorded, FinishFile, Leads, Lists, WellNamed, LookupPath, EntryOf, PathNames, FindIn;
    hide SelectedPaths, Preorder, FileMode, Searchable;
    FindInCatalog(calls, [], m, refuses);
    var tree := Recorded(calls)[0].children;
    var v := SelectedIsVisited(m, Preorder(tree, [], []), path);
    t := VisitIsListed(tree, [], [], v);
    names := NamesOf(tree, [], path, t);
    FromRoot(names);
    GoodNames(tree, names, t);
    NamesLookUp(calls, names, t);
  }

  /** Every entry that is extracted from a finished catalog is the one that lookup finds under its path. */
  lemma ExtractedPathsLookUp(calls: seq<Call>, m: MatchList, noPatterns: bool, path: Bytes, e: DirEntry)
    requires Run(calls).Ok? && FinishFile(Run(calls).value).Ok?
    requires |Recorded(calls)| == 1 ==> WellNamed(Recorded(calls)[0].children)
    requires |Recorded(calls)| == 1 ==> ExtractEntry(path, e) in Walk(m, noPatterns, Recorded(calls)[0].children, [])
    ensures var file := FinishFile(Run(calls).value).value;
            && Root(file).Ok?
            && LookupPath(file, DirEntry([], Directory(Root(file).value)), PathNames(path)) == Ok(e)
  {
    hide Run, Recorded, FinishFile, Leads, Lists, WellNamed, LookupPath, PathNames, Walk, FileMode, ReadChildren;
    PathLookupReads(calls, []);
    var tree, t := Recorded(calls)[0].children, Leaf(e.name, e.attr);
    WalkExtracts(m, noPatterns, tree, [], path, t);
    var names := NamesOf(tree, [], path, t);
    FromRoot(names);
    GoodNames(tree, names, t);
    NamesLookUp(calls, names, t);
  }
}
