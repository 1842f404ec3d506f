/** Retention: which snapshots of a group are kept, as the server computes it. */
module Prune {
  import opened Common

  const MANIFEST_BLOB_NAME: string := "index.json.blob"

  /** A snapshot: its directory, its backup time and its files. */
  datatype Info = Info(path: Path, time: int, files: seq<string>) {
    /** Without a manifest a backup is considered unfinished. */
    predicate IsFinished() {
      MANIFEST_BLOB_NAME in files
    }
  }

  datatype Mark = Keep | KeepPartial | Remove

  type Marks = map<Path, Mark>

  /** The period a snapshot falls into, such as its day. */
  type Selector = Info -> string

  ghost predicate DistinctPaths(list: seq<Info>) {
    forall i, j :: 0 <= i < j < |list| ==> list[i].path != list[j].path
  }

  // ---- One selection pass, declaratively ----

  /** The periods that already have a kept snapshot. */
  ghost function KeptPeriods(mark: Marks, list: seq<Info>, sel: Selector): set<string> {
    set i | 0 <= i < |list| && list[i].path in mark && mark[list[i].path] == Keep :: sel(list[i])
  }

  /** The snapshots a pass decides about: unmarked, in a period without a kept snapshot. */
  ghost function Candidates(mark: Marks, list: seq<Info>, kept: set<string>, sel: Selector): seq<Info> {
    if list == [] then []
    else
      var n := |list| - 1;
      Candidates(mark, list[..n], kept, sel)
      + if list[n].path !in mark && sel(list[n]) !in kept then [list[n]] else []
  }

  ghost function Periods(c: seq<Info>, sel: Selector): set<string> {
    set i | 0 <= i < |c| :: sel(c[i])
  }

  /** The first snapshot of each of the first `keep` distinct periods is kept, further snapshots of those
      periods met on the way are removed, everything behind is left undecided. */
  ghost function Verdict(c: seq<Info>, i: nat, keep: nat, sel: Selector): Option<Mark>
    requires i < |c|
  {
    if |Periods(c[..i + 1], sel)| > keep then None
    else if sel(c[i]) in Periods(c[..i], sel) then Some(Remove)
    else Some(Keep)
  }

  /** Marks after deciding about the first n candidates. */
  ghost function Decide(mark: Marks, c: seq<Info>, n: nat, keep: nat, sel: Selector): Marks
    requires n <= |c|
  {
    if n == 0 then mark
    else
      var m := Decide(mark, c, n - 1, keep, sel);
      match Verdict(c, n - 1, keep, sel)
      case None => m
      case Some(v) => m[c[n - 1].path := v]
  }

  ghost function Pass(mark: Marks, list: seq<Info>, keep: nat, sel: Selector): Marks {
    var c := Candidates(mark, list, KeptPeriods(mark, list, sel), sel);
    Decide(mark, c, |c|, keep, sel)
  }

  // ---- Facts about candidates ----

  lemma PeriodsSnoc(c: seq<Info>, x: Info, sel: Selector)
    ensures Periods(c + [x], sel) == Periods(c, sel) + {sel(x)}
    ensures |Periods(c + [x], sel)| == |Periods(c, sel)| + if sel(x) in Periods(c, sel) then 0 else 1
  {
    var c' := c + [x];
    assert c'[|c|] == x;
    assert forall i :: 0 <= i < |c| ==> c'[i] == c[i];
    assert Periods(c', sel) == Periods(c, sel) + {sel(x)};
  }

  lemma {:induction false} PeriodsGrow(c: seq<Info>, n: nat, sel: Selector)
    requires n <= |c|
    ensures |Periods(c[..n], sel)| <= |Periods(c, sel)|
    decreases |c|
  {
    if n < |c| {
      var m := |c| - 1;
      PeriodsGrow(c[..m], n, sel);
      assert c[..m][..n] == c[..n] && c == c[..m] + [c[m]];
      PeriodsSnoc(c[..m], c[m], sel);
    } else {
      assert c[..n] == c;
    }
  }

  /** Deciding looks at the prefix only. */
  lemma {:induction false} DecidePrefix(mark: Marks, c: seq<Info>, x: Info, n: nat, keep: nat, sel: Selector)
    requires n <= |c|
    ensures Decide(mark, c + [x], n, keep, sel) == Decide(mark, c, n, keep, sel)
  {
    if n > 0 {
      DecidePrefix(mark, c, x, n - 1, keep, sel);
      assert (c + [x])[..n] == c[..n] && (c + [x])[..n - 1] == c[..n - 1];
    }
  }

  /** One more candidate. */
  lemma DecideSnoc(mark: Marks, c: seq<Info>, x: Info, keep: nat, sel: Selector)
    ensures var m := Decide(mark, c, |c|, keep, sel);
            Decide(mark, c + [x], |c| + 1, keep, sel) ==
              if |Periods(c + [x], sel)| > keep then m
              else m[x.path := if sel(x) in Periods(c, sel) then Remove else Keep]
  {
    hide Periods;
    DecidePrefix(mark, c, x, |c|, keep, sel);
    assert (c + [x])[..|c| + 1] == c + [x] && (c + [x])[..|c|] == c;
  }

  /** Once the quota is used up, further candidates change nothing. */
  lemma {:induction false} DecideFull(mark: Marks, c: seq<Info>, n: nat, keep: nat, sel: Selector)
    requires n <= |c| && |Periods(c[..n], sel)| > keep
    ensures Decide(mark, c, |c|, keep, sel) == Decide(mark, c[..n], n, keep, sel)
    decreases |c|
  {
    hide Periods;
    if n < |c| {
      var m := |c| - 1;
      assert c == c[..m] + [c[m]] && c[..m][..n] == c[..n];
      DecideFull(mark, c[..m], n, keep, sel);
      DecideSnoc(mark, c[..m], c[m], keep, sel);
      PeriodsGrow(c, n, sel);
    } else {
      assert c[..n] == c;
    }
  }

  lemma {:induction false} CandidatesPrefix(mark: Marks, list: seq<Info>, n: nat, kept: set<string>, sel: Selector)
    requires n <= |list|
    ensures Candidates(mark, list[..n], kept, sel) <= Candidates(mark, list, kept, sel)
    decreases |list|
  {
    if n < |list| {
      var m := |list| - 1;
      CandidatesPrefix(mark, list[..m], n, kept, sel);
      assert list[..m][..n] == list[..n];
    } else {
      assert list[..n] == list;
    }
  }

  // ---- The pass as the server runs it ----

  method MarkSelections(mark0: Marks, list: seq<Info>, keep: nat, sel: Selector) returns (mark: Marks)
    requires DistinctPaths(list)
    ensures mark == Pass(mark0, list, keep, sel)
  {
    var alreadyIncluded: set<string> := {};
    for i := 0 to |list|
      invariant alreadyIncluded == KeptPeriods(mark0, list[..i], sel)
    {
      KeptPeriodsSnoc(mark0, list, i, sel);
      if list[i].path in mark0 && mark0[list[i].path] == Keep {
        alreadyIncluded := alreadyIncluded + {sel(list[i])};
      }
    }
    assert list[..|list|] == list;
    mark := SelectPeriods(mark0, list, keep, sel, alreadyIncluded);
  }

  lemma KeptPeriodsSnoc(mark: Marks, list: seq<Info>, i: nat, sel: Selector)
    requires i < |list|
    ensures KeptPeriods(mark, list[..i + 1], sel) == KeptPeriods(mark, list[..i], sel)
      + if list[i].path in mark && mark[list[i].path] == Keep then {sel(list[i])} else {}
  {
    assert list[..i + 1][i] == list[i];
    assert forall j :: 0 <= j < i ==> list[..i + 1][j] == list[..i][j];
  }

  /** The second loop of a pass. */
  method SelectPeriods(mark0: Marks, list: seq<Info>, keep: nat, sel: Selector, alreadyIncluded: set<string>)
    returns (mark: Marks)
    requires DistinctPaths(list)
    ensures var c := Candidates(mark0, list, alreadyIncluded, sel); mark == Decide(mark0, c, |c|, keep, sel)
  {
    hide Periods, Verdict, Decide;
    mark := mark0;
    var includeHash: set<string> := {};
    ghost var c: seq<Info> := [];
    NothingDecided(mark0, keep, sel);
    for i := 0 to |list|
      invariant c == Candidates(mark0, list[..i], alreadyIncluded, sel)
      invariant mark == Decide(mark0, c, |c|, keep, sel)
      invariant includeHash == Periods(c, sel) && |includeHash| <= keep
      invariant forall j :: i <= j < |list| ==> (list[j].path in mark <==> list[j].path in mark0)
    {
      var info := list[i];
      assert list[..i + 1][..i] == list[..i];
      if info.path in mark {
        continue;
      }
      var selId := sel(info);
      if selId in alreadyIncluded {
        continue;
      }
      PeriodsSnoc(c, info, sel);
      DecideSnoc(mark0, c, info, keep, sel);
      if selId !in includeHash {
        if |includeHash| >= keep {
          QuotaReached(mark0, list, i, keep, sel, alreadyIncluded, c);
          return;
        }
        includeHash := includeHash + {selId};
        mark := mark[info.path := Keep];
      } else {
        mark := mark[info.path := Remove];
      }
      c := c + [info];
    }
    assert list[..|list|] == list;
  }

  lemma NothingDecided(mark: Marks, keep: nat, sel: Selector)
    ensures Decide(mark, [], 0, keep, sel) == mark && Periods([], sel) == {}
  {
  }

  /** Stopping at the first period too many loses nothing. */
  lemma QuotaReached(
    mark: Marks, list: seq<Info>, i: nat, keep: nat, sel: Selector, kept: set<string>, c: seq<Info>)
    requires i < |list| && c == Candidates(mark, list[..i], kept, sel)
    requires list[i].path !in mark && sel(list[i]) !in kept
    requires |Periods(c + [list[i]], sel)| > keep
    ensures var all := Candidates(mark, list, kept, sel);
            Decide(mark, all, |all|, keep, sel) == Decide(mark, c, |c|, keep, sel)
  {
    hide Periods, Decide, Verdict;
    var all, c' := Candidates(mark, list, kept, sel), c + [list[i]];
    assert list[..i + 1][..i] == list[..i];
    CandidatesPrefix(mark, list, i + 1, kept, sel);
    assert all[..|c'|] == c';
    DecideFull(mark, all, |c'|, keep, sel);
    DecideSnoc(mark, c, list[i], keep, sel);
  }

  // ---- What one pass means ----

  ghost function MarkOf(mark: Marks, p: Path): Option<Mark> {
    if p in mark then Some(mark[p]) else None
  }

  lemma {:induction false} CandidatesAre(mark: Marks, list: seq<Info>, kept: set<string>, sel: Selector)
    requires DistinctPaths(list)
    ensures var c := Candidates(mark, list, kept, sel);
            && DistinctPaths(c)
            && forall x :: x in c <==> x in list && x.path !in mark && sel(x) !in kept
  {
    hide DistinctPaths;
    if list == [] {
      NothingDistinct();
    } else {
      var n := |list| - 1;
      DistinctSplit(list);
      CandidatesAre(mark, list[..n], kept, sel);
      assert list == list[..n] + [list[n]];
      var c := Candidates(mark, list[..n], kept, sel);
      if list[n].path !in mark && sel(list[n]) !in kept {
        DistinctSnoc(c, list[n]);
      } else {
        assert c + [] == c;
      }
    }
  }

  lemma NothingDistinct()
    ensures DistinctPaths([])
  {
  }

  lemma DistinctSplit(list: seq<Info>)
    requires list != [] && DistinctPaths(list)
    ensures var n := |list| - 1; DistinctPaths(list[..n]) && forall x :: x in list[..n] ==> x.path != list[n].path
  {
  }

  lemma DistinctSnoc(c: seq<Info>, x: Info)
    requires DistinctPaths(c) && forall y :: y in c ==> y.path != x.path
    ensures DistinctPaths(c + [x])
  {
  }

  lemma {:induction false} DecideMeans(mark: Marks, c: seq<Info>, n: nat, keep: nat, sel: Selector)
    requires n <= |c| && DistinctPaths(c) && forall x :: x in c ==> x.path !in mark
    ensures forall i :: 0 <= i < n ==> MarkOf(Decide(mark, c, n, keep, sel), c[i].path) == Verdict(c, i, keep, sel)
    ensures forall p :: (forall i :: 0 <= i < n ==> c[i].path != p) ==>
      MarkOf(Decide(mark, c, n, keep, sel), p) == MarkOf(mark, p)
  {
    hide Verdict;
    if n > 0 {
      DecideMeans(mark, c, n - 1, keep, sel);
      assert c[n - 1] in c;
    }
  }

  /** One pass: existing marks stay, the candidates get their verdict, nothing else is marked. */
  lemma PassMeans(mark: Marks, list: seq<Info>, keep: nat, sel: Selector)
    requires DistinctPaths(list)
    ensures var c := Candidates(mark, list, KeptPeriods(mark, list, sel), sel);
            var after := Pass(mark, list, keep, sel);
            && (forall p :: p in mark ==> p in after && after[p] == mark[p])
            && (forall i :: 0 <= i < |c| ==> MarkOf(after, c[i].path) == Verdict(c, i, keep, sel))
            && (forall p :: p in after && p !in mark ==> exists i :: 0 <= i < |c| && c[i].path == p)
  {
    hide Verdict, Candidates, Decide, KeptPeriods;
    var c, after := Candidates(mark, list, KeptPeriods(mark, list, sel), sel), Pass(mark, list, keep, sel);
    CandidatesAre(mark, list, KeptPeriods(mark, list, sel), sel);
    DecideMeans(mark, c, |c|, keep, sel);
    forall p
      ensures p in mark ==> MarkOf(after, p) == MarkOf(mark, p)
      ensures p in after && p !in mark ==> exists i :: 0 <= i < |c| && c[i].path == p
    {
      if p in mark {
        forall i | 0 <= i < |c|
          ensures c[i].path != p
        {
          assert c[i] in c;
        }
      } else if forall i :: 0 <= i < |c| ==> c[i].path != p {
        assert MarkOf(after, p) == MarkOf(mark, p);
      }
    }
  }

  /** Not marked yet, and no snapshot of the same period is kept. */
  ghost predicate Open(mark: Marks, list: seq<Info>, sel: Selector, i: int)
    requires 0 <= i < |list|
  {
    && list[i].path !in mark
    && forall k :: 0 <= k < |list| && MarkOf(mark, list[k].path) == Some(Keep) ==> sel(list[k]) != sel(list[i])
  }

  /** One pass, snapshot by snapshot, newest first. What is not open keeps its mark or stays unmarked. An open one is
      left undecided once its period is beyond the first `keep` periods with open snapshots, is removed if an
      earlier open one has the same period, and is kept otherwise. */
  lemma PassDecides(mark: Marks, list: seq<Info>, keep: nat, sel: Selector, i: nat)
    requires DistinctPaths(list) && i < |list|
    ensures var after := Pass(mark, list, keep, sel);
            var earlier := set j | 0 <= j < i && Open(mark, list, sel, j) :: sel(list[j]);
            MarkOf(after, list[i].path) ==
              if !Open(mark, list, sel, i) then MarkOf(mark, list[i].path)
              else if |earlier + {sel(list[i])}| > keep then None
              else if sel(list[i]) in earlier then Some(Remove)
              else Some(Keep)
  {
    hide Pass, Candidates, DistinctPaths, Periods, KeptPeriods;
    var kept := KeptPeriods(mark, list, sel);
    var c := Candidates(mark, list, kept, sel);
    PassMeans(mark, list, keep, sel);
    OpenIsCandidate(mark, list, sel, i);
    if Open(mark, list, sel, i) {
      var before := Candidates(mark, list[..i], kept, sel);
      CandidateAt(mark, list, kept, sel, i);
      OpenPeriods(mark, list, sel, i);
      assert c[..|before| + 1] == before + [list[i]];
      PeriodsSnoc(before, list[i], sel);
    } else if list[i].path !in mark {
      NotACandidate(mark, list, keep, sel, i);
    }
  }

  lemma OpenIsCandidate(mark: Marks, list: seq<Info>, sel: Selector, i: nat)
    requires i < |list|
    ensures Open(mark, list, sel, i) <==> list[i].path !in mark && sel(list[i]) !in KeptPeriods(mark, list, sel)
  {
  }

  lemma CandidateAt(mark: Marks, list: seq<Info>, kept: set<string>, sel: Selector, i: nat)
    requires i < |list| && list[i].path !in mark && sel(list[i]) !in kept
    ensures var c, before := Candidates(mark, list, kept, sel), Candidates(mark, list[..i], kept, sel);
            |before| < |c| && c[..|before|] == before && c[|before|] == list[i]
  {
    CandidatesPrefix(mark, list, i + 1, kept, sel);
    assert list[..i + 1][..i] == list[..i];
  }

  lemma DistinctPrefixes(list: seq<Info>, i: nat)
    requires DistinctPaths(list) && i <= |list|
    ensures DistinctPaths(list[..i])
  {
  }

  lemma OpenPeriods(mark: Marks, list: seq<Info>, sel: Selector, i: nat)
    requires DistinctPaths(list) && i < |list|
    ensures Periods(Candidates(mark, list[..i], KeptPeriods(mark, list, sel), sel), sel) ==
      set j | 0 <= j < i && Open(mark, list, sel, j) :: sel(list[j])
  {
    hide Candidates, DistinctPaths, KeptPeriods, Open;
    var kept := KeptPeriods(mark, list, sel);
    var c := Candidates(mark, list[..i], kept, sel);
    var open := set j | 0 <= j < i && Open(mark, list, sel, j) :: sel(list[j]);
    DistinctPrefixes(list, i);
    CandidatesAre(mark, list[..i], kept, sel);
    forall x | x in Periods(c, sel)
      ensures x in open
    {
      var k :| 0 <= k < |c| && x == sel(c[k]);
      assert c[k] in list[..i];
      var j :| 0 <= j < i && list[j] == c[k];
      OpenIsCandidate(mark, list, sel, j);
    }
    forall x | x in open
      ensures x in Periods(c, sel)
    {
      var j :| 0 <= j < i && Open(mark, list, sel, j) && x == sel(list[j]);
      OpenIsCandidate(mark, list, sel, j);
      assert list[j] in list[..i];
      var k :| 0 <= k < |c| && c[k] == list[j];
    }
  }

  lemma NotACandidate(mark: Marks, list: seq<Info>, keep: nat, sel: Selector, i: nat)
    requires DistinctPaths(list) && i < |list| && list[i].path !in mark && !Open(mark, list, sel, i)
    ensures list[i].path !in Pass(mark, list, keep, sel)
  {
    hide Pass, Candidates, KeptPeriods, Open;
    var kept := KeptPeriods(mark, list, sel);
    var c := Candidates(mark, list, kept, sel);
    PassMeans(mark, list, keep, sel);
    CandidatesAre(mark, list, kept, sel);
    OpenIsCandidate(mark, list, sel, i);
    forall k | 0 <= k < |c|
      ensures c[k].path != list[i].path
    {
      assert c[k] in list;
      var j :| 0 <= j < |list| && list[j] == c[k];
      assert j != i;
    }
  }

  ghost function KeptPaths(mark: Marks): set<Path> {
    set p | p in mark && mark[p] == Keep
  }

  lemma {:induction false} DecideKeepsAtMost(mark: Marks, c: seq<Info>, n: nat, keep: nat, sel: Selector)
    requires n <= |c|
    ensures |KeptPaths(Decide(mark, c, n, keep, sel))| <= |KeptPaths(mark)| + Min(keep, |Periods(c[..n], sel)|)
  {
    hide Periods;
    if n > 0 {
      DecideKeepsAtMost(mark, c, n - 1, keep, sel);
      assert c[..n] == c[..n - 1] + [c[n - 1]];
      PeriodsSnoc(c[..n - 1], c[n - 1], sel);
      var m, after, p := Decide(mark, c, n - 1, keep, sel), Decide(mark, c, n, keep, sel), c[n - 1].path;
      if Verdict(c, n - 1, keep, sel) == Some(Keep) {
        assert KeptPaths(after) == KeptPaths(m) + {p};
      } else {
        assert KeptPaths(after) <= KeptPaths(m);
        SubsetSize(KeptPaths(after), KeptPaths(m));
      }
    }
  }

  lemma {:induction false} SubsetSize<T>(a: set<T>, b: set<T>)
    requires a <= b
    ensures |a| <= |b|
  {
    if a != {} {
      var x :| x in a;
      SubsetSize(a - {x}, b - {x});
    }
  }

  lemma PassKeepsAtMost(mark: Marks, list: seq<Info>, keep: nat, sel: Selector)
    ensures |KeptPaths(Pass(mark, list, keep, sel))| <= |KeptPaths(mark)| + keep
  {
    var c := Candidates(mark, list, KeptPeriods(mark, list, sel), sel);
    DecideKeepsAtMost(mark, c, |c|, keep, sel);
  }

  /** A pass that keeps nothing changes nothing. */
  lemma {:induction false} KeepNothing(mark: Marks, c: seq<Info>, n: nat, sel: Selector)
    requires n <= |c|
    ensures Decide(mark, c, n, 0, sel) == mark
  {
    if n > 0 {
      KeepNothing(mark, c, n - 1, sel);
      assert sel(c[..n][n - 1]) in Periods(c[..n], sel);
    }
  }

  // ---- Unfinished snapshots ----

  /** Only an unfinished snapshot that is the newest of all survives, every other unfinished one goes. */
  method RemoveIncompleteSnapshots(list: seq<Info>) returns (mark: Marks)
    requires DistinctPaths(list)
    ensures mark == Incomplete(list)
  {
    mark := map[];
    var keepUnfinished := true;
    for i := 0 to |list|
      invariant keepUnfinished <==> i == 0
      invariant mark == Incomplete(list[..i])
    {
      assert list[..i + 1][..i] == list[..i];
      if list[i].IsFinished() {
        keepUnfinished := false;
      } else {
        if keepUnfinished {
          mark := mark[list[i].path := KeepPartial];
        } else {
          mark := mark[list[i].path := Remove];
        }
        keepUnfinished := false;
      }
    }
    assert list[..|list|] == list;
  }

  ghost function Incomplete(list: seq<Info>): Marks {
    if list == [] then map[]
    else
      var n := |list| - 1;
      var m := Incomplete(list[..n]);
      if list[n].IsFinished() then m else m[list[n].path := if n == 0 then KeepPartial else Remove]
  }

  lemma {:induction false} IncompleteMeans(list: seq<Info>)
    requires DistinctPaths(list)
    ensures forall i :: 0 <= i < |list| ==>
      MarkOf(Incomplete(list), list[i].path) ==
        if list[i].IsFinished() then None else if i == 0 then Some(KeepPartial) else Some(Remove)
    ensures forall p :: p in Incomplete(list) ==> exists i :: 0 <= i < |list| && list[i].path == p
  {
    if list != [] {
      var n := |list| - 1;
      IncompleteMeans(list[..n]);
      assert list == list[..n] + [list[n]];
      var m := Incomplete(list[..n]);
      assert list[n].path !in m;
      forall p | p in Incomplete(list)
        ensures exists i :: 0 <= i < |list| && list[i].path == p
      {
        if p in m {
          var i :| 0 <= i < n && list[..n][i].path == p;
          assert list[i].path == p;
        }
      }
    }
  }

  // ---- All passes ----

  datatype PruneOptions = PruneOptions(
    keepLast: Option<nat>, keepHourly: Option<nat>, keepDaily: Option<nat>,
    keepWeekly: Option<nat>, keepMonthly: Option<nat>, keepYearly: Option<nat>)

  /** The period functions of the six passes. */
  datatype Calendar = Calendar(
    last: Selector, hourly: Selector, daily: Selector, weekly: Selector, monthly: Selector, yearly: Selector)

  type Rules = seq<(nat, Selector)>

  function CountOf(keep: Option<nat>): nat {
    if keep.Some? then keep.value else 0
  }

  /** The passes in order; an unset option counts as 0. */
  function RulesOf(o: PruneOptions, cal: Calendar): Rules {
    [ (CountOf(o.keepLast), cal.last), (CountOf(o.keepHourly), cal.hourly), (CountOf(o.keepDaily), cal.daily),
      (CountOf(o.keepWeekly), cal.weekly), (CountOf(o.keepMonthly), cal.monthly), (CountOf(o.keepYearly), cal.yearly)
    ]
  }

  ghost function Passes(mark: Marks, list: seq<Info>, rules: Rules): Marks
    decreases |rules|
  {
    if rules == [] then mark
    else Passes(Pass(mark, list, rules[0].0, rules[0].1), list, rules[1..])
  }

  ghost function FinalMarks(list: seq<Info>, rules: Rules): Marks {
    Passes(Incomplete(list), list, rules)
  }

  ghost predicate Survives(mark: Marks, p: Path) {
    p in mark && mark[p] != Remove
  }

  ghost predicate NewestFirst(list: seq<Info>) {
    forall i, j :: 0 <= i < j < |list| ==> list[i].time >= list[j].time
  }

  /** Insert behind everything that is not older. */
  method InsertSorted(list: seq<Info>, x: Info) returns (r: seq<Info>)
    requires NewestFirst(list) && DistinctPaths(list) && forall y :: y in list ==> y.path != x.path
    ensures NewestFirst(r) && DistinctPaths(r) && multiset(r) == multiset(list) + multiset{x}
    ensures forall y :: y in r <==> y in list || y == x
  {
    hide NewestFirst, DistinctPaths;
    var k := 0;
    while k < |list| && list[k].time >= x.time
      invariant 0 <= k <= |list| && forall i :: 0 <= i < k ==> list[i].time >= x.time
    {
      k := k + 1;
    }
    InsertedOrdered(list, k, x);
    InsertedDistinct(list, k, x);
    r := list[..k] + [x] + list[k..];
    assert list == list[..k] + list[k..];
  }

  lemma InsertedOrdered(list: seq<Info>, k: nat, x: Info)
    requires NewestFirst(list) && k <= |list| && (forall i :: 0 <= i < k ==> list[i].time >= x.time)
    requires k < |list| ==> list[k].time <= x.time
    ensures NewestFirst(list[..k] + [x] + list[k..])
  {
    var r := list[..k] + [x] + list[k..];
    forall i | 0 <= i < |r|
      ensures r[i] == if i < k then list[i] else if i == k then x else list[i - 1]
    {
    }
  }

  lemma InsertedDistinct(list: seq<Info>, k: nat, x: Info)
    requires DistinctPaths(list) && k <= |list| && (forall y :: y in list ==> y.path != x.path)
    ensures DistinctPaths(list[..k] + [x] + list[k..])
  {
    var r := list[..k] + [x] + list[k..];
    forall i | 0 <= i < |r|
      ensures r[i] == if i < k then list[i] else if i == k then x else list[i - 1]
    {
    }
    assert forall i :: 0 <= i < |list| ==> list[i] in list;
  }

  method SortList(list: seq<Info>) returns (sorted: seq<Info>)
    requires DistinctPaths(list)
    ensures NewestFirst(sorted) && DistinctPaths(sorted) && multiset(sorted) == multiset(list)
  {
    sorted := [];
    for i := 0 to |list|
      invariant NewestFirst(sorted) && DistinctPaths(sorted) && multiset(sorted) == multiset(list[..i])
      invariant forall y :: y in sorted <==> y in list[..i]
    {
      assert list[..i + 1] == list[..i] + [list[i]];
      sorted := InsertSorted(sorted, list[i]);
    }
    assert list[..|list|] == list;
  }

  /** Run a pass if its option is set. */
  method MarkIfSet(mark0: Marks, list: seq<Info>, keep: Option<nat>, sel: Selector) returns (mark: Marks)
    requires DistinctPaths(list)
    ensures mark == Pass(mark0, list, CountOf(keep), sel)
  {
    hide KeptPeriods, Candidates, Decide;
    if keep.Some? {
      mark := MarkSelections(mark0, list, keep.value, sel);
    } else {
      mark := mark0;
      ghost var c := Candidates(mark0, list, KeptPeriods(mark0, list, sel), sel);
      KeepNothing(mark0, c, |c|, sel);
    }
  }

  lemma PassesStep(mark: Marks, list: seq<Info>, rules: Rules)
    requires rules != []
    ensures Passes(mark, list, rules) == Passes(Pass(mark, list, rules[0].0, rules[0].1), list, rules[1..])
  {
  }

  lemma NoPasses(mark: Marks, list: seq<Info>, rules: Rules)
    requires |rules| == 0
    ensures Passes(mark, list, rules) == mark
  {
  }

  /** The verdict on every snapshot of the group, newest first. */
  method ComputePruneInfo(list: seq<Info>, o: PruneOptions, cal: Calendar)
    returns (sorted: seq<Info>, keep: seq<bool>)
    requires DistinctPaths(list)
    ensures NewestFirst(sorted) && DistinctPaths(sorted) && multiset(sorted) == multiset(list)
    ensures |keep| == |sorted|
    ensures forall i :: 0 <= i < |sorted| ==>
      (keep[i] <==> Survives(FinalMarks(sorted, RulesOf(o, cal)), sorted[i].path))
  {
    hide Pass, Incomplete, Passes;
    sorted := SortList(list);
    var mark := RemoveIncompleteSnapshots(sorted);
    ghost var rules := RulesOf(o, cal);
    PassesStep(mark, sorted, rules);
    mark := MarkIfSet(mark, sorted, o.keepLast, cal.last);
    PassesStep(mark, sorted, rules[1..]);
    mark := MarkIfSet(mark, sorted, o.keepHourly, cal.hourly);
    PassesStep(mark, sorted, rules[1..][1..]);
    mark := MarkIfSet(mark, sorted, o.keepDaily, cal.daily);
    PassesStep(mark, sorted, rules[1..][1..][1..]);
    mark := MarkIfSet(mark, sorted, o.keepWeekly, cal.weekly);
    PassesStep(mark, sorted, rules[1..][1..][1..][1..]);
    mark := MarkIfSet(mark, sorted, o.keepMonthly, cal.monthly);
    PassesStep(mark, sorted, rules[1..][1..][1..][1..][1..]);
    mark := MarkIfSet(mark, sorted, o.keepYearly, cal.yearly);
    NoPasses(mark, sorted, rules[1..][1..][1..][1..][1..][1..]);
    keep := [];
    for i := 0 to |sorted|
      invariant |keep| == i
      invariant forall j :: 0 <= j < i ==> (keep[j] <==> Survives(mark, sorted[j].path))
    {
      var p := sorted[i].path;
      keep := keep + [p in mark && (mark[p] == Keep || mark[p] == KeepPartial)];
    }
  }

  // ---- What is kept in the end ----

  function SumOfCounts(rules: Rules): nat {
    if rules == [] then 0 else rules[0].0 + SumOfCounts(rules[1..])
  }

  /** Passes never change a mark, add no partial ones, and keep at most their counts. */
  lemma {:induction false} PassesMean(mark: Marks, list: seq<Info>, rules: Rules)
    requires DistinctPaths(list)
    ensures forall p :: p in mark ==> p in Passes(mark, list, rules) && Passes(mark, list, rules)[p] == mark[p]
    ensures forall p :: p in Passes(mark, list, rules) && p !in mark ==> Passes(mark, list, rules)[p] != KeepPartial
    ensures |KeptPaths(Passes(mark, list, rules))| <= |KeptPaths(mark)| + SumOfCounts(rules)
    decreases rules
  {
    hide Pass, Verdict, Candidates, KeptPeriods, KeptPaths;
    if rules != [] {
      var keep, sel := rules[0].0, rules[0].1;
      var next := Pass(mark, list, keep, sel);
      PassMeans(mark, list, keep, sel);
      PassAddsNoPartial(mark, list, keep, sel);
      PassKeepsAtMost(mark, list, keep, sel);
      PassesMean(next, list, rules[1..]);
    }
  }

  lemma PassAddsNoPartial(mark: Marks, list: seq<Info>, keep: nat, sel: Selector)
    requires DistinctPaths(list)
    ensures forall p :: p in Pass(mark, list, keep, sel) && p !in mark ==> Pass(mark, list, keep, sel)[p] != KeepPartial
  {
    hide Pass, Candidates, KeptPeriods;
    PassMeans(mark, list, keep, sel);
    var c, after := Candidates(mark, list, KeptPeriods(mark, list, sel), sel), Pass(mark, list, keep, sel);
    forall p | p in after && p !in mark
      ensures after[p] != KeepPartial
    {
      var i :| 0 <= i < |c| && c[i].path == p;
      assert MarkOf(after, c[i].path) == Verdict(c, i, keep, sel);
    }
  }

  /** At most the sum of the counts is kept, besides the newest snapshot if that is unfinished; every
      other unfinished snapshot goes. */
  lemma KeepsAtMostTheCounts(list: seq<Info>, rules: Rules)
    requires DistinctPaths(list)
    ensures var marks := FinalMarks(list, rules);
            && |KeptPaths(marks)| <= SumOfCounts(rules)
            && (forall p :: Survives(marks, p) ==>
                  p in KeptPaths(marks) || (list != [] && !list[0].IsFinished() && p == list[0].path))
            && (forall i :: 0 <= i < |list| && !list[i].IsFinished() ==> (Survives(marks, list[i].path) <==> i == 0))
  {
    hide Passes, Incomplete;
    IncompleteMeans(list);
    PassesMean(Incomplete(list), list, rules);
    var m := Incomplete(list);
    assert KeptPaths(m) == {} by {
      forall p | p in m
        ensures m[p] != Keep
      {
        var i :| 0 <= i < |list| && list[i].path == p;
        assert MarkOf(m, list[i].path) == Some(m[p]);
      }
    }
    forall p | p in m && m[p] == KeepPartial
      ensures list != [] && !list[0].IsFinished() && p == list[0].path
    {
      var i :| 0 <= i < |list| && list[i].path == p;
      assert MarkOf(m, list[i].path) == Some(KeepPartial);
    }
    forall i | 0 <= i < |list| && !list[i].IsFinished()
      ensures MarkOf(m, list[i].path) == if i == 0 then Some(KeepPartial) else Some(Remove)
    {
    }
  }

  /** The newest finished snapshot is kept as soon as any count is positive. */
  lemma {:induction false} NewestFinishedKept(list: seq<Info>, rules: Rules, j: nat)
    requires DistinctPaths(list) && j < |list| && list[j].IsFinished()
    requires forall i :: 0 <= i < j ==> !list[i].IsFinished()
    requires exists k :: 0 <= k < |rules| && rules[k].0 > 0
    ensures MarkOf(FinalMarks(list, rules), list[j].path) == Some(Keep)
    decreases rules
  {
    hide Passes, Pass, Incomplete, KeptPeriods, Candidates;
    var m, keep, sel := Incomplete(list), rules[0].0, rules[0].1;
    PassesStep(m, list, rules);
    if keep == 0 {
      PassKeepsNothing(m, list, sel);
      var k :| 0 <= k < |rules| && rules[k].0 > 0;
      assert rules[1..][k - 1].0 > 0;
      NewestFinishedKept(list, rules[1..], j);
    } else {
      FirstPassKeeps(list, keep, sel, j);
      PassesMean(Pass(m, list, keep, sel), list, rules[1..]);
    }
  }

  lemma PassKeepsNothing(mark: Marks, list: seq<Info>, sel: Selector)
    ensures Pass(mark, list, 0, sel) == mark
  {
    var c := Candidates(mark, list, KeptPeriods(mark, list, sel), sel);
    KeepNothing(mark, c, |c|, sel);
  }

  lemma FirstPassKeeps(list: seq<Info>, keep: nat, sel: Selector, j: nat)
    requires DistinctPaths(list) && j < |list| && list[j].IsFinished() && keep > 0
    requires forall i :: 0 <= i < j ==> !list[i].IsFinished()
    ensures MarkOf(Pass(Incomplete(list), list, keep, sel), list[j].path) == Some(Keep)
  {
    hide Pass, Incomplete, KeptPeriods, Candidates;
    var m := Incomplete(list);
    IncompleteMeans(list);
    var kept := KeptPeriods(m, list, sel);
    NoneKeptYet(list, sel);
    var c := Candidates(m, list, kept, sel);
    FirstCandidate(m, list, j, sel);
    PassMeans(m, list, keep, sel);
    assert c[..1] == [list[j]] && c[..0] == [];
    PeriodsSnoc([], list[j], sel);
    assert [] + [list[j]] == [list[j]];
  }

  lemma NoneKeptYet(list: seq<Info>, sel: Selector)
    requires DistinctPaths(list)
    ensures KeptPeriods(Incomplete(list), list, sel) == {}
  {
    hide Incomplete;
    IncompleteMeans(list);
    var m := Incomplete(list);
    forall i | 0 <= i < |list|
      ensures MarkOf(m, list[i].path) != Some(Keep)
    {
    }
  }

  lemma {:induction false} FirstCandidate(mark: Marks, list: seq<Info>, j: nat, sel: Selector)
    requires j < |list| && list[j].path !in mark && forall i :: 0 <= i < j ==> list[i].path in mark
    ensures var c := Candidates(mark, list, {}, sel); |c| > 0 && c[0] == list[j]
  {
    NoCandidates(mark, list[..j], sel);
    assert list[..j + 1][..j] == list[..j];
    assert Candidates(mark, list[..j + 1], {}, sel) == [list[j]];
    CandidatesPrefix(mark, list, j + 1, {}, sel);
  }

  lemma {:induction false} NoCandidates(mark: Marks, list: seq<Info>, sel: Selector)
    requires forall i :: 0 <= i < |list| ==> list[i].path in mark
    ensures Candidates(mark, list, {}, sel) == []
  {
    if list != [] {
      NoCandidates(mark, list[..|list| - 1], sel);
    }
  }

  // ---- Pruning a group ----

  predicate KeepsSomething(o: PruneOptions) {
    || CountOf(o.keepLast) > 0 || CountOf(o.keepHourly) > 0 || CountOf(o.keepDaily) > 0
    || CountOf(o.keepWeekly) > 0 || CountOf(o.keepMonthly) > 0 || CountOf(o.keepYearly) > 0
  }

  /** Without any count everything is kept, whatever the passes say. */
  ghost predicate KeptInGroup(list: seq<Info>, o: PruneOptions, cal: Calendar, p: Path) {
    KeepsSomething(o) ==> Survives(FinalMarks(list, RulesOf(o, cal)), p)
  }

  /** The prune call: the verdicts on a group, oldest first, which is the order of removal. */
  method PruneGroup(list: seq<Info>, o: PruneOptions, cal: Calendar)
    returns (order: seq<Info>, keep: seq<bool>, sorted: seq<Info>)
    requires DistinctPaths(list)
    ensures NewestFirst(sorted) && DistinctPaths(sorted) && multiset(sorted) == multiset(list)
    ensures |order| == |keep| == |sorted|
    ensures forall i :: 0 <= i < |order| ==> order[i] == sorted[|sorted| - 1 - i]
    ensures forall i :: 0 <= i < |order| ==> (keep[i] <==> KeptInGroup(sorted, o, cal, order[i].path))
  {
    hide NewestFirst, DistinctPaths, FinalMarks, Survives, RulesOf, KeepsSomething;
    var verdicts;
    sorted, verdicts := ComputePruneInfo(list, o, cal);
    var keepAll := !KeepsSomething(o);
    order, keep := [], [];
    for i := 0 to |sorted|
      invariant |order| == |keep| == i
      invariant forall j :: 0 <= j < i ==> order[j] == sorted[|sorted| - 1 - j]
      invariant forall j :: 0 <= j < i ==> (keep[j] <==> KeptInGroup(sorted, o, cal, order[j].path))
    {
      var k := |sorted| - 1 - i;
      order := order + [sorted[k]];
      keep := keep + [keepAll || verdicts[k]];
    }
  }

  /** Pruning never removes the newest snapshot nor the newest finished one, so it never empties a group. */
  lemma NewestNeverPruned(list: seq<Info>, o: PruneOptions, cal: Calendar, j: nat)
    requires DistinctPaths(list) && j < |list|
    requires j == 0 || (list[j].IsFinished() && forall i :: 0 <= i < j ==> !list[i].IsFinished())
    ensures KeptInGroup(list, o, cal, list[j].path)
  {
    hide DistinctPaths, FinalMarks;
    var rules := RulesOf(o, cal);
    if KeepsSomething(o) {
      if list[j].IsFinished() {
        SomeCount(o, cal);
        NewestFinishedKept(list, rules, j);
      } else {
        KeepsAtMostTheCounts(list, rules);
      }
    }
  }

  lemma SomeCount(o: PruneOptions, cal: Calendar)
    ensures var rules := RulesOf(o, cal); KeepsSomething(o) <==> exists k :: 0 <= k < |rules| && rules[k].0 > 0
  {
    var rules := RulesOf(o, cal);
    assert rules[0].0 == CountOf(o.keepLast) && rules[1].0 == CountOf(o.keepHourly);
    assert rules[2].0 == CountOf(o.keepDaily) && rules[3].0 == CountOf(o.keepWeekly);
    assert rules[4].0 == CountOf(o.keepMonthly) && rules[5].0 == CountOf(o.keepYearly);
  }

  // ---- Which count goes with which period ----

  ghost predicate AllFinished(list: seq<Info>) {
    forall i :: 0 <= i < |list| ==> list[i].IsFinished()
  }

  lemma {:induction false} NothingIncomplete(list: seq<Info>)
    requires AllFinished(list)
    ensures Incomplete(list) == map[]
  {
    if list != [] {
      NothingIncomplete(list[..|list| - 1]);
    }
  }

  /** The first snapshot of its period, and the period is among the first n. */
  ghost predicate FirstOfPeriods(list: seq<Info>, i: nat, n: nat, sel: Selector)
    requires i < |list|
  {
    && (forall j :: 0 <= j < i ==> sel(list[j]) != sel(list[i]))
    && |set j | 0 <= j < i :: sel(list[j])| < n
  }

  ghost predicate KeepsFirsts(list: seq<Info>, marks: Marks, n: nat, sel: Selector) {
    forall i :: 0 <= i < |list| ==> (Survives(marks, list[i].path) <==> FirstOfPeriods(list, i, n, sel))
  }

  lemma OnlyPass(list: seq<Info>, n: nat, sel: Selector)
    requires DistinctPaths(list)
    ensures KeepsFirsts(list, Pass(map[], list, n, sel), n, sel)
  {
    hide Pass, Candidates, DistinctPaths;
    var marks := Pass(map[], list, n, sel);
    PassMeans(map[], list, n, sel);
    assert KeptPeriods(map[], list, sel) == {};
    AllCandidates(list, sel);
    forall i | 0 <= i < |list|
      ensures Survives(marks, list[i].path) <==> FirstOfPeriods(list, i, n, sel)
    {
      assert MarkOf(marks, list[i].path) == Verdict(list, i, n, sel);
      VerdictIsFirst(list, i, n, sel);
    }
  }

  lemma {:induction false} AllCandidates(list: seq<Info>, sel: Selector)
    ensures Candidates(map[], list, {}, sel) == list
  {
    if list != [] {
      AllCandidates(list[..|list| - 1], sel);
    }
  }

  lemma VerdictIsFirst(list: seq<Info>, i: nat, n: nat, sel: Selector)
    requires i < |list|
    ensures Verdict(list, i, n, sel) == Some(Keep) <==> FirstOfPeriods(list, i, n, sel)
    ensures Verdict(list, i, n, sel) != Some(KeepPartial)
  {
    hide Periods;
    assert list[..i + 1] == list[..i] + [list[i]];
    PeriodsSnoc(list[..i], list[i], sel);
    PeriodsOfPrefix(list, i, sel);
  }

  lemma PeriodsOfPrefix(list: seq<Info>, i: nat, sel: Selector)
    requires i <= |list|
    ensures Periods(list[..i], sel) == set j | 0 <= j < i :: sel(list[j])
  {
  }

  /** The six options in their order, each with its own period: a later one decides only about snapshots that the
      unfinished ones and the earlier options left undecided. */
  lemma SixPasses(list: seq<Info>, o: PruneOptions, cal: Calendar)
    requires DistinctPaths(list)
    ensures var m0 := Incomplete(list);
            var m1 := Pass(m0, list, CountOf(o.keepLast), cal.last);
            var m2 := Pass(m1, list, CountOf(o.keepHourly), cal.hourly);
            var m3 := Pass(m2, list, CountOf(o.keepDaily), cal.daily);
            var m4 := Pass(m3, list, CountOf(o.keepWeekly), cal.weekly);
            var m5 := Pass(m4, list, CountOf(o.keepMonthly), cal.monthly);
            var m6 := Pass(m5, list, CountOf(o.keepYearly), cal.yearly);
            && FinalMarks(list, RulesOf(o, cal)) == m6
            && Extends(m0, m1) && Extends(m1, m2) && Extends(m2, m3) && Extends(m3, m4) && Extends(m4, m5)
            && Extends(m5, m6)
  {
    hide Pass, Incomplete, Passes, DistinctPaths;
    var rules := RulesOf(o, cal);
    var m0 := Incomplete(list);
    PassExtends(m0, list, rules[0].0, rules[0].1);
    PassesStep(m0, list, rules);
    var m1 := Pass(m0, list, rules[0].0, rules[0].1);
    PassExtends(m1, list, rules[1].0, rules[1].1);
    PassesStep(m1, list, rules[1..]);
    var m2 := Pass(m1, list, rules[1].0, rules[1].1);
    PassExtends(m2, list, rules[2].0, rules[2].1);
    PassesStep(m2, list, rules[1..][1..]);
    var m3 := Pass(m2, list, rules[2].0, rules[2].1);
    PassExtends(m3, list, rules[3].0, rules[3].1);
    PassesStep(m3, list, rules[1..][1..][1..]);
    var m4 := Pass(m3, list, rules[3].0, rules[3].1);
    PassExtends(m4, list, rules[4].0, rules[4].1);
    PassesStep(m4, list, rules[1..][1..][1..][1..]);
    var m5 := Pass(m4, list, rules[4].0, rules[4].1);
    PassExtends(m5, list, rules[5].0, rules[5].1);
    PassesStep(m5, list, rules[1..][1..][1..][1..][1..]);
    NoPasses(Pass(m5, list, rules[5].0, rules[5].1), list, rules[1..][1..][1..][1..][1..][1..]);
  }

  /** Every mark stays as it is. */
  ghost predicate Extends(m: Marks, m': Marks) {
    forall p :: p in m ==> p in m' && m'[p] == m[p]
  }

  lemma PassExtends(m: Marks, list: seq<Info>, keep: nat, sel: Selector)
    requires DistinctPaths(list)
    ensures Extends(m, Pass(m, list, keep, sel))
  {
    hide Pass, DistinctPaths;
    PassMeans(m, list, keep, sel);
  }

  /** With a single option, on finished snapshots, exactly the first snapshot of each of its first n periods is kept. */
  lemma SingleOption(list: seq<Info>, o: PruneOptions, cal: Calendar)
    requires DistinctPaths(list) && AllFinished(list)
    ensures var marks := FinalMarks(list, RulesOf(o, cal));
            && (NoneCounts(o.(keepLast := None)) ==> KeepsFirsts(list, marks, CountOf(o.keepLast), cal.last))
            && (NoneCounts(o.(keepHourly := None)) ==> KeepsFirsts(list, marks, CountOf(o.keepHourly), cal.hourly))
            && (NoneCounts(o.(keepDaily := None)) ==> KeepsFirsts(list, marks, CountOf(o.keepDaily), cal.daily))
            && (NoneCounts(o.(keepWeekly := None)) ==> KeepsFirsts(list, marks, CountOf(o.keepWeekly), cal.weekly))
            && (NoneCounts(o.(keepMonthly := None)) ==> KeepsFirsts(list, marks, CountOf(o.keepMonthly), cal.monthly))
            && (NoneCounts(o.(keepYearly := None)) ==> KeepsFirsts(list, marks, CountOf(o.keepYearly), cal.yearly))
  {
    hide Pass, Incomplete, DistinctPaths, AllFinished, KeepsFirsts, FinalMarks, RulesOf;
    NothingIncomplete(list);
    SixPasses(list, o, cal);
    IdlePasses(list);
    OnlyPass(list, CountOf(o.keepLast), cal.last);
    OnlyPass(list, CountOf(o.keepHourly), cal.hourly);
    OnlyPass(list, CountOf(o.keepDaily), cal.daily);
    OnlyPass(list, CountOf(o.keepWeekly), cal.weekly);
    OnlyPass(list, CountOf(o.keepMonthly), cal.monthly);
    OnlyPass(list, CountOf(o.keepYearly), cal.yearly);
  }

  /** None of these options keeps anything. */
  predicate NoneCounts(o: PruneOptions) {
    && CountOf(o.keepLast) == 0 && CountOf(o.keepHourly) == 0 && CountOf(o.keepDaily) == 0
    && CountOf(o.keepWeekly) == 0 && CountOf(o.keepMonthly) == 0 && CountOf(o.keepYearly) == 0
  }

  /** A pass without a count changes nothing. */
  lemma IdlePasses(list: seq<Info>)
    ensures forall m, sel :: Pass(m, list, 0, sel) == m
  {
    hide Pass;
    forall m, sel
      ensures Pass(m, list, 0, sel) == m
    {
      PassKeepsNothing(m, list, sel);
    }
  }

  /** With periods that tell all snapshots apart, the first n snapshots are the first of the first n periods. */
  lemma DistinctPeriods(list: seq<Info>, i: nat, n: nat, sel: Selector)
    requires i < |list| && forall j, k :: 0 <= j < k < |list| ==> sel(list[j]) != sel(list[k])
    ensures FirstOfPeriods(list, i, n, sel) <==> i < n
  {
    CountDistinct(list, i, sel);
  }

  lemma {:induction false} CountDistinct(list: seq<Info>, i: nat, sel: Selector)
    requires i <= |list| && forall j, k :: 0 <= j < k < |list| ==> sel(list[j]) != sel(list[k])
    ensures |set j | 0 <= j < i :: sel(list[j])| == i
  {
    if i > 0 {
      CountDistinct(list, i - 1, sel);
      var before := set j | 0 <= j < i - 1 :: sel(list[j]);
      assert sel(list[i - 1]) !in before;
      assert (set j | 0 <= j < i :: sel(list[j])) == before + {sel(list[i - 1])};
    }
  }
}
