/** The retention simulator of the documentation, checked against the server's algorithm. */
module PruneSimulator {
  import opened Common
  import opened Prune

  /** The mark property of a simulated backup; None while it is undefined. */
  datatype SimMark = SimKeep | SimRemove

  function AsMark(m: SimMark): Mark {
    if m.SimKeep? then Keep else Remove
  }

  /** The marks on the backup objects are the server's marks. */
  ghost predicate Agrees(list: seq<Info>, marks: seq<Option<SimMark>>, mark: Marks) {
    && |marks| == |list|
    && forall i :: 0 <= i < |list| ==>
         MarkOf(mark, list[i].path) == if marks[i].Some? then Some(AsMark(marks[i].value)) else None
  }

  lemma AgreesUpdate(list: seq<Info>, marks: seq<Option<SimMark>>, mark: Marks, i: nat, m: SimMark)
    requires Agrees(list, marks, mark) && DistinctPaths(list) && i < |list|
    ensures Agrees(list, marks[i := Some(m)], mark[list[i].path := AsMark(m)])
  {
  }

  /** One simulator pass over the backups, newest first. */
  method PruneMark(list: seq<Info>, marks: array<Option<SimMark>>, keepCount: nat, idFunc: Selector, ghost mark0: Marks)
    requires DistinctPaths(list) && marks.Length == |list| && Agrees(list, marks[..], mark0)
    modifies marks
    ensures Agrees(list, marks[..], Pass(mark0, list, keepCount, idFunc))
  {
    if keepCount == 0 {
      PassKeepsNothing(mark0, list, idFunc);
      return;
    }
    var alreadyIncluded: set<string> := {};
    for i := 0 to |list|
      invariant Agrees(list, marks[..], mark0)
      invariant alreadyIncluded == KeptPeriods(mark0, list[..i], idFunc)
    {
      KeptPeriodsSnoc(mark0, list, i, idFunc);
      assert marks[..][i] == marks[i];
      if marks[i] == Some(SimKeep) {
        alreadyIncluded := alreadyIncluded + {idFunc(list[i])};
      }
    }
    assert list[..|list|] == list;
    SelectNew(list, marks, keepCount, idFunc, alreadyIncluded, mark0);
  }

  /** The second forEach of a pass; it cannot break, so a flag skips the rest. */
  method SelectNew(
    list: seq<Info>, marks: array<Option<SimMark>>, keepCount: nat, idFunc: Selector,
    alreadyIncluded: set<string>, ghost mark0: Marks)
    requires DistinctPaths(list) && marks.Length == |list| && Agrees(list, marks[..], mark0)
    modifies marks
    ensures var c := Candidates(mark0, list, alreadyIncluded, idFunc);
            Agrees(list, marks[..], Decide(mark0, c, |c|, keepCount, idFunc))
  {
    hide Periods, Verdict, Decide, Agrees;
    var newlyIncluded: set<string> := {};
    var newlyIncludedCount := 0;
    var finished := false;
    ghost var all := Candidates(mark0, list, alreadyIncluded, idFunc);
    ghost var c: seq<Info> := [];
    ghost var mark := mark0;
    NothingDecided(mark0, keepCount, idFunc);
    for i := 0 to |list|
      invariant marks.Length == |list| && Agrees(list, marks[..], mark)
      invariant finished ==> mark == Decide(mark0, all, |all|, keepCount, idFunc)
      invariant !finished ==>
        && c == Candidates(mark0, list[..i], alreadyIncluded, idFunc)
        && mark == Decide(mark0, c, |c|, keepCount, idFunc)
        && newlyIncluded == Periods(c, idFunc) && newlyIncludedCount == |newlyIncluded| <= keepCount
      invariant forall j :: i <= j < |list| ==> (list[j].path in mark <==> list[j].path in mark0)
    {
      AgreesAt(list, marks[..], mark, i);
      var id := idFunc(list[i]);
      assert list[..i + 1][..i] == list[..i];
      if finished || id in alreadyIncluded || marks[i].Some? {
        continue;
      }
      PeriodsSnoc(c, list[i], idFunc);
      DecideSnoc(mark0, c, list[i], keepCount, idFunc);
      if id !in newlyIncluded {
        if newlyIncludedCount >= keepCount {
          QuotaReached(mark0, list, i, keepCount, idFunc, alreadyIncluded, c);
          finished := true;
          continue;
        }
        newlyIncluded := newlyIncluded + {id};
        newlyIncludedCount := newlyIncludedCount + 1;
        AgreesUpdate(list, marks[..], mark, i, SimKeep);
        marks[i] := Some(SimKeep);
        mark := mark[list[i].path := Keep];
      } else {
        AgreesUpdate(list, marks[..], mark, i, SimRemove);
        marks[i] := Some(SimRemove);
        mark := mark[list[i].path := Remove];
      }
      c := c + [list[i]];
    }
    assert list[..|list|] == list;
  }

  lemma AgreesAt(list: seq<Info>, marks: seq<Option<SimMark>>, mark: Marks, i: nat)
    requires Agrees(list, marks, mark) && i < |list|
    ensures |marks| == |list| && (marks[i].Some? <==> list[i].path in mark)
  {
  }

  /** The keep parameters of the simulator form; 0 when left empty. */
  datatype KeepParams = KeepParams(last: nat, hourly: nat, daily: nat, weekly: nat, monthly: nat, yearly: nat)

  const NO_PARAMS: KeepParams := KeepParams(0, 0, 0, 0, 0, 0)

  /** With one parameter only: exactly the first backup of each of the first n periods is kept. */
  ghost predicate SimKeepsFirsts(list: seq<Info>, marks: seq<Option<SimMark>>, n: nat, sel: Selector) {
    && |marks| == |list|
    && forall i :: 0 <= i < |list| ==> (marks[i] == Some(SimKeep) <==> FirstOfPeriods(list, i, n, sel))
  }

  function SimOptions(k: KeepParams): PruneOptions {
    PruneOptions(Some(k.last), Some(k.hourly), Some(k.daily), Some(k.weekly), Some(k.monthly), Some(k.yearly))
  }

  function SimRules(k: KeepParams, cal: Calendar): Rules {
    RulesOf(SimOptions(k), cal)
  }

  function SumOfParams(k: KeepParams): nat {
    k.last + k.hourly + k.daily + k.weekly + k.monthly + k.yearly
  }

  lemma {:induction false} NoCountsNoMarks(list: seq<Info>, rules: Rules)
    requires AllFinished(list) && SumOfCounts(rules) == 0
    ensures FinalMarks(list, rules) == map[]
    decreases |rules|
  {
    hide Pass, Incomplete, AllFinished;
    NothingIncomplete(list);
    if rules != [] {
      PassKeepsNothing(map[], list, rules[0].1);
      NoCountsNoMarks(list, rules[1..]);
    }
  }

  lemma SumOfSimRules(k: KeepParams, cal: Calendar)
    ensures SumOfCounts(SimRules(k, cal)) == SumOfParams(k)
  {
    var r := SimRules(k, cal);
    assert r[1..][1..][1..][1..][1..][1..] == r[6..];
    assert SumOfCounts(r[1..][1..][1..][1..][1..]) == k.yearly;
    assert SumOfCounts(r[1..][1..][1..][1..]) == k.monthly + k.yearly;
    assert SumOfCounts(r[1..][1..][1..]) == k.weekly + k.monthly + k.yearly;
    assert SumOfCounts(r[1..][1..]) == k.daily + k.weekly + k.monthly + k.yearly;
  }

  /** On finished backups the simulator keeps exactly what a prune call on the group keeps. It keeps what the
      selection behind that call keeps if and only if some count is positive (or there is nothing to keep):
      without a count the simulator keeps everything, the selection nothing. */
  method PruneSelect(list: seq<Info>, marks: array<Option<SimMark>>, k: KeepParams, cal: Calendar)
    requires DistinctPaths(list) && AllFinished(list)
    requires marks.Length == |list| && forall i :: 0 <= i < |list| ==> marks[i].None?
    modifies marks
    ensures forall i :: 0 <= i < |list| ==> marks[i].Some?
    ensures forall i :: 0 <= i < |list| ==>
      (marks[i] == Some(SimKeep) <==> KeptInGroup(list, SimOptions(k), cal, list[i].path))
    ensures k.last > 0 && k == NO_PARAMS.(last := k.last) ==> SimKeepsFirsts(list, marks[..], k.last, cal.last)
    ensures k.hourly > 0 && k == NO_PARAMS.(hourly := k.hourly) ==>
      SimKeepsFirsts(list, marks[..], k.hourly, cal.hourly)
    ensures k.daily > 0 && k == NO_PARAMS.(daily := k.daily) ==> SimKeepsFirsts(list, marks[..], k.daily, cal.daily)
    ensures k.weekly > 0 && k == NO_PARAMS.(weekly := k.weekly) ==>
      SimKeepsFirsts(list, marks[..], k.weekly, cal.weekly)
    ensures k.monthly > 0 && k == NO_PARAMS.(monthly := k.monthly) ==>
      SimKeepsFirsts(list, marks[..], k.monthly, cal.monthly)
    ensures k.yearly > 0 && k == NO_PARAMS.(yearly := k.yearly) ==>
      SimKeepsFirsts(list, marks[..], k.yearly, cal.yearly)
    ensures (forall i :: 0 <= i < |list| ==>
               (marks[i] == Some(SimKeep) <==> Survives(FinalMarks(list, SimRules(k, cal)), list[i].path)))
            <==> SumOfParams(k) > 0 || list == []
  {
    hide Pass, Passes, Incomplete, AllFinished, SimKeepsFirsts, FinalMarks, RulesOf, DistinctPaths;
    if SumOfParams(k) == 0 {
      KeepAll(marks);
      KeepsMore(list, k, cal);
      assert list != [] ==> marks[0] == Some(SimKeep);
      return;
    }
    NothingIncomplete(list);
    RunPasses(list, marks, k, cal);
    ghost var before := marks[..];
    RemoveRest(marks);
    MarksMean(list, before, marks[..], FinalMarks(list, SimRules(k, cal)));
    SingleParam(list, marks[..], k, cal);
  }

  method KeepAll(marks: array<Option<SimMark>>)
    modifies marks
    ensures forall i :: 0 <= i < marks.Length ==> marks[i] == Some(SimKeep)
  {
    for i := 0 to marks.Length
      invariant forall j :: 0 <= j < i ==> marks[j] == Some(SimKeep)
    {
      marks[i] := Some(SimKeep);
    }
  }

  method RemoveRest(marks: array<Option<SimMark>>)
    modifies marks
    ensures forall i :: 0 <= i < marks.Length ==>
      marks[i] == if old(marks[i]).Some? then old(marks[i]) else Some(SimRemove)
  {
    for i := 0 to marks.Length
      invariant forall j :: 0 <= j < i ==> marks[j] == if old(marks[j]).Some? then old(marks[j]) else Some(SimRemove)
      invariant forall j :: i <= j < marks.Length ==> marks[j] == old(marks[j])
    {
      if marks[i].None? {
        marks[i] := Some(SimRemove);
      }
    }
  }

  /** Without counts the passes keep nothing. */
  lemma KeepsMore(list: seq<Info>, k: KeepParams, cal: Calendar)
    requires AllFinished(list) && SumOfParams(k) == 0
    ensures !KeepsSomething(SimOptions(k))
    ensures forall i :: 0 <= i < |list| ==> !Survives(FinalMarks(list, SimRules(k, cal)), list[i].path)
  {
    hide FinalMarks, AllFinished;
    SumOfSimRules(k, cal);
    NoCountsNoMarks(list, SimRules(k, cal));
  }

  lemma MarksMean(list: seq<Info>, before: seq<Option<SimMark>>, after: seq<Option<SimMark>>, final: Marks)
    requires Agrees(list, before, final) && |after| == |list| == |before|
    requires forall i :: 0 <= i < |list| ==> after[i] == if before[i].Some? then before[i] else Some(SimRemove)
    ensures forall i :: 0 <= i < |list| ==> (after[i] == Some(SimKeep) <==> Survives(final, list[i].path))
  {
    forall i | 0 <= i < |list|
      ensures after[i] == Some(SimKeep) <==> Survives(final, list[i].path)
    {
      assert MarkOf(final, list[i].path) == if before[i].Some? then Some(AsMark(before[i].value)) else None;
    }
  }

  lemma SingleParam(list: seq<Info>, marks: seq<Option<SimMark>>, k: KeepParams, cal: Calendar)
    requires DistinctPaths(list) && AllFinished(list) && |marks| == |list|
    requires forall i :: 0 <= i < |list| ==>
      (marks[i] == Some(SimKeep) <==> Survives(FinalMarks(list, SimRules(k, cal)), list[i].path))
    ensures k == NO_PARAMS.(last := k.last) ==> SimKeepsFirsts(list, marks, k.last, cal.last)
    ensures k == NO_PARAMS.(hourly := k.hourly) ==> SimKeepsFirsts(list, marks, k.hourly, cal.hourly)
    ensures k == NO_PARAMS.(daily := k.daily) ==> SimKeepsFirsts(list, marks, k.daily, cal.daily)
    ensures k == NO_PARAMS.(weekly := k.weekly) ==> SimKeepsFirsts(list, marks, k.weekly, cal.weekly)
    ensures k == NO_PARAMS.(monthly := k.monthly) ==> SimKeepsFirsts(list, marks, k.monthly, cal.monthly)
    ensures k == NO_PARAMS.(yearly := k.yearly) ==> SimKeepsFirsts(list, marks, k.yearly, cal.yearly)
  {
    hide FinalMarks, Survives, DistinctPaths, AllFinished, FirstOfPeriods, RulesOf;
    SingleOption(list, SimOptions(k), cal);
  }

  method RunPasses(list: seq<Info>, marks: array<Option<SimMark>>, k: KeepParams, cal: Calendar)
    requires DistinctPaths(list) && Incomplete(list) == map[]
    requires marks.Length == |list| && forall i :: 0 <= i < |list| ==> marks[i].None?
    modifies marks
    ensures Agrees(list, marks[..], FinalMarks(list, SimRules(k, cal)))
  {
    hide Pass, Passes, Incomplete;
    ghost var rules, m := SimRules(k, cal), map[];
    PassesStep(m, list, rules);
    PruneMark(list, marks, k.last, cal.last, m);
    m := Pass(m, list, k.last, cal.last);
    PassesStep(m, list, rules[1..]);
    PruneMark(list, marks, k.hourly, cal.hourly, m);
    m := Pass(m, list, k.hourly, cal.hourly);
    PassesStep(m, list, rules[1..][1..]);
    PruneMark(list, marks, k.daily, cal.daily, m);
    m := Pass(m, list, k.daily, cal.daily);
    PassesStep(m, list, rules[1..][1..][1..]);
    PruneMark(list, marks, k.weekly, cal.weekly, m);
    m := Pass(m, list, k.weekly, cal.weekly);
    PassesStep(m, list, rules[1..][1..][1..][1..]);
    PruneMark(list, marks, k.monthly, cal.monthly, m);
    m := Pass(m, list, k.monthly, cal.monthly);
    PassesStep(m, list, rules[1..][1..][1..][1..][1..]);
    PruneMark(list, marks, k.yearly, cal.yearly, m);
    m := Pass(m, list, k.yearly, cal.yearly);
    NoPasses(m, list, rules[1..][1..][1..][1..][1..][1..]);
  }
}
