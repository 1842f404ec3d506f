/** Mark-and-sweep garbage collection interleaved with index writers, snapshot removal and readers.

    Every operation that other tasks can interleave with is one step. Access times are written by the
    file system and may lag the clock by a bounded number of seconds.
 */
module GarbageCollection {
  import opened Common

  /** Seconds subtracted from the cutoff "for safety". */
  const SAFETY_GAP: int := 300

  /** Seconds kept because of the relatime mount option. */
  const RELATIME_GAP: int := 86400

  /** An index writer holding a shared lock since lockTime. */
  datatype Writer = Writer(
    process: nat,
    path: Path,
    lockTime: int,
    inserted: set<Digest>,
    index: seq<Digest>)

  datatype Phase =
    | Idle
    | Started(process: nat, start: int)
    | Walking(process: nat, start: int, oldest: int, must: set<Path>, found: set<Path>)
    | Marking(process: nat, start: int, oldest: int, todo: set<Path>, current: seq<Digest>)
    | Sweeping(process: nat, start: int, oldest: int, left: set<Digest>)

  /** `lag` is how far access times may fall behind the clock; no step changes it. */
  datatype State = State(
    lag: nat,
    clock: int,
    chunks: map<Digest, int>,
    indexes: map<Path, seq<Digest>>,
    writers: map<nat, Writer>,
    phase: Phase)

  datatype Step =
    | Tick(now: int)
    | OpenWriter(id: nat, process: nat, path: Path)
    | Insert(id: nat, digest: Digest, atime: int)
    | AddDigest(id: nat, digest: Digest)
    | Publish(id: nat)
    | DropWriter(id: nat)
    | RemoveIndex(path: Path)
    | ReadChunk(digest: Digest, atime: int)
    | Quarantine(digest: Digest)
    | StartGc(process: nat)
    | ReadOldestWriter
    | FindImage(path: Path)
    | FinishWalk
    | OpenIndex(path: Path)
    | MarkChunk(atime: int)
    | FinishMark
    | SweepChunk(digest: Digest)
    | FinishGc
    | AbortGc

  // ---- Shared locks and the cutoff ----

  /** The oldest time stamp among the shared locks. */
  ghost function OldestSharedLock(writers: map<nat, Writer>): (r: Option<int>)
    ensures r.None? <==> writers == map[]
    ensures r.Some? ==> exists id :: id in writers && writers[id].lockTime == r.value
    ensures forall id :: id in writers ==> r.Some? && r.value <= writers[id].lockTime
  {
    if writers == map[] then None
    else
      var id :| id in writers;
      var rest := OldestSharedLock(writers - {id});
      var t := writers[id].lockTime;
      assert forall j :: j in writers ==> j == id || (j in writers - {id} && (writers - {id})[j] == writers[j]);
      if rest.Some? && rest.value < t then rest else Some(t)
  }

  lemma SingleLock(id: nat, w: Writer)
    ensures OldestSharedLock(map[id := w]) == Some(w.lockTime)
  {
    var m := map[id := w];
    assert id in m;
  }

  /** Chunks with an access time before this are unlinked. */
  function Cutoff(oldest: int, start: int): int {
    var minAtime := start - RELATIME_GAP;
    (if oldest < minAtime then oldest else minAtime) - SAFETY_GAP
  }

  /** A file is too old if and only if it was last used more than 300 seconds before the oldest writer started and
      more than a day and 300 seconds before the collection started. */
  lemma CutoffIsExact(oldest: int, start: int, atime: int)
    ensures atime < Cutoff(oldest, start) <==> atime < oldest - 300 && atime < start - 86400 - 300
  {
  }

  // ---- Steps ----

  predicate Enabled(s: State, step: Step) {
    match step
    case Tick(now) => now >= s.clock
    // other processes cannot get a shared lock while the collector holds the exclusive one
    case OpenWriter(id, process, path) => id !in s.writers && (s.phase.Idle? || s.phase.process == process)
    case Insert(id, d, atime) => id in s.writers && atime >= s.clock - s.lag
    case AddDigest(id, d) => id in s.writers
    case Publish(id) => id in s.writers
    case DropWriter(id) => id in s.writers
    case RemoveIndex(path) => path in s.indexes
    case ReadChunk(d, atime) => d in s.chunks && atime >= s.chunks[d]
    case Quarantine(d) => d in s.chunks
    // no other process may hold any lock
    case StartGc(process) => s.phase.Idle? && forall id :: id in s.writers ==> s.writers[id].process == process
    case ReadOldestWriter => s.phase.Started?
    case FindImage(path) => s.phase.Walking? && path in s.indexes
    // a walk may miss or see files that come and go, but not one that was there all the time
    case FinishWalk => s.phase.Walking? && s.phase.must <= s.phase.found
    case OpenIndex(path) => s.phase.Marking? && path in s.phase.todo && s.phase.current == []
    case MarkChunk(atime) => s.phase.Marking? && s.phase.current != [] && atime >= s.clock - s.lag
    case FinishMark => s.phase.Marking? && s.phase.todo == {} && s.phase.current == []
    case SweepChunk(d) => s.phase.Sweeping?
    // a listing may miss or see files that come and go, but not one that was there all the time
    case FinishGc => s.phase.Sweeping? && s.phase.left == {}
    case AbortGc => !s.phase.Idle?
  }

  /** Set the access time of an existing chunk file; a missing one is left alone. */
  function Touch(chunks: map<Digest, int>, d: Digest, atime: int): map<Digest, int> {
    if d in chunks then chunks[d := atime] else chunks
  }

  /** Look at one chunk file under the store mutex. */
  function Sweep(chunks: map<Digest, int>, d: Digest, cutoff: int): map<Digest, int> {
    if d in chunks && chunks[d] < cutoff then chunks - {d} else chunks
  }

  ghost function Apply(s: State, step: Step): State
    requires Enabled(s, step)
  {
    match step
    case Tick(now) => s.(clock := now)
    case OpenWriter(id, process, path) =>
      s.(writers := s.writers[id := Writer(process, path, s.clock, {}, [])])
    case Insert(id, d, atime) =>
      var w := s.writers[id];
      s.(chunks := s.chunks[d := atime], writers := s.writers[id := w.(inserted := w.inserted + {d})])
    case AddDigest(id, d) =>
      var w := s.writers[id];
      s.(writers := s.writers[id := w.(index := w.index + [d])])
    case Publish(id) => s.(indexes := s.indexes[s.writers[id].path := s.writers[id].index])
    case DropWriter(id) => s.(writers := s.writers - {id})
    case RemoveIndex(path) =>
      s.(indexes := s.indexes - {path},
         phase := if s.phase.Walking? then s.phase.(must := s.phase.must - {path}) else s.phase)
    case ReadChunk(d, atime) => s.(chunks := s.chunks[d := atime])
    case Quarantine(d) =>
      s.(chunks := s.chunks - {d},
         phase := if s.phase.Sweeping? then s.phase.(left := s.phase.left - {d}) else s.phase)
    case StartGc(process) => s.(phase := Started(process, s.clock))
    case ReadOldestWriter =>
      var lock := OldestSharedLock(s.writers);
      var oldest := if lock.Some? then lock.value else s.phase.start;
      s.(phase := Walking(s.phase.process, s.phase.start, oldest, s.indexes.Keys, {}))
    case FindImage(path) => s.(phase := s.phase.(found := s.phase.found + {path}))
    case FinishWalk => s.(phase := Marking(s.phase.process, s.phase.start, s.phase.oldest, s.phase.found, []))
    case OpenIndex(path) =>
      var content := if path in s.indexes then s.indexes[path] else [];
      s.(phase := s.phase.(todo := s.phase.todo - {path}, current := content))
    case MarkChunk(atime) =>
      s.(chunks := Touch(s.chunks, s.phase.current[0], atime),
         phase := s.phase.(current := s.phase.current[1..]))
    case FinishMark => s.(phase := Sweeping(s.phase.process, s.phase.start, s.phase.oldest, s.chunks.Keys))
    case SweepChunk(d) =>
      s.(chunks := Sweep(s.chunks, d, Cutoff(s.phase.oldest, s.phase.start)),
         phase := s.phase.(left := s.phase.left - {d}))
    case FinishGc => s.(phase := Idle)
    case AbortGc => s.(phase := Idle)
  }

  // ---- The invariant ----

  /** What must not be unlinked: referenced by an index file or inserted by an open writer. */
  ghost predicate Live(s: State, d: Digest) {
    || (exists p :: p in s.indexes && d in s.indexes[p])
    || (exists id :: id in s.writers && d in s.writers[id].inserted)
  }

  /** Two rules under which nothing live is swept. */
  datatype Rule = Touching | Cloning

  ghost predicate Listed(s: State, d: Digest) {
    exists p :: p in s.indexes && d in s.indexes[p]
  }

  /** A published index lists chunks that its writer inserted, or copies from an index that is still there. */
  ghost predicate Covered(s: State, step: Step)
    requires Enabled(s, step)
  {
    step.Publish? ==>
      && s.writers[step.id].path !in s.indexes
      && forall d :: d in s.writers[step.id].index ==> d in s.writers[step.id].inserted || Listed(s, d)
  }

  /** "Create index file happens at the end, after all chunks are touched": either the publishing writer
      has inserted every chunk its index mentions, or chunks may be copied untouched as well, but no index
      goes away while the collector walks and marks. */
  ghost predicate Follows(rule: Rule, s: State, step: Step)
    requires Enabled(s, step)
  {
    match rule
    case Touching =>
      step.Publish? ==> forall d :: d in s.writers[step.id].index ==> d in s.writers[step.id].inserted
    case Cloning => Covered(s, step) && !(step.RemoveIndex? && (s.phase.Walking? || s.phase.Marking?))
  }

  /** Whatever a writer inserted is at most SAFETY_GAP older than its lock. */
  ghost predicate InsertedAfterLock(s: State, id: nat)
    requires id in s.writers
  {
    var w := s.writers[id];
    && w.lockTime <= s.clock
    && forall d :: d in w.inserted && d in s.chunks ==> s.chunks[d] >= w.lockTime - SAFETY_GAP
  }

  /** The mark phase has still to touch chunk d of index p. */
  ghost predicate Pending(phase: Phase, p: Path, d: Digest) {
    match phase
    case Walking(_, _, _, must, _) => p in must
    case Marking(_, _, _, todo, current) => p in todo || d in current
    case _ => false
  }

  predicate HasCutoff(phase: Phase) {
    phase.Walking? || phase.Marking? || phase.Sweeping?
  }

  ghost predicate WriterKnown(s: State, id: nat)
    requires id in s.writers && !s.phase.Idle?
  {
    && s.writers[id].process == s.phase.process
    && (HasCutoff(s.phase) ==> s.writers[id].lockTime >= Min(s.phase.oldest, s.phase.start))
  }

  /** The mark phase has still to touch chunk d, in whichever index that lists it. */
  ghost predicate Awaited(s: State, d: Digest) {
    (s.phase.Marking? && d in s.phase.current) || exists q :: AwaitedIn(s, q, d)
  }

  ghost predicate AwaitedIn(s: State, q: Path, d: Digest) {
    && q in s.indexes && d in s.indexes[q]
    && ((s.phase.Walking? && q in s.phase.must) || (s.phase.Marking? && q in s.phase.todo))
  }

  ghost predicate ReferenceSafe(rule: Rule, s: State, p: Path, d: Digest)
    requires HasCutoff(s.phase)
  {
    p in s.indexes && d in s.indexes[p] && d in s.chunks ==>
      || s.chunks[d] >= Cutoff(s.phase.oldest, s.phase.start)
      || if rule.Touching? then Pending(s.phase, p, d) else Awaited(s, d)
  }

  ghost predicate WritersSafe(s: State) {
    && s.lag <= SAFETY_GAP
    && (forall id :: id in s.writers ==> InsertedAfterLock(s, id))
    && (!s.phase.Idle? ==> s.phase.start <= s.clock && forall id :: id in s.writers ==> WriterKnown(s, id))
  }

  ghost predicate Inv(rule: Rule, s: State) {
    WritersSafe(s) && (HasCutoff(s.phase) ==> forall p, d :: ReferenceSafe(rule, s, p, d))
  }

  lemma WritersSafeStep(s: State, step: Step)
    requires WritersSafe(s) && Enabled(s, step)
    ensures WritersSafe(Apply(s, step))
  {
    var t := Apply(s, step);
    forall id | id in t.writers
      ensures InsertedAfterLock(t, id)
    {
      if id in s.writers {
        assert InsertedAfterLock(s, id);
      }
    }
    if !t.phase.Idle? {
      forall id | id in t.writers
        ensures WriterKnown(t, id)
      {
        if !s.phase.Idle? && id in s.writers {
          assert WriterKnown(s, id);
        }
      }
    }
  }

  /** Every step keeps the invariant. */
  lemma InvStep(rule: Rule, s: State, step: Step)
    requires Inv(rule, s) && Enabled(s, step) && Follows(rule, s, step)
    ensures Inv(rule, Apply(s, step))
  {
    hide Apply, Enabled, WritersSafe, ReferenceSafe;
    WritersSafeStep(s, step);
    if HasCutoff(Apply(s, step).phase) {
      forall p, d
        ensures ReferenceSafe(rule, Apply(s, step), p, d)
      {
        ReferenceSafeStep(rule, s, step, p, d);
      }
    }
  }

  lemma ReferenceSafeStep(rule: Rule, s: State, step: Step, p: Path, d: Digest)
    requires Inv(rule, s) && Enabled(s, step) && Follows(rule, s, step) && HasCutoff(Apply(s, step).phase)
    ensures ReferenceSafe(rule, Apply(s, step), p, d)
  {
    hide OldestSharedLock, Listed;
    var t := Apply(s, step);
    if HasCutoff(s.phase) {
      assert ReferenceSafe(rule, s, p, d);
      if step.Publish? && p == s.writers[step.id].path {
        assert InsertedAfterLock(s, step.id) && WriterKnown(s, step.id);
      }
      if rule.Cloning? && (Listed(s, d) || !step.Publish? || p != s.writers[step.id].path) {
        CopySafeStep(s, step, p, d);
      }
    } else if rule.Cloning? && p in t.indexes && d in t.indexes[p] {
      assert AwaitedIn(t, p, d);
    }
  }

  /** Under the cloning rule a copied reference leans on the index it was copied from. */
  lemma CopySafeStep(s: State, step: Step, p: Path, d: Digest)
    requires Inv(Cloning, s) && Enabled(s, step) && Follows(Cloning, s, step)
    requires HasCutoff(s.phase) && HasCutoff(Apply(s, step).phase)
    requires Listed(s, d) || !step.Publish? || p != s.writers[step.id].path
    ensures ReferenceSafe(Cloning, Apply(s, step), p, d)
  {
    hide OldestSharedLock, Awaited;
    var t := Apply(s, step);
    if p in t.indexes && d in t.indexes[p] && d in t.chunks {
      assert Listed(s, d) by {
        assert step.Publish? || t.indexes == s.indexes || t.indexes == s.indexes - {step.path};
      }
      if d in s.chunks {
        var q :| q in s.indexes && d in s.indexes[q];
        assert ReferenceSafe(Cloning, s, q, d);
        if Awaited(s, d) {
          AwaitedStep(s, step, d);
        }
      }
    }
  }

  /** What awaits its mark is touched or goes on waiting. */
  lemma AwaitedStep(s: State, step: Step, d: Digest)
    requires WritersSafe(s) && Enabled(s, step) && Follows(Cloning, s, step) && Awaited(s, d) && d in s.chunks
    requires HasCutoff(Apply(s, step).phase)
    ensures var t := Apply(s, step);
            d in t.chunks ==> t.chunks[d] >= Cutoff(t.phase.oldest, t.phase.start) || Awaited(t, d)
  {
    hide OldestSharedLock, Covered, InsertedAfterLock, WriterKnown, AwaitedIn;
    if s.phase.Marking? && d in s.phase.current {
    } else {
      hide Apply, Enabled;
      var q :| AwaitedIn(s, q, d);
      AwaitedInStep(s, step, q, d);
    }
  }

  lemma AwaitedInStep(s: State, step: Step, q: Path, d: Digest)
    requires Enabled(s, step) && Follows(Cloning, s, step) && AwaitedIn(s, q, d) && HasCutoff(Apply(s, step).phase)
    ensures Awaited(Apply(s, step), d)
  {
    hide OldestSharedLock, Listed;
    var t := Apply(s, step);
    assert q in t.indexes && t.indexes[q] == s.indexes[q];
    if step != OpenIndex(q) {
      assert AwaitedIn(t, q, d);
    }
  }

  /** An old access time rules out every reason to keep a chunk. */
  lemma SweepSparesLive(rule: Rule, s: State, d: Digest)
    requires Inv(rule, s) && s.phase.Sweeping? && d in s.chunks && Live(s, d)
    ensures s.chunks[d] >= Cutoff(s.phase.oldest, s.phase.start)
  {
    if p :| p in s.indexes && d in s.indexes[p] {
      assert ReferenceSafe(rule, s, p, d);
    } else {
      var id :| id in s.writers && d in s.writers[id].inserted;
      assert InsertedAfterLock(s, id) && WriterKnown(s, id);
    }
  }

  // ---- Whole runs ----

  /** No collection is running and nobody holds a lock; files and their times are arbitrary. */
  predicate Initial(s: State) {
    s.phase.Idle? && s.writers == map[]
  }

  ghost predicate IsRun(states: seq<State>, steps: seq<Step>) {
    && |states| == |steps| + 1
    && Initial(states[0])
    && forall i :: 0 <= i < |steps| ==> StepAt(states, steps, i)
  }

  ghost predicate StepAt(states: seq<State>, steps: seq<Step>, i: nat)
    requires i < |steps| && |states| == |steps| + 1
  {
    Enabled(states[i], steps[i]) && states[i + 1] == Apply(states[i], steps[i])
  }

  /** Every step of the run follows the rule. */
  ghost predicate RunFollows(rule: Rule, states: seq<State>, steps: seq<Step>)
    requires IsRun(states, steps)
  {
    forall i :: 0 <= i < |steps| ==> StepAt(states, steps, i) && Follows(rule, states[i], steps[i])
  }

  lemma {:induction false} InvAlways(rule: Rule, states: seq<State>, steps: seq<Step>, i: nat)
    requires IsRun(states, steps) && RunFollows(rule, states, steps) && i <= |steps|
    requires states[0].lag <= SAFETY_GAP
    ensures Inv(rule, states[i])
  {
    hide Apply, Enabled, Follows;
    if i > 0 {
      InvAlways(rule, states, steps, i - 1);
      assert StepAt(states, steps, i - 1);
      InvStep(rule, states[i - 1], steps[i - 1]);
    }
  }

  /** Only quarantining removes a live chunk: no step of any run sweeps one. */
  lemma LiveChunkSurvivesStep(rule: Rule, states: seq<State>, steps: seq<Step>, i: nat, d: Digest)
    requires IsRun(states, steps) && RunFollows(rule, states, steps) && i < |steps|
    requires states[0].lag <= SAFETY_GAP
    requires d in states[i].chunks && Live(states[i], d) && steps[i] != Quarantine(d)
    ensures d in states[i + 1].chunks
  {
    hide OldestSharedLock, Follows, ReferenceSafe, WritersSafe, Live;
    InvAlways(rule, states, steps, i);
    assert StepAt(states, steps, i);
    if steps[i] == SweepChunk(d) {
      SweepSparesLive(rule, states[i], d);
    }
  }

  /** A chunk that stays live from state i to state j is still there, whatever was collected meanwhile. */
  lemma {:induction false} LiveChunkSurvives(
    rule: Rule, states: seq<State>, steps: seq<Step>, i: nat, j: nat, d: Digest)
    requires IsRun(states, steps) && RunFollows(rule, states, steps) && i <= j <= |steps|
    requires states[0].lag <= SAFETY_GAP
    requires d in states[i].chunks
    requires forall k :: i <= k < j ==> Live(states[k], d) && steps[k] != Quarantine(d)
    ensures d in states[j].chunks
    decreases j
  {
    hide Live, IsRun, RunFollows;
    if i < j {
      LiveChunkSurvives(rule, states, steps, i, j - 1, d);
      LiveChunkSurvivesStep(rule, states, steps, j - 1, d);
    }
  }

  /** Nothing dangles: if the run starts without dangling references and never quarantines, then every
      chunk of every published index and of every open writer exists in every state. */
  lemma {:induction false} NoDanglingReference(rule: Rule, states: seq<State>, steps: seq<Step>, j: nat, d: Digest)
    requires IsRun(states, steps) && RunFollows(rule, states, steps) && j <= |steps|
    requires states[0].lag <= SAFETY_GAP
    requires forall e :: Live(states[0], e) ==> e in states[0].chunks
    requires forall k :: 0 <= k < |steps| ==> !steps[k].Quarantine?
    requires Live(states[j], d)
    ensures d in states[j].chunks
  {
    hide Apply, Enabled, Live, Follows;
    if j > 0 {
      assert StepAt(states, steps, j - 1);
      if Live(states[j - 1], d) {
        NoDanglingReference(rule, states, steps, j - 1, d);
        LiveChunkSurvivesStep(rule, states, steps, j - 1, d);
      } else {
        NewlyLive(rule, states[j - 1], steps[j - 1], d);
      }
    }
  }

  /** Only an insertion makes a chunk live that was not live before. */
  lemma NewlyLive(rule: Rule, s: State, step: Step, d: Digest)
    requires Enabled(s, step) && Follows(rule, s, step) && !Live(s, d) && Live(Apply(s, step), d)
    ensures step.Insert? && step.digest == d && d in Apply(s, step).chunks
  {
    var t := Apply(s, step);
    if id :| id in t.writers && d in t.writers[id].inserted {
      assert id in s.writers ==> d !in s.writers[id].inserted;
    }
  }

  // ---- Garbage goes away ----

  /** From step i to step j one collection runs, and nobody reads or refers to chunk d. */
  ghost predicate GarbageDuring(states: seq<State>, steps: seq<Step>, i: nat, j: nat, d: Digest)
    requires IsRun(states, steps) && i < j < |steps|
  {
    && steps[i].StartGc?
    && (forall k :: i <= k <= j ==> !Live(states[k], d))
    && (forall k :: i < k < j ==>
          !steps[k].FinishGc? && !steps[k].AbortGc? && !(steps[k].ReadChunk? && steps[k].digest == d))
  }

  /** The oldest lock at this moment, or the moment itself. */
  ghost function OldestNow(s: State): int {
    var lock := OldestSharedLock(s.writers);
    if lock.Some? then Min(lock.value, s.clock) else s.clock
  }

  /** While a collection that started in state s0 runs: garbage keeps its access time until it is swept,
      and the cutoff is at least the one computed from the locks at the start. */
  ghost predicate GarbageWaits(s0: State, s: State, d: Digest) {
    && !s.phase.Idle? && s.phase.start == s0.clock <= s.clock
    && (forall id :: id in s.writers ==> s.writers[id].lockTime >= OldestNow(s0))
    && (HasCutoff(s.phase) ==> s.phase.oldest >= OldestNow(s0))
    && (s.phase.Marking? ==> d !in s.phase.current)
    && (d in s.chunks ==> d in s0.chunks && s.chunks[d] == s0.chunks[d])
    && (d in s.chunks && s.phase.Sweeping? ==> d in s.phase.left)
  }

  lemma GarbageWaitsStart(s0: State, step: Step, d: Digest)
    requires step.StartGc? && Enabled(s0, step)
    ensures GarbageWaits(s0, Apply(s0, step), d)
  {
  }

  lemma GarbageWaitsStep(s0: State, s: State, step: Step, d: Digest)
    requires GarbageWaits(s0, s, d) && Enabled(s, step) && !Live(s, d) && !Live(Apply(s, step), d)
    requires !step.FinishGc? && !step.AbortGc? && !(step.ReadChunk? && step.digest == d)
    requires d in s0.chunks ==> s0.chunks[d] < Cutoff(OldestNow(s0), s0.clock)
    ensures GarbageWaits(s0, Apply(s, step), d)
  {
    hide OldestNow;
    var t := Apply(s, step);
    if step.Insert? {
      assert step.digest in t.writers[step.id].inserted;
    }
    if step.OpenWriter? {
      assert OldestNow(s0) <= s0.clock by { OldestNowBound(s0); }
    }
    if step.ReadOldestWriter? {
      assert OldestNow(s0) <= s0.clock by { OldestNowBound(s0); }
    }
  }

  lemma OldestNowBound(s: State)
    ensures OldestNow(s) <= s.clock
  {
  }

  lemma {:induction false} GarbageWaitsAlways(
    states: seq<State>, steps: seq<Step>, i: nat, j: nat, k: nat, d: Digest)
    requires IsRun(states, steps) && i < k <= j < |steps| && GarbageDuring(states, steps, i, j, d)
    requires d in states[i].chunks ==> states[i].chunks[d] < Cutoff(OldestNow(states[i]), states[i].clock)
    ensures GarbageWaits(states[i], states[k], d)
    decreases k
  {
    hide Apply, Enabled, Live, GarbageWaits, OldestNow;
    assert StepAt(states, steps, k - 1);
    if k - 1 == i {
      GarbageWaitsStart(states[i], steps[i], d);
    } else {
      GarbageWaitsAlways(states, steps, i, j, k - 1, d);
      GarbageWaitsStep(states[i], states[k - 1], steps[k - 1], d);
    }
  }

  /** When a collection completes, every chunk is gone that was unreferenced and unread throughout and
      older than the cutoff computed from the locks and the clock at its start. */
  lemma GarbageIsCollected(states: seq<State>, steps: seq<Step>, i: nat, j: nat, d: Digest)
    requires IsRun(states, steps) && i < j < |steps| && GarbageDuring(states, steps, i, j, d)
    requires steps[j].FinishGc?
    requires d in states[i].chunks ==> states[i].chunks[d] < Cutoff(OldestNow(states[i]), states[i].clock)
    ensures d !in states[j + 1].chunks
  {
    hide Live, OldestNow;
    GarbageWaitsAlways(states, steps, i, j, j, d);
    assert StepAt(states, steps, j);
  }

  /** The sweep looks at a file and removes it exactly if it is too old. */
  lemma SweepIsExact(s: State, d: Digest)
    requires s.phase.Sweeping? && d in s.chunks
    ensures d in Apply(s, SweepChunk(d)).chunks <==>
      s.chunks[d] >= s.phase.oldest - 300 || s.chunks[d] >= s.phase.start - 86400 - 300
  {
    hide OldestSharedLock, Cutoff;
    CutoffIsExact(s.phase.oldest, s.phase.start, s.chunks[d]);
  }

  /** In every run, under no rule at all, nothing removes a chunk that was used within a day and 300 seconds before
      the collection, or since 300 seconds before the oldest writer, except that it can be quarantined. */
  lemma RecentChunkStays(states: seq<State>, steps: seq<Step>, i: nat, d: Digest)
    requires IsRun(states, steps) && i < |steps| && StepAt(states, steps, i)
    requires d in states[i].chunks && steps[i] != Quarantine(d)
    requires states[i].phase.Sweeping? ==>
      || states[i].chunks[d] >= states[i].phase.oldest - 300
      || states[i].chunks[d] >= states[i].phase.start - 86400 - 300
    ensures d in states[i + 1].chunks
  {
    hide OldestSharedLock, Cutoff;
    if steps[i] == SweepChunk(d) {
      SweepIsExact(states[i], d);
    }
  }

  // ---- Every collection can be completed ----

  predicate ByCollector(step: Step) {
    || step.ReadOldestWriter? || step.FindImage? || step.FinishWalk? || step.OpenIndex? || step.MarkChunk?
    || step.FinishMark? || step.SweepChunk?
  }

  function PhasesLeft(phase: Phase): nat {
    match phase
    case Idle => 0
    case Started(_, _) => 4
    case Walking(_, _, _, _, _) => 3
    case Marking(_, _, _, _, _) => 2
    case Sweeping(_, _, _, _) => 1
  }

  /** Index files to find or to open, or chunk files to look at. */
  function FilesLeft(phase: Phase): nat {
    match phase
    case Walking(_, _, _, must, found) => |must - found|
    case Marking(_, _, _, todo, _) => |todo|
    case Sweeping(_, _, _, left) => |left|
    case _ => 0
  }

  function ChunksLeft(phase: Phase): nat {
    if phase.Marking? then |phase.current| else 0
  }

  /** The walk only has to find index files that exist. */
  ghost predicate WalkSound(s: State) {
    s.phase.Walking? ==> s.phase.must <= s.indexes.Keys
  }

  lemma {:induction false} WalkSoundAlways(states: seq<State>, steps: seq<Step>, i: nat)
    requires IsRun(states, steps) && i <= |steps|
    ensures WalkSound(states[i])
  {
    hide OldestSharedLock;
    if i > 0 {
      WalkSoundAlways(states, steps, i - 1);
      assert StepAt(states, steps, i - 1);
    }
  }

  /** A collector step to t leaves the references alone and less to do. */
  ghost predicate Proceeds(s: State, t: State) {
    && !t.phase.Idle? && WalkSound(t) && t.indexes == s.indexes && t.writers == s.writers
    && PhasesLeft(t.phase) <= PhasesLeft(s.phase)
    && (PhasesLeft(t.phase) == PhasesLeft(s.phase) ==>
          && FilesLeft(t.phase) <= FilesLeft(s.phase)
          && (FilesLeft(t.phase) == FilesLeft(s.phase) ==> ChunksLeft(t.phase) < ChunksLeft(s.phase)))
  }

  lemma NextOfWalk(s: State) returns (step: Step)
    requires WalkSound(s) && s.phase.Walking?
    ensures ByCollector(step) && Enabled(s, step) && Proceeds(s, Apply(s, step))
  {
    hide Apply, Enabled;
    var must, found := s.phase.must, s.phase.found;
    if must <= found {
      FinishWalkDoes(s);
      return FinishWalk;
    }
    var p :| p in must && p !in found;
    FindingShrinks(must, found, p);
    FindImageDoes(s, p);
    return FindImage(p);
  }

  lemma FindingShrinks(must: set<Path>, found: set<Path>, p: Path)
    requires p in must && p !in found
    ensures |must - (found + {p})| < |must - found|
  {
    assert must - (found + {p}) == (must - found) - {p};
  }

  lemma FinishWalkDoes(s: State)
    requires s.phase.Walking? && s.phase.must <= s.phase.found
    ensures Enabled(s, FinishWalk)
    ensures Apply(s, FinishWalk) ==
      s.(phase := Marking(s.phase.process, s.phase.start, s.phase.oldest, s.phase.found, []))
  {
    hide OldestSharedLock;
  }

  lemma FindImageDoes(s: State, p: Path)
    requires s.phase.Walking? && p in s.indexes
    ensures Enabled(s, FindImage(p)) && Apply(s, FindImage(p)) == s.(phase := s.phase.(found := s.phase.found + {p}))
  {
    hide OldestSharedLock;
  }

  lemma NextOfMark(s: State) returns (step: Step)
    requires s.phase.Marking?
    ensures ByCollector(step) && Enabled(s, step) && Proceeds(s, Apply(s, step))
  {
    hide OldestSharedLock;
    if s.phase.current != [] {
      return MarkChunk(s.clock);
    } else if s.phase.todo == {} {
      return FinishMark;
    }
    var p :| p in s.phase.todo;
    return OpenIndex(p);
  }

  /** The collector is never stuck. */
  lemma NextOfCollector(s: State) returns (step: Step)
    requires WalkSound(s) && !s.phase.Idle? && !(s.phase.Sweeping? && s.phase.left == {})
    ensures ByCollector(step) && Enabled(s, step) && Proceeds(s, Apply(s, step))
  {
    hide OldestSharedLock;
    if s.phase.Walking? {
      hide Apply, Enabled, Proceeds;
      step := NextOfWalk(s);
    } else if s.phase.Marking? {
      hide Apply, Enabled, Proceeds;
      step := NextOfMark(s);
    } else if s.phase.Started? {
      step := ReadOldestWriter;
    } else {
      var d :| d in s.phase.left;
      step := SweepChunk(d);
    }
  }

  /** From every state of every run a running collection can be completed by its own steps. */
  lemma {:induction false} CanComplete(s: State) returns (states: seq<State>, steps: seq<Step>)
    requires WalkSound(s) && !s.phase.Idle?
    ensures |states| == |steps| + 1 && states[0] == s
    ensures forall k :: 0 <= k < |steps| ==> StepAt(states, steps, k)
    ensures steps != [] && steps[|steps| - 1].FinishGc? && forall k :: 0 <= k < |steps| - 1 ==> ByCollector(steps[k])
    ensures forall k :: 0 <= k < |states| ==> states[k].indexes == s.indexes && states[k].writers == s.writers
    decreases PhasesLeft(s.phase), FilesLeft(s.phase), ChunksLeft(s.phase)
  {
    hide Apply, PhasesLeft, FilesLeft, ChunksLeft, ByCollector, WalkSound;
    if s.phase.Sweeping? && s.phase.left == {} {
      steps := [FinishGc];
      states := [s, s.(phase := Idle)];
      LastStep(s);
    } else {
      var step := NextOfCollector(s);
      var states', steps' := CanComplete(Apply(s, step));
      steps := [step] + steps';
      states := [s] + states';
      forall k | 0 <= k < |steps|
        ensures StepAt(states, steps, k)
      {
        if k > 0 {
          assert StepAt(states', steps', k - 1);
        }
      }
    }
  }

  lemma LastStep(s: State)
    requires s.phase.Sweeping? && s.phase.left == {}
    ensures Enabled(s, FinishGc) && Apply(s, FinishGc) == s.(phase := Idle)
  {
  }

  /** From every idle store a collection exists that completes, and it removes all old garbage. */
  lemma OldGarbageGoes(s0: State) returns (states: seq<State>, steps: seq<Step>)
    requires Initial(s0)
    ensures IsRun(states, steps) && states[0] == s0 && steps != [] && states[|steps|].phase.Idle?
    ensures forall d :: d in s0.chunks && !Live(s0, d) && s0.chunks[d] < Cutoff(s0.clock, s0.clock) ==>
      d !in states[|steps|].chunks
  {
    hide Live, ByCollector;
    var step := StartGc(0);
    var s1 := Apply(s0, step);
    var states', steps' := CanComplete(s1);
    steps := [step] + steps';
    states := [s0] + states';
    forall k | 0 <= k < |steps|
      ensures StepAt(states, steps, k)
    {
      if k > 0 {
        assert StepAt(states', steps', k - 1);
      }
    }
    var n := |steps| - 1;
    assert StepAt(states, steps, n);
    forall d | d in s0.chunks && !Live(s0, d) && s0.chunks[d] < Cutoff(s0.clock, s0.clock)
      ensures d !in states[n + 1].chunks
    {
      StaysGarbage(states, steps, n, d);
      GarbageIsCollected(states, steps, 0, n, d);
    }
  }

  lemma StaysGarbage(states: seq<State>, steps: seq<Step>, n: nat, d: Digest)
    requires IsRun(states, steps) && 0 < n < |steps| && steps[0].StartGc? && !Live(states[0], d)
    requires forall k :: 0 <= k <= n ==>
      states[k].indexes == states[0].indexes && states[k].writers == states[0].writers
    requires forall k :: 0 < k < n ==> ByCollector(steps[k])
    ensures GarbageDuring(states, steps, 0, n, d)
  {
    forall k | 0 <= k <= n
      ensures !Live(states[k], d)
    {
      assert states[k].indexes == states[0].indexes && states[k].writers == states[0].writers;
    }
  }

  // ---- The rule for clones is needed ----

  /** An incremental backup copies a digest from its base and is finished after the walk; then the base
      is forgotten before mark opens it. */
  function CloneRace(d: Digest, base: Path, clone: Path): seq<Step> {
    [ OpenWriter(0, 0, clone), AddDigest(0, d),
      StartGc(0), ReadOldestWriter, FindImage(base), FinishWalk,
      Publish(0), DropWriter(0), RemoveIndex(base),
      OpenIndex(base), FinishMark, SweepChunk(d)
    ]
  }

  ghost predicate Leads(s: State, step: Step, t: State) {
    Enabled(s, step) && t == Apply(s, step)
  }

  /** The writer copies the digest of the base index, then a collection starts. */
  lemma RaceUpToWalk(s0: State, d: Digest, base: Path, clone: Path) returns (states: seq<State>)
    requires s0 == State(s0.lag, s0.clock, s0.chunks, map[base := [d]], map[], Idle)
    ensures |states| == 5 && states[0] == s0
    ensures forall i :: 0 <= i < 4 ==> Leads(states[i], CloneRace(d, base, clone)[i], states[i + 1])
    ensures states[4] == s0.(writers := map[0 := Writer(0, clone, s0.clock, {}, [d])],
                             phase := Walking(0, s0.clock, s0.clock, {base}, {}))
  {
    var now := s0.clock;
    var w := Writer(0, clone, now, {}, []);
    var s1 := s0.(writers := s0.writers[0 := w]);
    var s2 := s1.(writers := s1.writers[0 := w.(index := w.index + [d])]);
    assert w.index + [d] == [d];
    assert s2.writers == map[0 := Writer(0, clone, now, {}, [d])];
    var s3 := s2.(phase := Started(0, now));
    SingleLock(0, s2.writers[0]);
    assert s3.indexes.Keys == {base};
    states := [s0, s1, s2, s3, s3.(phase := Walking(0, now, now, {base}, {}))];
  }

  /** The walk finds the base only; the backup is finished behind it. */
  lemma RaceUpToPublish(s4: State, d: Digest, base: Path, clone: Path) returns (states: seq<State>)
    requires base != clone && s4.indexes == map[base := [d]]
    requires s4.writers == map[0 := Writer(0, clone, s4.clock, {}, [d])]
    requires s4.phase == Walking(0, s4.clock, s4.clock, {base}, {})
    ensures |states| == 5 && states[0] == s4
    ensures forall i :: 0 <= i < 4 ==> Leads(states[i], CloneRace(d, base, clone)[4 + i], states[i + 1])
    ensures 0 in states[2].writers && Covered(states[2], Publish(0))
    ensures states[4] == s4.(indexes := map[base := [d], clone := [d]], writers := map[],
                             phase := Marking(0, s4.clock, s4.clock, {base}, []))
  {
    hide OldestSharedLock;
    var now := s4.clock;
    var s5 := s4.(phase := s4.phase.(found := {} + {base}));
    assert s5.phase.found == {base};
    var s6 := s5.(phase := Marking(0, now, now, {base}, []));
    assert Listed(s6, d) by {
      assert base in s6.indexes && d in s6.indexes[base];
    }
    var s7 := s6.(indexes := s6.indexes[clone := [d]]);
    assert s7.indexes == map[base := [d], clone := [d]];
    var s8 := s7.(writers := s7.writers - {0});
    assert s8.writers == map[];
    states := [s4, s5, s6, s7, s8];
  }

  /** Nothing is touched because the base index is gone when mark tries to open it. */
  lemma RaceUpToSweep(s8: State, d: Digest, base: Path, clone: Path) returns (states: seq<State>)
    requires base != clone && s8.indexes == map[base := [d], clone := [d]]
    requires d in s8.chunks && s8.chunks[d] < Cutoff(s8.clock, s8.clock)
    requires s8.phase == Marking(0, s8.clock, s8.clock, {base}, [])
    ensures |states| == 5 && states[0] == s8
    ensures forall i :: 0 <= i < 4 ==> Leads(states[i], CloneRace(d, base, clone)[8 + i], states[i + 1])
    ensures d in states[3].chunks && clone in states[3].indexes && d in states[3].indexes[clone]
    ensures d !in states[4].chunks
  {
    hide OldestSharedLock;
    var now := s8.clock;
    var s9 := s8.(indexes := s8.indexes - {base});
    var s10 := s9.(phase := s9.phase.(todo := {base} - {base}, current := []));
    assert {base} - {base} == {};
    var s11 := s10.(phase := Sweeping(0, now, now, s10.chunks.Keys));
    var s12 := s11.(chunks := s11.chunks - {d}, phase := s11.phase.(left := s11.phase.left - {d}));
    states := [s8, s9, s10, s11, s12];
  }

  /** Cloning is unsafe without the second half of its rule: in this run the base is there when the clone is
      published, no time stamp lags, and yet the sweep removes a chunk of the published index. */
  lemma UntouchedCloneIsSwept(s0: State, d: Digest, base: Path, clone: Path) returns (states: seq<State>)
    requires base != clone
    requires var atime := s0.clock - RELATIME_GAP - SAFETY_GAP - 1;
             s0 == State(0, s0.clock, map[d := atime], map[base := [d]], map[], Idle)
    ensures IsRun(states, CloneRace(d, base, clone)) && states[0] == s0
    ensures var steps := CloneRace(d, base, clone);
            forall i :: 0 <= i < 12 ==> StepAt(states, steps, i) && Covered(states[i], steps[i])
    ensures d in states[11].chunks && Live(states[11], d) && d !in states[12].chunks
  {
    hide Apply, Enabled;
    var before := RaceUpToWalk(s0, d, base, clone);
    var published := RaceUpToPublish(before[4], d, base, clone);
    var during := RaceUpToSweep(published[4], d, base, clone);
    states := before + published[1..] + during[1..];
    var steps := CloneRace(d, base, clone);
    forall i | 0 <= i < 12
      ensures StepAt(states, steps, i) && Covered(states[i], steps[i])
    {
      if i < 4 {
        assert Leads(before[i], steps[i], before[i + 1]);
      } else if i < 8 {
        assert Leads(published[i - 4], steps[4 + (i - 4)], published[i - 3]);
      } else {
        assert Leads(during[i - 8], steps[8 + (i - 8)], during[i - 7]);
      }
    }
  }

  // ---- The gap is exact ----

  /** A writer inserts a chunk, and more than a day later a collection runs beside it. */
  function LateRace(d: Digest, now: int, atime: int): seq<Step> {
    [ OpenWriter(0, 0, "new.didx"), Insert(0, d, atime), Tick(now), StartGc(0), ReadOldestWriter,
      FinishWalk, FinishMark, SweepChunk(d)
    ]
  }

  lemma LateUpToGc(s0: State, d: Digest, now: int, atime: int) returns (states: seq<State>)
    requires s0 == State(s0.lag, 0, map[], map[], map[], Idle) && now >= 0 && atime >= 0 - s0.lag
    ensures |states| == 5 && states[0] == s0
    ensures forall i :: 0 <= i < 4 ==> Leads(states[i], LateRace(d, now, atime)[i], states[i + 1])
    ensures var w := Writer(0, "new.didx", 0, {d}, []);
            states[4] == State(s0.lag, now, map[d := atime], map[], map[0 := w], Started(0, now))
  {
    hide OldestSharedLock;
    var w := Writer(0, "new.didx", 0, {}, []);
    var s1 := s0.(writers := s0.writers[0 := w]);
    var w' := w.(inserted := w.inserted + {d});
    assert w'.inserted == {d};
    var s2 := s1.(chunks := s1.chunks[d := atime], writers := s1.writers[0 := w']);
    assert s2.writers == map[0 := w'] && s2.chunks == map[d := atime];
    var s3 := s2.(clock := now);
    states := [s0, s1, s2, s3, s3.(phase := Started(0, now))];
  }

  lemma LateSweep(s4: State, d: Digest, now: int, atime: int) returns (states: seq<State>)
    requires var w := Writer(0, "new.didx", 0, {d}, []);
             s4 == State(s4.lag, now, map[d := atime], map[], map[0 := w], Started(0, now))
    requires atime < 0 - SAFETY_GAP && now >= RELATIME_GAP
    ensures |states| == 5 && states[0] == s4
    ensures forall i :: 0 <= i < 4 ==> Leads(states[i], LateRace(d, now, atime)[4 + i], states[i + 1])
    ensures d in states[3].chunks && Live(states[3], d) && d !in states[4].chunks
  {
    hide OldestSharedLock;
    SingleLock(0, s4.writers[0]);
    assert s4.indexes.Keys == {};
    var s5 := s4.(phase := Walking(0, now, 0, {}, {}));
    var s6 := s5.(phase := Marking(0, now, 0, {}, []));
    var s7 := s6.(phase := Sweeping(0, now, 0, s6.chunks.Keys));
    var s8 := s7.(chunks := s7.chunks - {d}, phase := s7.phase.(left := s7.phase.left - {d}));
    states := [s4, s5, s6, s7, s8];
    assert d in s7.writers[0].inserted;
  }

  /** With any lag beyond the gap, a run of writers that touch everything sweeps a chunk of an open writer:
      the bound in the theorems above cannot be raised. */
  lemma LargerLagIsUnsafe(lag: nat, d: Digest) returns (states: seq<State>, steps: seq<Step>)
    requires lag > SAFETY_GAP
    ensures IsRun(states, steps) && RunFollows(Touching, states, steps) && states[0].lag == lag && |steps| == 8
    ensures d in states[7].chunks && Live(states[7], d) && d !in states[8].chunks
  {
    hide Live, Apply, Enabled;
    var now, atime := RELATIME_GAP, 0 - lag;
    steps := LateRace(d, now, atime);
    var before := LateUpToGc(State(lag, 0, map[], map[], map[], Idle), d, now, atime);
    var during := LateSweep(before[4], d, now, atime);
    states := before + during[1..];
    forall i | 0 <= i < 8
      ensures StepAt(states, steps, i)
    {
      if i >= 4 {
        assert Leads(during[i - 4], steps[4 + (i - 4)], during[i - 3]);
      } else {
        assert Leads(before[i], steps[i], before[i + 1]);
      }
    }
  }
}
