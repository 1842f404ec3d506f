/** Verifying the chunks of an index: one producer loop and a pool of decoder threads over shared sets. */
module Verify {
  import opened Common

  datatype CryptMode = NoCrypt | SignOnly | Encrypt

  /** A loaded chunk file: the kind its magic number announces, and what decoding yields. */
  datatype Blob = Blob(magic: Magic, decoded: Option<Bytes>)

  datatype Magic = Plain | Encrypted | Unknown

  datatype ChunkRef = ChunkRef(digest: Digest, size: nat)

  function BlobMode(blob: Blob): Option<CryptMode> {
    match blob.magic
    case Plain => Some(NoCrypt)
    case Encrypted => Some(Encrypt)
    case Unknown => None
  }

  /** Encrypted chunks pass unseen; others must decode to the digest and the expected size. */
  predicate VerifyUnencrypted(blob: Blob, chunk: ChunkRef, hash: Bytes -> Digest) {
    || blob.magic.Encrypted?
    || (blob.magic.Plain? && blob.decoded.Some? && hash(blob.decoded.value) == chunk.digest
        && |blob.decoded.value| == chunk.size)
  }

  // ---- The step system ----

  datatype Stage = Start | Verifying | Failing

  /** A job in the pool; a failing one has marked its chunk corrupt and has still to count the error. */
  datatype Job = Job(blob: Blob, chunk: ChunkRef, stage: Stage)

  /** Where the producer loop is; the Count stages have a pending error. */
  datatype Pc = Check | CheckCorrupt | CountCorrupt | Load | CountLoad | Complete | Done(ok: bool)

  datatype Config = Config(index: seq<ChunkRef>, cryptMode: CryptMode, hash: Bytes -> Digest)

  datatype State = State(
    pos: nat,
    pc: Pc,
    jobs: seq<Job>,
    verified: set<Digest>,
    corrupt: set<Digest>,
    errors: nat,
    loads: set<(Digest, Blob)>)

  datatype Step = Producer | LoadChunk(result: Option<Blob>) | Worker(k: nat) | Abort

  predicate Enabled(c: Config, s: State, step: Step) {
    match step
    case Producer => !s.pc.Load? && !s.pc.Done? && (s.pc.Complete? ==> s.jobs == [])
    case LoadChunk(_) => s.pc.Load?
    case Worker(k) => k < |s.jobs|
    case Abort => s.pc.Check?
  }

  ghost predicate WellFormed(c: Config, s: State) {
    && s.pos <= |c.index|
    && (s.pc.CheckCorrupt? || s.pc.CountCorrupt? || s.pc.Load? || s.pc.CountLoad? ==> s.pos < |c.index|)
  }

  function RemoveAt<T>(s: seq<T>, k: nat): seq<T>
    requires k < |s|
  {
    s[..k] + s[k + 1..]
  }

  function ProducerStep(c: Config, s: State): State
    requires WellFormed(c, s) && Enabled(c, s, Producer)
  {
    match s.pc
    case Check =>
      if s.pos == |c.index| then s.(pc := Complete)
      else if c.index[s.pos].digest in s.verified then s.(pos := s.pos + 1)
      else s.(pc := CheckCorrupt)
    case CheckCorrupt => if c.index[s.pos].digest in s.corrupt then s.(pc := CountCorrupt) else s.(pc := Load)
    case CountCorrupt => s.(errors := s.errors + 1, pos := s.pos + 1, pc := Check)
    case CountLoad => s.(errors := s.errors + 1, pos := s.pos + 1, pc := Check)
    case Complete => s.(pc := Done(s.errors == 0))
  }

  function WorkerStep(c: Config, s: State, k: nat): State
    requires k < |s.jobs|
  {
    var job := s.jobs[k];
    match job.stage
    case Start =>
      var mode := BlobMode(job.blob);
      if mode.None? then
        s.(corrupt := s.corrupt + {job.chunk.digest}, jobs := s.jobs[k := job.(stage := Failing)])
      else
        s.(errors := s.errors + (if mode.value != c.cryptMode then 1 else 0),
           jobs := s.jobs[k := job.(stage := Verifying)])
    case Verifying =>
      if VerifyUnencrypted(job.blob, job.chunk, c.hash) then
        s.(verified := s.verified + {job.chunk.digest}, jobs := RemoveAt(s.jobs, k))
      else
        s.(corrupt := s.corrupt + {job.chunk.digest}, jobs := s.jobs[k := job.(stage := Failing)])
    case Failing => s.(errors := s.errors + 1, jobs := RemoveAt(s.jobs, k))
  }

  function Apply(c: Config, s: State, step: Step): State
    requires WellFormed(c, s) && Enabled(c, s, step)
  {
    match step
    case Producer => ProducerStep(c, s)
    case LoadChunk(result) =>
      var chunk := c.index[s.pos];
      if result.None? then s.(corrupt := s.corrupt + {chunk.digest}, pc := CountLoad)
      else
        s.(jobs := s.jobs + [Job(result.value, chunk, Start)], loads := s.loads + {(chunk.digest, result.value)},
           pos := s.pos + 1, pc := Check)
    case Worker(k) => WorkerStep(c, s, k)
    case Abort => s.(pc := Done(false))
  }

  // ---- Invariants ----

  /** The digest is verified, will be decided by a job, or its failure is counted or about to be. */
  ghost predicate Accounted(s: State, d: Digest) {
    d in s.verified || s.errors > 0 || exists k :: 0 <= k < |s.jobs| && s.jobs[k].chunk.digest == d
  }

  /** The chunk was verified before, or was loaded and is encrypted or hashes to its digest. */
  ghost predicate Vouched(c: Config, before: set<Digest>, s: State, d: Digest) {
    d in before || exists blob :: (d, blob) in s.loads && Genuine(c, blob, d)
  }

  ghost predicate Genuine(c: Config, blob: Blob, d: Digest) {
    blob.magic.Encrypted? || (blob.magic.Plain? && blob.decoded.Some? && c.hash(blob.decoded.value) == d)
  }

  ghost predicate Inv(c: Config, before: set<Digest>, s: State) {
    && WellFormed(c, s)
    && (!s.pc.Done? ==> forall i :: 0 <= i < s.pos ==> Accounted(s, c.index[i].digest))
    && (forall k :: 0 <= k < |s.jobs| ==> (s.jobs[k].chunk.digest, s.jobs[k].blob) in s.loads)
    && (forall d :: d in s.verified ==> Vouched(c, before, s, d))
    && (s.pc.Complete? ==> s.pos == |c.index|)
    && (s.pc == Done(true) ==> forall i :: 0 <= i < |c.index| ==> c.index[i].digest in s.verified)
  }

  lemma RemoveAtKeeps<T>(s: seq<T>, k: nat, i: nat) returns (j: nat)
    requires k < |s| && i < |s| && i != k
    ensures j < |RemoveAt(s, k)| && RemoveAt(s, k)[j] == s[i]
  {
    j := if i < k then i else i - 1;
  }

  /** No step loses track of a chunk that was accounted for. */
  lemma StaysAccounted(c: Config, s: State, step: Step, d: Digest)
    requires WellFormed(c, s) && Enabled(c, s, step) && Accounted(s, d)
    ensures Accounted(Apply(c, s, step), d)
  {
    hide WorkerStep;
    if step.Worker? {
      WorkerAccounts(c, s, step.k, d);
    } else if d !in s.verified && s.errors == 0 {
      var i :| 0 <= i < |s.jobs| && s.jobs[i].chunk.digest == d;
      assert Apply(c, s, step).jobs[i] == s.jobs[i];
    }
  }

  lemma WorkerAccounts(c: Config, s: State, k: nat, d: Digest)
    requires k < |s.jobs| && Accounted(s, d)
    ensures Accounted(WorkerStep(c, s, k), d)
  {
    hide VerifyUnencrypted, BlobMode;
    var t := WorkerStep(c, s, k);
    if d !in s.verified && s.errors == 0 {
      var i :| 0 <= i < |s.jobs| && s.jobs[i].chunk.digest == d;
      if |t.jobs| == |s.jobs| {
        assert t.jobs[i].chunk.digest == d;
      } else if i != k {
        hide WorkerStep, RemoveAt;
        var j := RemoveAtKeeps(s.jobs, k, i);
        assert t.jobs == RemoveAt(s.jobs, k) by { WorkerShrinks(c, s, k); }
      }
    }
  }

  lemma WorkerShrinks(c: Config, s: State, k: nat)
    requires k < |s.jobs| && |WorkerStep(c, s, k).jobs| != |s.jobs|
    ensures WorkerStep(c, s, k).jobs == RemoveAt(s.jobs, k)
  {
  }

  lemma StaysVouched(c: Config, before: set<Digest>, s: State, t: State, d: Digest)
    requires Vouched(c, before, s, d) && s.loads <= t.loads
    ensures Vouched(c, before, t, d)
  {
  }

  lemma JobsStayLoaded(c: Config, s: State, step: Step)
    requires WellFormed(c, s) && Enabled(c, s, step)
    requires forall k :: 0 <= k < |s.jobs| ==> (s.jobs[k].chunk.digest, s.jobs[k].blob) in s.loads
    ensures var t := Apply(c, s, step);
            && s.loads <= t.loads
            && forall k :: 0 <= k < |t.jobs| ==> (t.jobs[k].chunk.digest, t.jobs[k].blob) in t.loads
  {
  }

  lemma VerifiedStayVouched(c: Config, before: set<Digest>, s: State, step: Step, d: Digest)
    requires Inv(c, before, s) && Enabled(c, s, step) && d in Apply(c, s, step).verified
    ensures Vouched(c, before, Apply(c, s, step), d)
  {
    var t := Apply(c, s, step);
    JobsStayLoaded(c, s, step);
    if d in s.verified {
      StaysVouched(c, before, s, t, d);
    } else {
      var job := s.jobs[step.k];
      assert (d, job.blob) in t.loads && Genuine(c, job.blob, d);
    }
  }

  /** Every step of the producer, the store or a worker keeps the invariant. */
  lemma InvStep(c: Config, before: set<Digest>, s: State, step: Step)
    requires Inv(c, before, s) && Enabled(c, s, step)
    ensures Inv(c, before, Apply(c, s, step))
  {
    hide Vouched;
    var t := Apply(c, s, step);
    JobsStayLoaded(c, s, step);
    forall i | 0 <= i < t.pos && !t.pc.Done?
      ensures Accounted(t, c.index[i].digest)
    {
      if i < s.pos {
        StaysAccounted(c, s, step, c.index[i].digest);
      } else if step.LoadChunk? {
        assert t.jobs[|s.jobs|].chunk.digest == c.index[i].digest;
      }
    }
    forall d | d in t.verified
      ensures Vouched(c, before, t, d)
    {
      VerifiedStayVouched(c, before, s, step, d);
    }
    if t.pc == Done(true) && s.pc.Complete? {
      forall i | 0 <= i < |c.index|
        ensures c.index[i].digest in t.verified
      {
        assert Accounted(s, c.index[i].digest);
      }
    }
  }

  // ---- Whole runs ----

  predicate Initial(s: State) {
    s.pos == 0 && s.pc.Check? && s.jobs == [] && s.errors == 0
  }

  ghost predicate IsRun(c: Config, states: seq<State>, steps: seq<Step>) {
    && |states| == |steps| + 1
    && Initial(states[0])
    && forall i :: 0 <= i < |steps| ==> StepAt(c, states, steps, i)
  }

  ghost predicate StepAt(c: Config, states: seq<State>, steps: seq<Step>, i: nat)
    requires i < |steps| && |states| == |steps| + 1
  {
    WellFormed(c, states[i]) && Enabled(c, states[i], steps[i]) && states[i + 1] == Apply(c, states[i], steps[i])
  }

  lemma {:induction false} InvAlways(c: Config, states: seq<State>, steps: seq<Step>, i: nat)
    requires IsRun(c, states, steps) && i <= |steps|
    ensures Inv(c, states[0].verified, states[i])
  {
    hide Apply, Enabled;
    if i == 0 {
    } else {
      InvAlways(c, states, steps, i - 1);
      assert StepAt(c, states, steps, i - 1);
      InvStep(c, states[0].verified, states[i - 1], steps[i - 1]);
    }
  }

  /** In every interleaving, success means that every digest of the index is in the verified set, and
      every member of that set was there before or has been loaded and is encrypted or genuine. */
  lemma OkMeansVerified(c: Config, states: seq<State>, steps: seq<Step>, i: nat)
    requires IsRun(c, states, steps) && i <= |steps| && states[i].pc == Done(true)
    ensures forall k :: 0 <= k < |c.index| ==>
      c.index[k].digest in states[i].verified && Vouched(c, states[0].verified, states[i], c.index[k].digest)
    ensures forall d :: d in states[i].verified ==> Vouched(c, states[0].verified, states[i], d)
  {
    hide IsRun, Vouched;
    InvAlways(c, states, steps, i);
  }

  /** The step is not an abort, and what it loads is a sound chunk of the right kind. */
  ghost predicate SoundStep(c: Config, s: State, step: Step)
    requires WellFormed(c, s) && Enabled(c, s, step)
  {
    match step
    case Abort => false
    case LoadChunk(result) =>
      && result.Some?
      && BlobMode(result.value) == Some(c.cryptMode) && VerifyUnencrypted(result.value, c.index[s.pos], c.hash)
    case _ => true
  }

  ghost predicate SoundJob(c: Config, job: Job) {
    !job.stage.Failing? && BlobMode(job.blob) == Some(c.cryptMode) && VerifyUnencrypted(job.blob, job.chunk, c.hash)
  }

  ghost predicate NoneCorrupt(c: Config, s: State) {
    forall i :: 0 <= i < |c.index| ==> c.index[i].digest !in s.corrupt
  }

  ghost predicate Clean(c: Config, s: State) {
    && s.errors == 0 && s.pc != Done(false) && !s.pc.CountCorrupt? && !s.pc.CountLoad?
    && NoneCorrupt(c, s)
    && forall k :: 0 <= k < |s.jobs| ==> SoundJob(c, s.jobs[k])
  }

  lemma CleanStep(c: Config, s: State, step: Step)
    requires WellFormed(c, s) && Enabled(c, s, step) && Clean(c, s) && SoundStep(c, s, step)
    ensures Clean(c, Apply(c, s, step))
  {
    hide VerifyUnencrypted, BlobMode, WorkerStep;
    if step.Worker? {
      hide SoundJob;
      SoundWorker(c, s, step.k);
    } else {
      var t := Apply(c, s, step);
      forall k | 0 <= k < |t.jobs|
        ensures SoundJob(c, t.jobs[k])
      {
        assert k < |s.jobs| ==> t.jobs[k] == s.jobs[k] && SoundJob(c, s.jobs[k]);
      }
    }
  }

  /** A worker on sound jobs changes nothing but the jobs and the verified set. */
  lemma SoundWorker(c: Config, s: State, k: nat)
    requires k < |s.jobs| && forall i :: 0 <= i < |s.jobs| ==> SoundJob(c, s.jobs[i])
    ensures var t := WorkerStep(c, s, k);
            && t == s.(jobs := t.jobs, verified := t.verified)
            && forall i :: 0 <= i < |t.jobs| ==> SoundJob(c, t.jobs[i])
  {
    hide VerifyUnencrypted, BlobMode, RemoveAt;
    assert SoundJob(c, s.jobs[k]);
    SoundRemoved(c, s.jobs, k);
  }

  lemma SoundRemoved(c: Config, jobs: seq<Job>, k: nat)
    requires k < |jobs| && forall i :: 0 <= i < |jobs| ==> SoundJob(c, jobs[i])
    ensures forall i :: 0 <= i < |RemoveAt(jobs, k)| ==> SoundJob(c, RemoveAt(jobs, k)[i])
  {
    hide SoundJob;
    forall i | 0 <= i < |RemoveAt(jobs, k)|
      ensures SoundJob(c, RemoveAt(jobs, k)[i])
    {
      assert RemoveAt(jobs, k)[i] == jobs[if i < k then i else i + 1];
    }
  }

  /** With sound chunks, none marked corrupt and no abort, no interleaving counts an error, so whenever the
      verification ends it succeeds. */
  lemma {:induction false} SoundRunSucceeds(c: Config, states: seq<State>, steps: seq<Step>, i: nat)
    requires IsRun(c, states, steps) && i <= |steps| && NoneCorrupt(c, states[0])
    requires forall k :: 0 <= k < |steps| ==> StepAt(c, states, steps, k) && SoundStep(c, states[k], steps[k])
    ensures Clean(c, states[i]) && (states[i].pc.Done? ==> states[i].pc == Done(true))
  {
    hide Apply, SoundStep, NoneCorrupt, SoundJob;
    if i == 0 {
    } else {
      SoundRunSucceeds(c, states, steps, i - 1);
      assert StepAt(c, states, steps, i - 1);
      CleanStep(c, states[i - 1], steps[i - 1]);
    }
  }

  // ---- Success is exact ----

  /** What a loaded chunk has to be: an unencrypted one in an unencrypted index must decode to the size and the
      digest of its entry, an encrypted one must be in an encrypted index. No chunk is only signed. */
  ghost predicate Fits(c: Config, blob: Blob, chunk: ChunkRef) {
    match c.cryptMode
    case NoCrypt =>
      && blob.magic.Plain? && blob.decoded.Some?
      && |blob.decoded.value| == chunk.size && c.hash(blob.decoded.value) == chunk.digest
    case Encrypt => blob.magic.Encrypted?
    case SignOnly => false
  }

  /** A worker finds no fault exactly with what fits. */
  lemma FitsExactly(c: Config, blob: Blob, chunk: ChunkRef)
    ensures Fits(c, blob, chunk) <==>
      BlobMode(blob) == Some(c.cryptMode) && VerifyUnencrypted(blob, chunk, c.hash)
  {
  }

  /** Whatever was loaded for a chunk fits, or its fault is counted, or a job has still to find it. */
  ghost predicate Judged(c: Config, s: State, result: Option<Blob>, chunk: ChunkRef) {
    || s.errors > 0
    || match result
       case None => s.pc.CountLoad?
       case Some(blob) => Fits(c, blob, chunk) || exists k :: Judging(c, s.jobs, k, blob, chunk)
  }

  ghost predicate Judging(c: Config, jobs: seq<Job>, k: int, blob: Blob, chunk: ChunkRef) {
    && 0 <= k < |jobs| && jobs[k].blob == blob && jobs[k].chunk == chunk
    && (jobs[k].stage.Verifying? ==> BlobMode(blob) == Some(c.cryptMode))
  }

  lemma JudgedStep(c: Config, s: State, step: Step, result: Option<Blob>, chunk: ChunkRef)
    requires WellFormed(c, s) && Enabled(c, s, step) && Judged(c, s, result, chunk) && !s.pc.Done?
    ensures Judged(c, Apply(c, s, step), result, chunk)
  {
    hide WorkerStep, Fits;
    if step.Worker? {
      hide Judged, Apply;
      WorkerJudges(c, s, step.k, result, chunk);
      WorkerApplies(c, s, step.k);
    } else if s.errors == 0 && result.Some? && !Fits(c, result.value, chunk) {
      var k :| Judging(c, s.jobs, k, result.value, chunk);
      assert Judging(c, Apply(c, s, step).jobs, k, result.value, chunk);
    }
  }

  lemma WorkerApplies(c: Config, s: State, k: nat)
    requires WellFormed(c, s) && k < |s.jobs|
    ensures Apply(c, s, Worker(k)) == WorkerStep(c, s, k)
  {
  }

  lemma WorkerJudges(c: Config, s: State, k: nat, result: Option<Blob>, chunk: ChunkRef)
    requires k < |s.jobs| && Judged(c, s, result, chunk)
    ensures Judged(c, WorkerStep(c, s, k), result, chunk)
  {
    hide Fits, BlobMode, VerifyUnencrypted;
    var t := WorkerStep(c, s, k);
    if s.errors == 0 && result.Some? && !Fits(c, result.value, chunk) {
      var blob := result.value;
      var i :| Judging(c, s.jobs, i, blob, chunk);
      FitsExactly(c, blob, chunk);
      if i == k {
        if t.errors == 0 {
          assert Judging(c, t.jobs, k, blob, chunk);
        }
      } else if |t.jobs| == |s.jobs| {
        assert t.jobs[i] == s.jobs[i];
        assert Judging(c, t.jobs, i, blob, chunk);
      } else {
        WorkerShrinks(c, s, k);
        var j := RemoveAtKeeps(s.jobs, k, i);
        assert Judging(c, t.jobs, j, blob, chunk);
      }
    }
  }

  /** Success is final: nothing runs and nothing is counted any more. */
  lemma {:induction false} SuccessIsFinal(c: Config, states: seq<State>, steps: seq<Step>, i: nat)
    requires IsRun(c, states, steps) && i <= |steps|
    ensures states[i].pc == Done(true) ==> states[i].jobs == [] && states[i].errors == 0 && i == |steps|
  {
    if i > 0 {
      SuccessIsFinal(c, states, steps, i - 1);
      assert StepAt(c, states, steps, i - 1);
    }
    if i < |steps| {
      assert StepAt(c, states, steps, i);
    }
  }

  lemma {:induction false} LoadsAreJudged(c: Config, states: seq<State>, steps: seq<Step>, j: nat, i: nat)
    requires IsRun(c, states, steps) && j < i <= |steps| && steps[j].LoadChunk? && StepAt(c, states, steps, j)
    ensures states[i].pc.Done? || Judged(c, states[i], steps[j].result, c.index[states[j].pos])
    ensures states[i].pc == Done(true) ==> Judged(c, states[i], steps[j].result, c.index[states[j].pos])
    decreases i
  {
    hide Fits;
    var result, chunk := steps[j].result, c.index[states[j].pos];
    if i == j + 1 {
      if result.Some? {
        assert Judging(c, states[i].jobs, |states[j].jobs|, result.value, chunk);
      }
    } else {
      LoadsAreJudged(c, states, steps, j, i - 1);
      assert StepAt(c, states, steps, i - 1);
      SuccessIsFinal(c, states, steps, i - 1);
      if !states[i - 1].pc.Done? {
        JudgedStep(c, states[i - 1], steps[i - 1], result, chunk);
      }
    }
  }

  /** A successful run loaded every chunk it asked for, and all of them fit the index. So a run that loads a blob of
      another crypt mode, of another size or of another content never succeeds. */
  lemma OkMeansFits(c: Config, states: seq<State>, steps: seq<Step>, i: nat, j: nat)
    requires IsRun(c, states, steps) && i <= |steps| && states[i].pc == Done(true)
    requires j < |steps| && steps[j].LoadChunk? && StepAt(c, states, steps, j)
    ensures steps[j].result.Some? && Fits(c, steps[j].result.value, c.index[states[j].pos])
  {
    hide Fits, Apply;
    SuccessIsFinal(c, states, steps, i);
    LoadsAreJudged(c, states, steps, j, i);
  }

  /** A finished run without abort, on an index without chunks marked corrupt, succeeds if and only if every chunk
      it loaded fits the index. */
  lemma VerdictIsExact(c: Config, states: seq<State>, steps: seq<Step>)
    requires IsRun(c, states, steps) && states[|steps|].pc.Done? && NoneCorrupt(c, states[0])
    requires forall j :: 0 <= j < |steps| ==> StepAt(c, states, steps, j) && !steps[j].Abort?
    ensures states[|steps|].pc == Done(true) <==>
      forall j :: 0 <= j < |steps| && steps[j].LoadChunk? ==> LoadFits(c, states, steps, j)
  {
    hide Fits, Apply, NoneCorrupt;
    if states[|steps|].pc == Done(true) {
      forall j | 0 <= j < |steps| && steps[j].LoadChunk?
        ensures LoadFits(c, states, steps, j)
      {
        assert StepAt(c, states, steps, j);
        OkMeansFits(c, states, steps, |steps|, j);
      }
    } else if forall j :: 0 <= j < |steps| && steps[j].LoadChunk? ==> LoadFits(c, states, steps, j) {
      forall j | 0 <= j < |steps|
        ensures SoundStep(c, states[j], steps[j])
      {
        assert StepAt(c, states, steps, j);
        if steps[j].LoadChunk? {
          assert LoadFits(c, states, steps, j);
          FitsExactly(c, steps[j].result.value, c.index[states[j].pos]);
        }
      }
      SoundRunSucceeds(c, states, steps, |steps|);
    }
  }

  ghost predicate LoadFits(c: Config, states: seq<State>, steps: seq<Step>, j: nat)
    requires |states| == |steps| + 1 && j < |steps| && steps[j].LoadChunk?
  {
    && states[j].pos < |c.index|
    && steps[j].result.Some? && Fits(c, steps[j].result.value, c.index[states[j].pos])
  }

  /** A chunk marked corrupt and not verified: it is never loaded, so it stays that way. */
  ghost predicate KnownBad(c: Config, s: State, d: Digest) {
    && d in s.corrupt && d !in s.verified
    && (s.pc.Load? && s.pos < |c.index| ==> c.index[s.pos].digest != d)
    && forall k :: 0 <= k < |s.jobs| ==> s.jobs[k].chunk.digest != d
  }

  lemma {:induction false} StaysBad(c: Config, states: seq<State>, steps: seq<Step>, i: nat, d: Digest)
    requires IsRun(c, states, steps) && i <= |steps| && d in states[0].corrupt && d !in states[0].verified
    ensures KnownBad(c, states[i], d)
  {
    hide VerifyUnencrypted, BlobMode;
    if i > 0 {
      StaysBad(c, states, steps, i - 1, d);
      assert StepAt(c, states, steps, i - 1);
    }
  }

  /** An index with a chunk that was marked corrupt before, and not verified since, is never verified. */
  lemma CorruptFails(c: Config, states: seq<State>, steps: seq<Step>, i: nat, k: nat)
    requires IsRun(c, states, steps) && i <= |steps| && k < |c.index|
    requires c.index[k].digest in states[0].corrupt && c.index[k].digest !in states[0].verified
    ensures states[i].pc != Done(true)
  {
    hide Vouched, StepAt;
    StaysBad(c, states, steps, i, c.index[k].digest);
    if states[i].pc == Done(true) {
      OkMeansVerified(c, states, steps, i);
    }
  }

  // ---- Every run ends ----

  function JobsWork(jobs: seq<Job>): nat {
    if jobs == [] then 0
    else (match jobs[0].stage case Start => 3 case Verifying => 2 case Failing => 1) + JobsWork(jobs[1..])
  }

  /** An upper bound on the steps still to come. */
  function Work(c: Config, s: State): nat
    requires s.pos <= |c.index|
  {
    6 * (|c.index| - s.pos) + JobsWork(s.jobs)
    + match s.pc
      case Check => 4
      case CheckCorrupt => 3
      case CountCorrupt => 2
      case Load => 2
      case CountLoad => 1
      case Complete => 1
      case Done(_) => 0
  }

  lemma {:induction false} JobsWorkConcat(xs: seq<Job>, ys: seq<Job>)
    ensures JobsWork(xs + ys) == JobsWork(xs) + JobsWork(ys)
  {
    if xs == [] {
      assert xs + ys == ys;
    } else {
      assert (xs + ys)[1..] == xs[1..] + ys;
      JobsWorkConcat(xs[1..], ys);
    }
  }

  lemma JobsWorkSplit(jobs: seq<Job>, k: nat, job: Job)
    requires k < |jobs|
    ensures JobsWork(jobs) == JobsWork(RemoveAt(jobs, k)) + JobsWork([jobs[k]])
    ensures JobsWork(jobs[k := job]) == JobsWork(RemoveAt(jobs, k)) + JobsWork([job])
  {
    var front, back := jobs[..k], jobs[k + 1..];
    JobsWorkConcat(front, back);
    JobsWorkConcat(front, [jobs[k]] + back);
    JobsWorkConcat([jobs[k]], back);
    JobsWorkConcat(front, [job] + back);
    JobsWorkConcat([job], back);
    assert jobs == front + ([jobs[k]] + back) && jobs[k := job] == front + ([job] + back);
  }

  lemma WorkDecreases(c: Config, s: State, step: Step)
    requires WellFormed(c, s) && Enabled(c, s, step)
    ensures var t := Apply(c, s, step); WellFormed(c, t) && Work(c, t) < Work(c, s)
  {
    hide WorkerStep, JobsWork;
    match step
    case Worker(k) => WorkerWork(c, s, k);
    case LoadChunk(result) =>
      if result.Some? {
        var job := Job(result.value, c.index[s.pos], Start);
        JobsWorkConcat(s.jobs, [job]);
        OneJob(job);
      }
    case _ =>
  }

  lemma OneJob(job: Job)
    ensures JobsWork([job]) == match job.stage case Start => 3 case Verifying => 2 case Failing => 1
  {
    assert [job][1..] == [];
  }

  lemma WorkerWork(c: Config, s: State, k: nat)
    requires k < |s.jobs|
    ensures var t := WorkerStep(c, s, k); t.pos == s.pos && t.pc == s.pc && JobsWork(t.jobs) < JobsWork(s.jobs)
  {
    hide JobsWork, RemoveAt, VerifyUnencrypted, BlobMode;
    var job := s.jobs[k];
    var failing, verifying := job.(stage := Failing), job.(stage := Verifying);
    JobsWorkSplit(s.jobs, k, failing);
    JobsWorkSplit(s.jobs, k, verifying);
    OneJob(job);
    OneJob(failing);
    OneJob(verifying);
  }

  /** No interleaving takes more than 6 n + 4 steps on an index of n chunks, and only a run that has
      delivered its result and emptied the pool cannot go on. */
  lemma {:induction false} RunsEnd(c: Config, states: seq<State>, steps: seq<Step>, i: nat)
    requires IsRun(c, states, steps) && i <= |steps|
    ensures WellFormed(c, states[i]) && i + Work(c, states[i]) <= 6 * |c.index| + 4
    ensures (states[i].pc.Done? && states[i].jobs == []) || exists step :: Enabled(c, states[i], step)
  {
    hide Apply;
    if i > 0 {
      RunsEnd(c, states, steps, i - 1);
      assert StepAt(c, states, steps, i - 1);
      WorkDecreases(c, states[i - 1], steps[i - 1]);
    }
    var s := states[i];
    if s.jobs != [] {
      assert Enabled(c, s, Worker(0));
    } else if s.pc.Load? {
      assert Enabled(c, s, LoadChunk(None));
    } else if !s.pc.Done? {
      assert Enabled(c, s, Producer);
    }
  }
}
