/**
 Workers racing to create a compilation job. `create_job` is a check, an insert that the primary
 key may reject, and a second read after a rejection; other calls run in between.
 */
module JobCreation {
  type JobId = string
  type CallId = nat

  datatype Phase =
    | Checking
    | Inserting
    | Rereading
    | Returned(id: JobId)
    | Raised

  /** `explicitId` says that the caller chose the id, so that an existing job is acceptable. */
  datatype Call<Fields> = Call(job: JobId, fields: Fields, explicitId: bool, phase: Phase)

  datatype State<Fields> = State(jobs: map<JobId, Fields>, calls: map<CallId, Call<Fields>>)

  datatype Step<Fields> =
    | Begin(call: CallId, job: JobId, fields: Fields, explicitId: bool)
    | Check(call: CallId)
    | Insert(call: CallId)
    | Reread(call: CallId)
    | DeleteJob(job: JobId)

  predicate Enabled<Fields>(s: State<Fields>, step: Step<Fields>) {
    match step
    case Begin(call, _, _, _) => call !in s.calls
    case Check(call) => call in s.calls && s.calls[call].phase.Checking?
    case Insert(call) => call in s.calls && s.calls[call].phase.Inserting?
    case Reread(call) => call in s.calls && s.calls[call].phase.Rereading?
    case DeleteJob(_) => true
  }

  function Moved<Fields>(s: State<Fields>, call: CallId, phase: Phase): State<Fields>
    requires call in s.calls
  {
    s.(calls := s.calls[call := s.calls[call].(phase := phase)])
  }

  function After<Fields>(s: State<Fields>, step: Step<Fields>): State<Fields>
    requires Enabled(s, step)
  {
    match step
    case Begin(call, job, fields, explicitId) =>
      s.(calls := s.calls[call := Call(job, fields, explicitId, if explicitId then Checking else Inserting)])
    case Check(call) =>
      var c := s.calls[call];
      Moved(s, call, if c.job in s.jobs then Returned(c.job) else Inserting)
    case Insert(call) =>
      var c := s.calls[call];
      if c.job !in s.jobs then Moved(s, call, Returned(c.job)).(jobs := s.jobs[c.job := c.fields])
      else Moved(s, call, if c.explicitId then Rereading else Raised)
    case Reread(call) =>
      var c := s.calls[call];
      Moved(s, call, if c.job in s.jobs then Returned(c.job) else Raised)
    case DeleteJob(job) => s.(jobs := s.jobs - {job})
  }

  ghost predicate IsRun<Fields>(run: seq<State<Fields>>, steps: seq<Step<Fields>>) {
    && |run| == |steps| + 1
    && run[0].calls == map[]
    && forall i :: 0 <= i < |steps| ==> Enabled(run[i], steps[i]) && run[i + 1] == After(run[i], steps[i])
  }

  /** No step from `i` up to `j` deletes the job. */
  ghost predicate Undeleted<Fields>(steps: seq<Step<Fields>>, i: nat, j: nat, job: JobId) {
    forall k :: i <= k < j && k < |steps| ==> steps[k] != DeleteJob(job)
  }

  /** A stored row stays as it is until someone deletes it: later inserts cannot touch it. */
  lemma {:induction false} RowStays<Fields>(run: seq<State<Fields>>, steps: seq<Step<Fields>>, i: nat, j: nat, job: JobId)
    requires IsRun(run, steps) && i <= j < |run| && job in run[i].jobs && Undeleted(steps, i, j, job)
    ensures job in run[j].jobs && run[j].jobs[job] == run[i].jobs[job]
    decreases j
  {
    if i < j { RowStays(run, steps, i, j - 1, job); }
  }

  /** Step `k` is the insert that created the row. */
  ghost predicate Creates<Fields>(run: seq<State<Fields>>, steps: seq<Step<Fields>>, k: int, job: JobId) {
    && 0 <= k < |steps| < |run| && steps[k].Insert? && steps[k].call in run[k].calls
    && run[k].calls[steps[k].call].job == job
    && job !in run[k].jobs && job in run[k + 1].jobs
  }

  lemma {:induction false} RowHasCreator<Fields>(run: seq<State<Fields>>, steps: seq<Step<Fields>>, j: nat, job: JobId)
    returns (k: nat)
    requires IsRun(run, steps) && j < |run| && job !in run[0].jobs && job in run[j].jobs
    requires Undeleted(steps, 0, j, job)
    ensures k < j && Creates(run, steps, k, job)
    ensures run[j].jobs[job] == run[k].calls[steps[k].call].fields
    ensures forall m :: 0 <= m <= k ==> job !in run[m].jobs
    decreases j
  {
    if job in run[j - 1].jobs {
      k := RowHasCreator(run, steps, j - 1, job);
    } else {
      k := j - 1;
      forall m | 0 <= m <= k ensures job !in run[m].jobs {
        if job in run[m].jobs { RowStays(run, steps, m, k, job); }
      }
    }
  }

  /**
   Any number of calls racing for one id leave exactly one row: the fields of the first insert
   that was committed, and no other insert of that id ever succeeds.
   */
  lemma FirstCommitterWins<Fields>(run: seq<State<Fields>>, steps: seq<Step<Fields>>, j: nat, job: JobId)
    requires IsRun(run, steps) && j < |run| && job !in run[0].jobs && job in run[j].jobs
    requires Undeleted(steps, 0, |steps|, job)
    ensures
      exists k ::
        && Creates(run, steps, k, job) && run[j].jobs[job] == run[k].calls[steps[k].call].fields
        && forall k' :: Creates(run, steps, k', job) ==> k' == k
  {
    var k := RowHasCreator(run, steps, j, job);
    forall k' | Creates(run, steps, k', job) ensures k' == k {
      if k' > k { RowStays(run, steps, k + 1, k', job); }
    }
  }

  /** What a call's phase says about the table, as long as nobody deletes the job. */
  ghost predicate PhaseOk<Fields>(s: State<Fields>, c: Call<Fields>) {
    match c.phase
    case Returned(id) => id == c.job && c.job in s.jobs
    case Rereading => c.explicitId && c.job in s.jobs
    case Checking => c.explicitId
    case Raised => !c.explicitId
    case Inserting => true
  }

  lemma {:induction false} PhasesAreOk<Fields>(
    run: seq<State<Fields>>, steps: seq<Step<Fields>>, j: nat, call: CallId)
    requires IsRun(run, steps) && j < |run| && call in run[j].calls
    requires Undeleted(steps, 0, |steps|, run[j].calls[call].job)
    ensures PhaseOk(run[j], run[j].calls[call])
    decreases j
  {
    if call in run[j - 1].calls {
      PhasesAreOk(run, steps, j - 1, call);
    }
  }

  predicate IsDone(phase: Phase) { phase.Returned? || phase.Raised? }

  /**
   Every caller that chose the id and has finished gets that id back, whichever side of the check
   it lost the race on, and the row is there; the branch that raises is never taken.
   */
  lemma ExplicitCallersGetTheId<Fields>(
    run: seq<State<Fields>>, steps: seq<Step<Fields>>, j: nat, call: CallId)
    requires IsRun(run, steps) && j < |run| && call in run[j].calls
    requires run[j].calls[call].explicitId && IsDone(run[j].calls[call].phase)
    requires Undeleted(steps, 0, |steps|, run[j].calls[call].job)
    ensures
      var c := run[j].calls[call];
      c.phase == Returned(c.job) && c.job in run[j].jobs
  {
    PhasesAreOk(run, steps, j, call);
  }

  lemma {:induction false} CallStays<Fields>(
    run: seq<State<Fields>>, steps: seq<Step<Fields>>, i: nat, j: nat, call: CallId)
    requires IsRun(run, steps) && i <= j < |run| && call in run[i].calls
    ensures call in run[j].calls
    ensures run[j].calls[call].job == run[i].calls[call].job
    ensures run[j].calls[call].explicitId == run[i].calls[call].explicitId
    ensures IsDone(run[i].calls[call].phase) ==> run[j].calls[call].phase == run[i].calls[call].phase
    ensures run[i].calls[call].phase.Rereading? ==>
              run[j].calls[call].phase.Rereading? || IsDone(run[j].calls[call].phase)
    decreases j
  {
    if i < j { CallStays(run, steps, i, j - 1, call); }
  }

  /** At step `k` the call returns, and the job is in the table at that moment. */
  ghost predicate ReturnsStored<Fields>(run: seq<State<Fields>>, steps: seq<Step<Fields>>, k: int, call: CallId) {
    && 0 <= k < |steps| < |run| && call in run[k].calls && !IsDone(run[k].calls[call].phase)
    && call in run[k + 1].calls && run[k + 1].calls[call].phase == Returned(run[k].calls[call].job)
    && run[k].calls[call].job in run[k + 1].jobs
  }

  /** Whoever returns an id does so while the job is in the table. */
  lemma {:induction false} ReturnedJobWasStored<Fields>(
    run: seq<State<Fields>>, steps: seq<Step<Fields>>, j: nat, call: CallId)
    requires IsRun(run, steps) && j < |run| && call in run[j].calls && run[j].calls[call].phase.Returned?
    ensures exists k :: k < j && ReturnsStored(run, steps, k, call)
    decreases j
  {
    if call in run[j - 1].calls && run[j - 1].calls[call].phase.Returned? {
      ReturnedJobWasStored(run, steps, j - 1, call);
    } else {
      assert ReturnsStored(run, steps, j - 1, call);
    }
  }

  /** A caller that did not choose the id returns only the id of a row it has inserted, and raises if the id was taken. */
  lemma {:induction false} ImplicitCallersInsert<Fields>(
    run: seq<State<Fields>>, steps: seq<Step<Fields>>, j: nat, call: CallId)
    requires IsRun(run, steps) && j < |run| && call in run[j].calls && !run[j].calls[call].explicitId
    ensures
      var c := run[j].calls[call];
      && (c.phase.Returned? ==>
            c.phase == Returned(c.job)
            && exists k :: k < j && Creates(run, steps, k, c.job) && steps[k] == Insert(call))
      && (c.phase.Raised? ==> exists k :: 0 <= k < j && steps[k] == Insert(call) && c.job in run[k].jobs)
      && (IsDone(c.phase) || c.phase.Inserting?)
    decreases j
  {
    if call in run[j - 1].calls {
      ImplicitCallersInsert(run, steps, j - 1, call);
      var c := run[j - 1].calls[call];
      if steps[j - 1] == Insert(call) && c.job !in run[j - 1].jobs {
        assert Creates(run, steps, j - 1, c.job);
      }
    }
  }

  /** A caller that chose the id inserts only after its check has found no job. */
  lemma {:induction false} ExplicitCallersCheckFirst<Fields>(
    run: seq<State<Fields>>, steps: seq<Step<Fields>>, j: nat, call: CallId)
    requires IsRun(run, steps) && j < |run| && call in run[j].calls && run[j].calls[call].explicitId
    requires run[j].calls[call].phase.Inserting?
    ensures exists k :: 0 <= k < j && steps[k] == Check(call) && run[j].calls[call].job !in run[k].jobs
    decreases j
  {
    if call in run[j - 1].calls && run[j - 1].calls[call].phase.Inserting? {
      ExplicitCallersCheckFirst(run, steps, j - 1, call);
    } else {
      assert steps[j - 1] == Check(call);
    }
  }

  /** An explicit caller raises only if the job was deleted between its rejected insert and its second read. */
  lemma {:induction false} RaisingNeedsDeletion<Fields>(
    run: seq<State<Fields>>, steps: seq<Step<Fields>>, j: nat, call: CallId)
    requires IsRun(run, steps) && j < |run| && call in run[j].calls
    requires run[j].calls[call].explicitId && run[j].calls[call].phase.Raised?
    ensures
      exists i, k :: 0 <= i < k < j && steps[i] == Insert(call) && steps[k] == DeleteJob(run[j].calls[call].job)
    decreases j
  {
    var job := run[j].calls[call].job;
    if call in run[j - 1].calls && run[j - 1].calls[call].phase.Raised? {
      RaisingNeedsDeletion(run, steps, j - 1, call);
      var i, k :| 0 <= i < k < j - 1 && steps[i] == Insert(call) && steps[k] == DeleteJob(job);
    } else {
      assert steps[j - 1] == Reread(call);
      var i := RejectedInsert(run, steps, j - 1, call);
      if Undeleted(steps, i + 1, j - 1, job) {
        RowStays(run, steps, i + 1, j - 1, job);
      }
    }
  }

  lemma {:induction false} RejectedInsert<Fields>(
    run: seq<State<Fields>>, steps: seq<Step<Fields>>, j: nat, call: CallId)
    returns (i: nat)
    requires IsRun(run, steps) && j < |run| && call in run[j].calls && run[j].calls[call].phase.Rereading?
    ensures i < j && steps[i] == Insert(call) && run[j].calls[call].job in run[i + 1].jobs
    decreases j
  {
    if call in run[j - 1].calls && run[j - 1].calls[call].phase.Rereading? {
      i := RejectedInsert(run, steps, j - 1, call);
    } else {
      i := j - 1;
    }
  }
}
