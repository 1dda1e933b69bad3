/**
 The event log of compilation jobs: any number of `append_event` calls, interleaved at their
 database round trips, over one table with a unique (job, sequence number) constraint. Jobs may be
 deleted, and created again, while calls are running.
 */
module EventLog {
  type JobId = string
  type CallId = nat

  const MAX_RETRIES: nat := 3

  /** A committed row. `author` identifies the call that inserted it. */
  datatype Event = Event(job: JobId, sequence: nat, payload: string, author: CallId)

  /** Where a call stands; `sequence` is the number it read or has inserted uncommitted. */
  datatype Phase =
    | Starting
    | Reading
    | Flushing(sequence: nat)
    | Committing(sequence: nat)
    | Returned
    | NoSuchJob
    | GaveUp
    | Crashed

  /** One call, with the number of its rejected inserts. */
  datatype Call = Call(job: JobId, payload: string, phase: Phase, failures: nat)

  datatype State = State(jobs: set<JobId>, events: seq<Event>, calls: map<CallId, Call>)

  // The table

  /** The rows of a job in the order of their commits. */
  function Rows(events: seq<Event>, job: JobId): seq<Event> {
    if events == [] then []
    else
      var e := events[|events| - 1];
      Rows(events[..|events| - 1], job) + if e.job == job then [e] else []
  }

  /** `select max(sequence_number) ... where job_id = job`, with 0 for no rows. */
  function MaxSequence(events: seq<Event>, job: JobId): nat {
    if events == [] then 0
    else
      var e, m := events[|events| - 1], MaxSequence(events[..|events| - 1], job);
      if e.job == job && e.sequence > m then e.sequence else m
  }

  predicate Taken(events: seq<Event>, job: JobId, sequence: nat) {
    exists i :: 0 <= i < |events| && events[i].job == job && events[i].sequence == sequence
  }

  /** The rows that are left when the deletion of a job has removed its own. */
  function WithoutJob(events: seq<Event>, job: JobId): seq<Event> {
    if events == [] then []
    else
      var e := events[|events| - 1];
      WithoutJob(events[..|events| - 1], job) + if e.job == job then [] else [e]
  }

  // The steps

  datatype Step =
    | CreateJob(job: JobId)
    | DeleteJob(job: JobId)
    | Begin(id: CallId, job: JobId, payload: string)
    | RequireJob(id: CallId)
    | Read(id: CallId)
    | Flush(id: CallId)
    | Commit(id: CallId)
    | Crash(id: CallId)

  predicate Finished(phase: Phase) { phase.Returned? || phase.NoSuchJob? || phase.GaveUp? || phase.Crashed? }

  /** The call holds an uncommitted row of the job, which keeps the job from being deleted. */
  predicate IsCommitting(s: State, id: CallId, job: JobId) {
    id in s.calls && s.calls[id].job == job && s.calls[id].phase.Committing?
  }

  /** Another call holds an uncommitted row with the same key: the insert waits for it. */
  predicate Blocked(s: State, id: CallId)
    requires id in s.calls && s.calls[id].phase.Flushing?
  {
    exists other :: other in s.calls && other != id && s.calls[other].job == s.calls[id].job &&
      s.calls[other].phase == Committing(s.calls[id].phase.sequence)
  }

  predicate Enabled(s: State, step: Step) {
    match step
    case CreateJob(job) => job !in s.jobs
    case DeleteJob(job) => forall id :: id in s.calls ==> !IsCommitting(s, id, job)
    case Begin(id, _, _) => id !in s.calls
    case RequireJob(id) => id in s.calls && s.calls[id].phase.Starting?
    case Read(id) => id in s.calls && s.calls[id].phase.Reading?
    case Flush(id) => id in s.calls && s.calls[id].phase.Flushing? && !Blocked(s, id)
    case Commit(id) => id in s.calls && s.calls[id].phase.Committing?
    case Crash(id) => id in s.calls && !Finished(s.calls[id].phase)
  }

  function Moved(s: State, id: CallId, phase: Phase): State
    requires id in s.calls
  {
    s.(calls := s.calls[id := s.calls[id].(phase := phase)])
  }

  /** The insert is rejected: roll back, and try again or raise. */
  function Rejected(s: State, id: CallId): State
    requires id in s.calls
  {
    var c := s.calls[id];
    var failures := c.failures + 1;
    s.(calls := s.calls[id := c.(failures := failures, phase := if failures == MAX_RETRIES then GaveUp else Reading)])
  }

  /** An insert is rejected by the unique constraint, and by the foreign key when the job is gone. */
  predicate IsAccepted(s: State, c: Call)
    requires c.phase.Flushing?
  {
    c.job in s.jobs && !Taken(s.events, c.job, c.phase.sequence)
  }

  function After(s: State, step: Step): State
    requires Enabled(s, step)
  {
    match step
    case CreateJob(job) => s.(jobs := s.jobs + {job})
    case DeleteJob(job) => s.(jobs := s.jobs - {job}, events := WithoutJob(s.events, job))
    case Begin(id, job, payload) => s.(calls := s.calls[id := Call(job, payload, Starting, 0)])
    case RequireJob(id) => Moved(s, id, if s.calls[id].job in s.jobs then Reading else NoSuchJob)
    case Read(id) => Moved(s, id, Flushing(MaxSequence(s.events, s.calls[id].job) + 1))
    case Flush(id) =>
      if IsAccepted(s, s.calls[id]) then Moved(s, id, Committing(s.calls[id].phase.sequence)) else Rejected(s, id)
    case Commit(id) => Moved(s, id, Returned).(events := s.events + [RowOf(s, id)])
    case Crash(id) => Moved(s, id, Crashed)
  }

  function RowOf(s: State, id: CallId): Event
    requires id in s.calls && s.calls[id].phase.Committing?
  {
    Event(s.calls[id].job, s.calls[id].phase.sequence, s.calls[id].payload, id)
  }

  ghost predicate IsRun(run: seq<State>, steps: seq<Step>) {
    && |run| == |steps| + 1
    && run[0].events == [] && run[0].calls == map[]
    && forall i :: 0 <= i < |steps| ==> Enabled(run[i], steps[i]) && run[i + 1] == After(run[i], steps[i])
  }

  lemma OneMoreStep(run: seq<State>, steps: seq<Step>, step: Step)
    requires IsRun(run, steps) && Enabled(run[|steps|], step)
    ensures IsRun(run + [After(run[|steps|], step)], steps + [step])
  {
  }

  // Lemmas about the table

  lemma RowsAppend(events: seq<Event>, e: Event, job: JobId)
    ensures Rows(events + [e], job) == Rows(events, job) + if e.job == job then [e] else []
  {
    assert (events + [e])[..|events|] == events;
  }

  lemma {:induction false} RowsAreEvents(events: seq<Event>, job: JobId)
    ensures forall e :: e in Rows(events, job) <==> e in events && e.job == job
  {
    if events != [] {
      var n := |events| - 1;
      RowsAreEvents(events[..n], job);
      assert events == events[..n] + [events[n]];
    }
  }

  lemma {:induction false} RowsWithoutJob(events: seq<Event>, job: JobId, other: JobId)
    ensures Rows(WithoutJob(events, job), other) == if other == job then [] else Rows(events, other)
  {
    if events != [] {
      var n := |events| - 1;
      var rest := WithoutJob(events[..n], job);
      RowsWithoutJob(events[..n], job, other);
      RowsAppend(rest, events[n], other);
      assert rest + [] == rest;
    }
  }

  lemma {:induction false} OthersStay(events: seq<Event>, job: JobId)
    ensures forall e :: e in WithoutJob(events, job) <==> e in events && e.job != job
  {
    if events != [] {
      var n := |events| - 1;
      OthersStay(events[..n], job);
      assert events == events[..n] + [events[n]];
    }
  }

  lemma TakenWithoutJob(events: seq<Event>, gone: JobId, job: JobId, sequence: nat)
    requires Taken(WithoutJob(events, gone), job, sequence)
    ensures Taken(events, job, sequence)
  {
    var rest := WithoutJob(events, gone);
    var i :| 0 <= i < |rest| && rest[i].job == job && rest[i].sequence == sequence;
    OthersStay(events, gone);
    assert rest[i] in events;
  }

  /** A number above the maximum is not taken. */
  lemma {:induction false} AboveMaximum(events: seq<Event>, job: JobId, sequence: nat)
    requires sequence > MaxSequence(events, job)
    ensures !Taken(events, job, sequence)
  {
    if events != [] { AboveMaximum(events[..|events| - 1], job, sequence); }
  }

  /** The rows of a job carry the numbers 1, 2, 3, ... in the order of their commits. */
  ghost predicate Dense(events: seq<Event>, job: JobId) {
    forall i :: 0 <= i < |Rows(events, job)| ==> Rows(events, job)[i].sequence == i + 1
  }

  /** On a dense log the maximum is the number of rows, and the numbers taken are those up to it. */
  lemma {:induction false} MaxOfDense(events: seq<Event>, job: JobId)
    requires Dense(events, job)
    ensures MaxSequence(events, job) == |Rows(events, job)|
  {
    if events != [] {
      var n := |events| - 1;
      var before := Rows(events[..n], job);
      forall i | 0 <= i < |before| ensures before[i].sequence == i + 1 {
        assert Rows(events, job)[i] == before[i];
      }
      MaxOfDense(events[..n], job);
      if events[n].job == job {
        assert Rows(events, job)[|before|] == events[n];
      }
    }
  }

  lemma TakenInDense(events: seq<Event>, job: JobId, sequence: nat)
    requires Dense(events, job)
    ensures Taken(events, job, sequence) <==> 1 <= sequence <= |Rows(events, job)|
  {
    RowsAreEvents(events, job);
    var rows := Rows(events, job);
    if Taken(events, job, sequence) {
      var i :| 0 <= i < |events| && events[i].job == job && events[i].sequence == sequence;
      assert events[i] in rows;
    }
    if 1 <= sequence <= |rows| {
      assert rows[sequence - 1] in events;
    }
  }

  // What holds of every run

  ghost predicate CallOk(s: State, c: Call) {
    && (c.phase.GaveUp? ==> c.failures == MAX_RETRIES)
    && (!Finished(c.phase) ==> c.failures < MAX_RETRIES)
    && (c.phase.Committing? ==> c.job in s.jobs)
  }

  ghost predicate HasNoRow(events: seq<Event>, id: CallId) { forall e :: e in events ==> e.author != id }

  ghost predicate OneRowPerCall(events: seq<Event>) {
    forall i, j :: 0 <= i < j < |events| ==> events[i].author != events[j].author
  }

  ghost predicate IsReturned(s: State, id: CallId) { id in s.calls && s.calls[id].phase.Returned? }

  ghost predicate Inv(s: State) {
    && (forall e :: e in s.events ==> e.job in s.jobs)
    && (forall id :: id in s.calls ==> CallOk(s, s.calls[id]))
    && (forall id :: !IsReturned(s, id) ==> HasNoRow(s.events, id))
    && OneRowPerCall(s.events)
  }

  lemma {:induction false} WithoutJobKeepsOrder(events: seq<Event>, job: JobId)
    requires OneRowPerCall(events)
    ensures OneRowPerCall(WithoutJob(events, job))
  {
    if events != [] {
      var n := |events| - 1;
      WithoutJobKeepsOrder(events[..n], job);
      OthersStay(events[..n], job);
      var rest := WithoutJob(events[..n], job);
      forall i | 0 <= i < |rest| ensures rest[i].author != events[n].author {
        assert rest[i] in events[..n];
      }
    }
  }

  lemma StepKeepsInv(s: State, step: Step)
    requires Inv(s) && Enabled(s, step)
    ensures Inv(After(s, step))
  {
    match step
    case DeleteJob(job) =>
      OthersStay(s.events, job);
      WithoutJobKeepsOrder(s.events, job);
      forall id | !IsReturned(s, id) ensures HasNoRow(After(s, step).events, id) {
        assert HasNoRow(s.events, id);
      }
    case Commit(id) =>
      assert CallOk(s, s.calls[id]) && HasNoRow(s.events, id);
      forall i | 0 <= i < |s.events| ensures s.events[i].author != id { assert s.events[i] in s.events; }
      forall other | !IsReturned(After(s, step), other) ensures HasNoRow(After(s, step).events, other) {
        assert HasNoRow(s.events, other);
      }
    case _ =>
  }

  lemma {:induction false} RunKeepsInv(run: seq<State>, steps: seq<Step>, i: nat)
    requires IsRun(run, steps) && i < |run|
    ensures Inv(run[i])
  {
    if i > 0 {
      RunKeepsInv(run, steps, i - 1);
      StepKeepsInv(run[i - 1], steps[i - 1]);
    }
  }

  /** No step from `i` up to `j` deletes the job. */
  ghost predicate Undeleted(steps: seq<Step>, i: nat, j: nat, job: JobId) {
    forall k :: i <= k < j && k < |steps| ==> steps[k] != DeleteJob(job)
  }

  lemma StepGrowsLog(s: State, step: Step, job: JobId)
    requires Enabled(s, step)
    ensures
      var before, after := Rows(s.events, job), Rows(After(s, step).events, job);
      if step == DeleteJob(job) then after == [] else before <= after
  {
    match step
    case DeleteJob(other) => RowsWithoutJob(s.events, other, job);
    case Commit(id) => RowsAppend(s.events, RowOf(s, id), job);
    case _ =>
  }

  /** A job's log grows only at its end until it is deleted, with all its rows. */
  lemma {:induction false} LogGrowsUntilDeleted(run: seq<State>, steps: seq<Step>, i: nat, j: nat, job: JobId)
    requires IsRun(run, steps) && i <= j < |run|
    ensures Undeleted(steps, i, j, job) ==> Rows(run[i].events, job) <= Rows(run[j].events, job)
    ensures i < j && steps[j - 1] == DeleteJob(job) ==> Rows(run[j].events, job) == []
    decreases j
  {
    if i < j {
      LogGrowsUntilDeleted(run, steps, i, j - 1, job);
      StepGrowsLog(run[j - 1], steps[j - 1], job);
      assert Undeleted(steps, i, j, job) ==> Undeleted(steps, i, j - 1, job) && steps[j - 1] != DeleteJob(job);
    }
  }

  /** Step `c` is the one commit of call `id`: its row is in the table until the job is deleted, and then no more. */
  ghost predicate CommitsOnceAt(run: seq<State>, steps: seq<Step>, c: int, j: nat, id: CallId) {
    && 0 <= c < j < |run| && |run| == |steps| + 1 && steps[c] == Commit(id)
    && id in run[c].calls && run[c].calls[id].phase.Committing? && id in run[j].calls
    && run[j].calls[id] == run[c].calls[id].(phase := Returned)
    && (forall k :: 0 <= k < j && steps[k] == Commit(id) ==> k == c)
    && var e := RowOf(run[c], id);
    && (forall x :: x in run[j].events && x.author == id ==> x == e)
    && (e in run[j].events <==> Undeleted(steps, c + 1, j, e.job))
  }

  /**
   A call that returned has committed one event, once, which stays until its job is deleted; any
   other call has committed none.
   */
  lemma {:induction false} CallsCommitOnce(run: seq<State>, steps: seq<Step>, j: nat, id: CallId)
    requires IsRun(run, steps) && j < |run|
    ensures OneRowPerCall(run[j].events)
    ensures
      if IsReturned(run[j], id)
      then exists c :: CommitsOnceAt(run, steps, c, j, id)
      else HasNoRow(run[j].events, id) && forall k :: 0 <= k < j ==> steps[k] != Commit(id)
    decreases j
  {
    RunKeepsInv(run, steps, j);
    if j > 0 {
      CallsCommitOnce(run, steps, j - 1, id);
      if IsReturned(run[j - 1], id) {
        var c :| CommitsOnceAt(run, steps, c, j - 1, id);
        CommitStays(run, steps, c, j, id);
      } else if IsReturned(run[j], id) {
        CommitIsNew(run, steps, j - 1, id);
      }
    }
  }

  lemma CommitIsNew(run: seq<State>, steps: seq<Step>, c: nat, id: CallId)
    requires IsRun(run, steps) && c < |steps| && !IsReturned(run[c], id) && IsReturned(run[c + 1], id)
    requires HasNoRow(run[c].events, id) && forall k :: 0 <= k < c ==> steps[k] != Commit(id)
    ensures CommitsOnceAt(run, steps, c, c + 1, id)
  {
    assert steps[c] == Commit(id);
    assert run[c + 1].events == run[c].events + [RowOf(run[c], id)];
  }

  lemma CommitStays(run: seq<State>, steps: seq<Step>, c: int, j: nat, id: CallId)
    requires IsRun(run, steps) && 0 < j < |run| && IsReturned(run[j - 1], id) && CommitsOnceAt(run, steps, c, j - 1, id)
    ensures CommitsOnceAt(run, steps, c, j, id)
  {
    var s, step, e := run[j - 1], steps[j - 1], RowOf(run[c], id);
    assert e in s.events <==> Undeleted(steps, c + 1, j - 1, e.job);
    assert Undeleted(steps, c + 1, j, e.job) <==> Undeleted(steps, c + 1, j - 1, e.job) && step != DeleteJob(e.job);
    match step
    case DeleteJob(job) => OthersStay(s.events, job);
    case _ =>
  }

  // Giving up

  /** Step `c` commits an event of the job for another call than `id`. */
  ghost predicate CommitsForAnother(run: seq<State>, steps: seq<Step>, c: int, job: JobId, id: CallId) {
    && 0 <= c < |steps| < |run| && steps[c].Commit? && steps[c].id != id
    && steps[c].id in run[c].calls && run[c].calls[steps[c].id].job == job
  }

  /** One attempt: the number is read at one step, and inserted at another. */
  datatype Attempt = Attempt(read: nat, flush: nat)

  /** The attempt met another call's event, committed since its read, or its job was gone. */
  ghost predicate IsLost(run: seq<State>, steps: seq<Step>, a: Attempt, id: CallId, job: JobId) {
    && a.read < a.flush < |steps| < |run| && steps[a.read] == Read(id) && steps[a.flush] == Flush(id)
    && (job !in run[a.flush].jobs || exists c :: a.read < c < a.flush && CommitsForAnother(run, steps, c, job, id))
  }

  ghost predicate AreLost(run: seq<State>, steps: seq<Step>, lost: seq<Attempt>, id: CallId, job: JobId) {
    && (forall a :: a in lost ==> IsLost(run, steps, a, id, job))
    && forall i, j :: 0 <= i < j < |lost| ==> lost[i].flush < lost[j].read
  }

  lemma {:induction false} ReadBefore(run: seq<State>, steps: seq<Step>, j: nat, id: CallId) returns (r: nat)
    requires IsRun(run, steps) && j < |run| && id in run[j].calls && run[j].calls[id].phase.Flushing?
    ensures r < j && steps[r] == Read(id)
    ensures
      && id in run[r].calls && run[r].calls[id].failures == run[j].calls[id].failures
      && run[r].calls[id].job == run[j].calls[id].job
      && run[j].calls[id].phase.sequence == MaxSequence(run[r].events, run[j].calls[id].job) + 1
    ensures forall k :: r < k <= j ==> id in run[k].calls && run[k].calls[id].phase.Flushing?
    decreases j
  {
    if id in run[j - 1].calls && run[j - 1].calls[id].phase.Flushing? {
      r := ReadBefore(run, steps, j - 1, id);
    } else {
      r := j - 1;
    }
  }

  lemma TakenByCommit(s: State, step: Step, job: JobId, sequence: nat)
    requires Enabled(s, step) && Taken(After(s, step).events, job, sequence) && !Taken(s.events, job, sequence)
    ensures step.Commit? && s.calls[step.id].job == job
  {
    if step.DeleteJob? && Taken(WithoutJob(s.events, step.job), job, sequence) {
      TakenWithoutJob(s.events, step.job, job, sequence);
    }
  }

  /** A number that was free and is taken has been committed in between. */
  lemma {:induction false} TakenSince(run: seq<State>, steps: seq<Step>, r: nat, k: nat, job: JobId, sequence: nat)
    returns (c: nat)
    requires IsRun(run, steps) && r <= k < |run|
    requires !Taken(run[r].events, job, sequence) && Taken(run[k].events, job, sequence)
    ensures r <= c < k && steps[c].Commit? && steps[c].id in run[c].calls && run[c].calls[steps[c].id].job == job
    decreases k
  {
    if Taken(run[k - 1].events, job, sequence) {
      c := TakenSince(run, steps, r, k - 1, job, sequence);
    } else {
      c := k - 1;
      TakenByCommit(run[c], steps[c], job, sequence);
    }
  }

  lemma {:induction false} FailuresWereLost(run: seq<State>, steps: seq<Step>, j: nat, id: CallId)
    returns (lost: seq<Attempt>)
    requires IsRun(run, steps) && j < |run| && id in run[j].calls
    ensures |lost| == run[j].calls[id].failures && AreLost(run, steps, lost, id, run[j].calls[id].job)
    ensures forall a :: a in lost ==> a.flush < j
    decreases j
  {
    if id !in run[j - 1].calls {
      lost := [];
    } else if run[j - 1].calls[id].failures == run[j].calls[id].failures {
      lost := FailuresWereLost(run, steps, j - 1, id);
    } else {
      FailsByRejection(run[j - 1], steps[j - 1], id);
      var r := RejectionIsLost(run, steps, j - 1, id);
      lost := FailuresWereLost(run, steps, r, id);
      OneMoreLost(run, steps, lost, Attempt(r, j - 1), id, run[j].calls[id].job);
      lost := lost + [Attempt(r, j - 1)];
    }
  }

  lemma RejectionIsLost(run: seq<State>, steps: seq<Step>, k: nat, id: CallId) returns (r: nat)
    requires IsRun(run, steps) && k < |steps| && steps[k] == Flush(id) && !IsAccepted(run[k], run[k].calls[id])
    ensures r < k && id in run[r].calls && run[r].calls[id].job == run[k].calls[id].job
    ensures run[r].calls[id].failures == run[k].calls[id].failures
    ensures IsLost(run, steps, Attempt(r, k), id, run[k].calls[id].job)
  {
    r := ReadBefore(run, steps, k, id);
    RejectedIsLost(run, steps, r, k, id);
  }

  lemma OneMoreLost(run: seq<State>, steps: seq<Step>, before: seq<Attempt>, a: Attempt, id: CallId, job: JobId)
    requires AreLost(run, steps, before, id, job) && IsLost(run, steps, a, id, job)
    requires forall b :: b in before ==> b.flush < a.read
    ensures AreLost(run, steps, before + [a], id, job)
  {
  }

  lemma FailsByRejection(s: State, step: Step, id: CallId)
    requires Enabled(s, step) && id in s.calls && After(s, step).calls[id].failures != s.calls[id].failures
    ensures step == Flush(id) && !IsAccepted(s, s.calls[id]) && After(s, step) == Rejected(s, id)
  {
  }

  lemma RejectedIsLost(run: seq<State>, steps: seq<Step>, r: nat, k: nat, id: CallId)
    requires IsRun(run, steps) && r < k < |steps| && steps[r] == Read(id) && steps[k] == Flush(id)
    requires forall i :: r < i <= k ==> id in run[i].calls && run[i].calls[id].phase.Flushing?
    requires
      var c := run[k].calls[id];
      c.phase.sequence == MaxSequence(run[r].events, c.job) + 1 && !IsAccepted(run[k], c)
    ensures IsLost(run, steps, Attempt(r, k), id, run[k].calls[id].job)
  {
    var c := run[k].calls[id];
    if c.job in run[k].jobs {
      AboveMaximum(run[r].events, c.job, c.phase.sequence);
      var i := TakenSince(run, steps, r, k, c.job, c.phase.sequence);
      assert CommitsForAnother(run, steps, i, c.job, id);
    }
  }

  /**
   A call gives up only after three attempts one after the other, each of which met an event of the
   same job that another call committed between its read and its insert, or found its job deleted.
   */
  lemma GivingUpNeedsThreeLosses(run: seq<State>, steps: seq<Step>, j: nat, id: CallId)
    requires IsRun(run, steps) && j < |run| && id in run[j].calls && run[j].calls[id].phase.GaveUp?
    ensures exists lost :: |lost| == 3 && AreLost(run, steps, lost, id, run[j].calls[id].job)
  {
    RunKeepsInv(run, steps, j);
    assert CallOk(run[j], run[j].calls[id]);
    var lost := FailuresWereLost(run, steps, j, id);
  }

  /** A call raises for a missing job exactly if there was none when it began, and then it has read and inserted nothing. */
  lemma {:induction false} MissingJobIsNotTried(run: seq<State>, steps: seq<Step>, j: nat, id: CallId)
    requires IsRun(run, steps) && j < |run| && id in run[j].calls
    ensures
      run[j].calls[id].phase.NoSuchJob? ==>
        && (forall k :: 0 <= k < j ==> steps[k] != Read(id) && steps[k] != Flush(id))
        && exists k :: 0 <= k < j && steps[k] == RequireJob(id) && run[j].calls[id].job !in run[k].jobs
    ensures
      run[j].calls[id].phase.Starting? ==> forall k :: 0 <= k < j ==> steps[k] != Read(id) && steps[k] != Flush(id)
    ensures
      run[j].calls[id].phase.Reading? ==>
        exists k :: 0 <= k < j && steps[k] == RequireJob(id) && run[j].calls[id].job in run[k].jobs
    decreases j
  {
    if run[j].calls[id].phase.Reading? { CallIsOnceRequired(run, steps, j, id); }
    if id in run[j - 1].calls {
      MissingJobIsNotTried(run, steps, j - 1, id);
    } else {
      NothingBeforeBegin(run, steps, j - 1, id);
    }
  }

  lemma {:induction false} NothingBeforeBegin(run: seq<State>, steps: seq<Step>, j: nat, id: CallId)
    requires IsRun(run, steps) && j < |run| && id !in run[j].calls
    ensures forall k :: 0 <= k < j ==> steps[k] != Read(id) && steps[k] != Flush(id) && id !in run[k].calls
    decreases j
  {
    if j > 0 { NothingBeforeBegin(run, steps, j - 1, id); }
  }

  /** A call goes past its start only if its job was there when it looked. */
  lemma {:induction false} CallIsOnceRequired(run: seq<State>, steps: seq<Step>, j: nat, id: CallId)
    requires IsRun(run, steps) && j < |run| && id in run[j].calls
    requires run[j].calls[id].phase.Reading? || run[j].calls[id].phase.Flushing?
    ensures exists k :: 0 <= k < j && steps[k] == RequireJob(id) && run[j].calls[id].job in run[k].jobs
    decreases j
  {
    if steps[j - 1] != RequireJob(id) { CallIsOnceRequired(run, steps, j - 1, id); }
  }

  /** No deadlock: while a call is unfinished, some call can take its next step. */
  lemma SomeCallCanMove(run: seq<State>, steps: seq<Step>, j: nat, id: CallId)
    requires IsRun(run, steps) && j < |run| && id in run[j].calls && !Finished(run[j].calls[id].phase)
    ensures exists step :: Enabled(run[j], step) && (step.RequireJob? || step.Read? || step.Flush? || step.Commit?)
  {
    var s := run[j];
    match s.calls[id].phase
    case Starting => assert Enabled(s, RequireJob(id));
    case Reading => assert Enabled(s, Read(id));
    case Committing(_) => assert Enabled(s, Commit(id));
    case Flushing(q) =>
      if Blocked(s, id) {
        var other :| other in s.calls && other != id && s.calls[other].job == s.calls[id].job &&
          s.calls[other].phase == Committing(q);
        assert Enabled(s, Commit(other));
      } else {
        assert Enabled(s, Flush(id));
      }
  }

  // Numbering

  /**
   The job is created again while a call holds a number of the deleted log that the new log is not
   ready for.
   */
  ghost predicate Reuses(s: State, step: Step, job: JobId) {
    step == CreateJob(job) && exists id :: HoldsStale(s, id, job)
  }

  predicate HoldsStale(s: State, id: CallId, job: JobId) {
    id in s.calls && s.calls[id].job == job && s.calls[id].phase.Flushing? && s.calls[id].phase.sequence > 1
  }

  ghost predicate NoReuse(run: seq<State>, steps: seq<Step>, j: nat, job: JobId) {
    forall k :: 0 <= k < j && k < |run| && k < |steps| ==> !Reuses(run[k], steps[k], job)
  }

  ghost predicate NumberOk(s: State, c: Call) {
    var n := |Rows(s.events, c.job)|;
    && (c.phase.Flushing? && c.job in s.jobs ==> c.phase.sequence <= n + 1)
    && (c.phase.Committing? ==> c.job in s.jobs && c.phase.sequence == n + 1)
  }

  ghost predicate JobInv(s: State, job: JobId) {
    && Dense(s.events, job)
    && (job !in s.jobs ==> Rows(s.events, job) == [])
    && (forall id :: id in s.calls && s.calls[id].job == job ==>
          NumberOk(s, s.calls[id]) && (s.calls[id].phase.Flushing? ==> s.calls[id].phase.sequence > 0))
    && (forall a, b :: IsCommitting(s, a, job) && IsCommitting(s, b, job) ==> a == b)
  }

  lemma FlushKeepsJobInv(s: State, id: CallId, job: JobId)
    requires JobInv(s, job) && Enabled(s, Flush(id))
    ensures JobInv(After(s, Flush(id)), job)
  {
    var c := s.calls[id];
    if c.job == job && IsAccepted(s, c) {
      assert NumberOk(s, c);
      TakenInDense(s.events, job, c.phase.sequence);
      forall a | a != id ensures !IsCommitting(s, a, job) {
        assert a in s.calls && s.calls[a].job == job ==> NumberOk(s, s.calls[a]);
      }
      assert forall a :: IsCommitting(After(s, Flush(id)), a, job) ==> a == id;
    } else {
      assert forall a :: IsCommitting(After(s, Flush(id)), a, job) ==> IsCommitting(s, a, job);
    }
  }

  lemma CommitKeepsJobInv(s: State, id: CallId, job: JobId)
    requires JobInv(s, job) && Enabled(s, Commit(id))
    ensures JobInv(After(s, Commit(id)), job)
  {
    var c, t := s.calls[id], After(s, Commit(id));
    RowsAppend(s.events, RowOf(s, id), job);
    assert c.job == job ==> NumberOk(s, c) && IsCommitting(s, id, job);
    assert forall a :: IsCommitting(t, a, job) ==> IsCommitting(s, a, job);
    forall a | a in t.calls && t.calls[a].job == job ensures NumberOk(t, t.calls[a]) {
      assert a in s.calls && NumberOk(s, s.calls[a]);
      assert a != id && c.job == job ==> !IsCommitting(s, a, job);
    }
  }

  lemma DeleteKeepsJobInv(s: State, gone: JobId, job: JobId)
    requires JobInv(s, job) && Enabled(s, DeleteJob(gone))
    ensures JobInv(After(s, DeleteJob(gone)), job)
  {
    var t := After(s, DeleteJob(gone));
    RowsWithoutJob(s.events, gone, job);
    assert forall a :: IsCommitting(t, a, job) <==> IsCommitting(s, a, job);
    forall a | a in t.calls && t.calls[a].job == job ensures NumberOk(t, t.calls[a]) {
      assert NumberOk(s, s.calls[a]);
    }
  }

  lemma CreateKeepsJobInv(s: State, created: JobId, job: JobId)
    requires JobInv(s, job) && Enabled(s, CreateJob(created)) && !Reuses(s, CreateJob(created), job)
    ensures JobInv(After(s, CreateJob(created)), job)
  {
    var t := After(s, CreateJob(created));
    assert forall a :: IsCommitting(t, a, job) <==> IsCommitting(s, a, job);
    forall a | a in t.calls && t.calls[a].job == job ensures NumberOk(t, t.calls[a]) {
      assert NumberOk(s, s.calls[a]) && (created == job ==> !HoldsStale(s, a, job));
    }
  }

  lemma StepKeepsJobInv(s: State, step: Step, job: JobId)
    requires JobInv(s, job) && Enabled(s, step) && !Reuses(s, step, job)
    ensures JobInv(After(s, step), job)
  {
    match step
    case Flush(id) => FlushKeepsJobInv(s, id, job);
    case Commit(id) => CommitKeepsJobInv(s, id, job);
    case DeleteJob(gone) => DeleteKeepsJobInv(s, gone, job);
    case CreateJob(created) => CreateKeepsJobInv(s, created, job);
    case _ => QuietStepKeepsJobInv(s, step, job);
  }

  /** The steps that leave the tables alone and hold no new uncommitted row. */
  lemma QuietStepKeepsJobInv(s: State, step: Step, job: JobId)
    requires JobInv(s, job) && Enabled(s, step)
    requires step.Begin? || step.RequireJob? || step.Read? || step.Crash?
    ensures JobInv(After(s, step), job)
  {
    var t := After(s, step);
    MaxOfDense(s.events, job);
    assert forall a :: IsCommitting(t, a, job) ==> IsCommitting(s, a, job);
    forall a | a in t.calls && t.calls[a].job == job ensures NumberOk(t, t.calls[a]) {
      assert a in s.calls ==> NumberOk(s, s.calls[a]);
    }
  }

  lemma {:induction false} RunKeepsJobInv(run: seq<State>, steps: seq<Step>, i: nat, job: JobId)
    requires IsRun(run, steps) && i < |run| && NoReuse(run, steps, i, job)
    ensures JobInv(run[i], job)
  {
    if i > 0 {
      RunKeepsJobInv(run, steps, i - 1, job);
      StepKeepsJobInv(run[i - 1], steps[i - 1], job);
    }
  }

  /**
   In every interleaving a job's events are numbered 1, 2, 3, ... without gap or repetition, and in
   the order of their commits, as long as the job is not created again under a stale number.
   */
  lemma LogIsSequential(run: seq<State>, steps: seq<Step>, j: nat, job: JobId)
    requires IsRun(run, steps) && j < |run| && NoReuse(run, steps, j, job)
    ensures Dense(run[j].events, job)
    ensures forall n: nat :: Taken(run[j].events, job, n) <==> 1 <= n <= |Rows(run[j].events, job)|
  {
    RunKeepsJobInv(run, steps, j, job);
    forall n: nat ensures Taken(run[j].events, job, n) <==> 1 <= n <= |Rows(run[j].events, job)| {
      TakenInDense(run[j].events, job, n);
    }
  }

  /** Steps from now on: the job is created again at once, and not once more. */
  ghost predicate Recreates(run: seq<State>, steps: seq<Step>, run': seq<State>, steps': seq<Step>, job: JobId) {
    && IsRun(run', steps') && steps + [CreateJob(job)] <= steps' && run <= run'
    && forall k :: |steps| < k < |steps'| ==> steps'[k] != CreateJob(job)
  }

  /** Creating a deleted job again keeps its numbering, whatever happens then, exactly if no call holds a stale number. */
  lemma RecreationIsSafeIff(run: seq<State>, steps: seq<Step>, job: JobId)
    requires IsRun(run, steps) && NoReuse(run, steps, |steps|, job) && job !in run[|steps|].jobs
    ensures
      (forall run': seq<State>, steps' :: Recreates(run, steps, run', steps', job) ==> Dense(run'[|steps'|].events, job))
      <==> !exists id :: HoldsStale(run[|steps|], id, job)
  {
    if id :| HoldsStale(run[|steps|], id, job) {
      var run', steps' := StaleNumberIsCommitted(run, steps, job, id);
    } else {
      forall run': seq<State>, steps' | Recreates(run, steps, run', steps', job) ensures Dense(run'[|steps'|].events, job) {
        forall k | 0 <= k < |steps'| ensures !Reuses(run'[k], steps'[k], job) {
          if k < |steps| { assert run'[k] == run[k] && steps'[k] == steps[k]; }
          assert run'[|steps|] == run[|steps|];
        }
        LogIsSequential(run', steps', |steps'|, job);
      }
    }
  }

  /** A number of the deleted log becomes the first of the new one. */
  lemma StaleNumberIsCommitted(run: seq<State>, steps: seq<Step>, job: JobId, id: CallId)
    returns (run': seq<State>, steps': seq<Step>)
    requires IsRun(run, steps) && NoReuse(run, steps, |steps|, job) && job !in run[|steps|].jobs
    requires HoldsStale(run[|steps|], id, job)
    ensures Recreates(run, steps, run', steps', job) && !Dense(run'[|steps'|].events, job)
  {
    var s := run[|steps|];
    RunKeepsJobInv(run, steps, |steps|, job);
    RunKeepsInv(run, steps, |steps|);
    var s1 := After(s, CreateJob(job));
    TakenInDense(s.events, job, s.calls[id].phase.sequence);
    NobodyBlocks(s, job);
    var s2 := After(s1, Flush(id));
    var s3 := After(s2, Commit(id));
    OneMoreStep(run, steps, CreateJob(job));
    OneMoreStep(run + [s1], steps + [CreateJob(job)], Flush(id));
    OneMoreStep(run + [s1] + [s2], steps + [CreateJob(job)] + [Flush(id)], Commit(id));
    run', steps' := run + [s1] + [s2] + [s3], steps + [CreateJob(job)] + [Flush(id)] + [Commit(id)];
    RowsAppend(s.events, RowOf(s2, id), job);
    assert Rows(s3.events, job)[0].sequence > 1;
  }

  lemma NobodyBlocks(s: State, job: JobId)
    requires Inv(s) && job !in s.jobs
    ensures forall id :: !IsCommitting(s, id, job)
  {
    forall id | id in s.calls ensures !IsCommitting(s, id, job) { assert CallOk(s, s.calls[id]); }
  }
}
