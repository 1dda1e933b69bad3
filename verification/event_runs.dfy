/** Two runs in which a job is deleted under a call: it gives up, or its number survives into the next log. */
module EventRuns {
  import opened EventLog

  lemma Take(run: seq<State>, steps: seq<Step>, step: Step) returns (run': seq<State>, steps': seq<Step>)
    requires IsRun(run, steps) && Enabled(run[|steps|], step)
    ensures IsRun(run', steps') && run <= run' && steps' == steps + [step]
    ensures run'[|steps'|] == After(run[|steps|], step)
  {
    OneMoreStep(run, steps, step);
    run', steps' := run + [After(run[|steps|], step)], steps + [step];
  }

  /** An attempt on a deleted job is rejected. */
  lemma TryInVain(run: seq<State>, steps: seq<Step>, id: CallId) returns (run': seq<State>, steps': seq<Step>)
    requires IsRun(run, steps) && id in run[|steps|].calls && run[|steps|].calls[id].phase.Reading?
    requires run[|steps|].calls[id].job !in run[|steps|].jobs
    ensures IsRun(run', steps') && run'[|steps'|] == Rejected(run[|steps|], id)
    ensures steps' == steps + [Read(id)] + [Flush(id)]
  {
    RunKeepsInv(run, steps, |steps|);
    NobodyBlocks(run[|steps|], run[|steps|].calls[id].job);
    run', steps' := Take(run, steps, Read(id));
    var s := run'[|steps'|];
    assert forall other :: other in s.calls && s.calls[other].job == s.calls[id].job ==>
      !IsCommitting(run[|steps|], other, s.calls[id].job);
    run', steps' := Take(run', steps', Flush(id));
    assert run'[|steps'|].calls == Rejected(run[|steps|], id).calls;
  }

  lemma Begun(job: JobId, payload: string) returns (run: seq<State>, steps: seq<Step>)
    ensures IsRun(run, steps) && steps == [CreateJob(job), Begin(0, job, payload), RequireJob(0)]
    ensures run[3] == State({job}, [], map[0 := Call(job, payload, Reading, 0)])
  {
    run, steps := [State({}, [], map[])], [];
    run, steps := Take(run, steps, CreateJob(job));
    run, steps := Take(run, steps, Begin(0, job, payload));
    run, steps := Take(run, steps, RequireJob(0));
  }

  /** A call whose job is deleted can give up although no event was committed at all. */
  lemma DeletedJobMakesCallGiveUp(job: JobId, payload: string) returns (run: seq<State>, steps: seq<Step>)
    ensures IsRun(run, steps) && 0 in run[|steps|].calls && run[|steps|].calls[0].phase.GaveUp?
    ensures
      steps == [CreateJob(job), Begin(0, job, payload), RequireJob(0), DeleteJob(job),
                Read(0), Flush(0), Read(0), Flush(0), Read(0), Flush(0)]
    ensures forall step :: step in steps ==> !step.Commit?
  {
    run, steps := Begun(job, payload);
    run, steps := Take(run, steps, DeleteJob(job));
    run, steps := TryInVain(run, steps, 0);
    run, steps := TryInVain(run, steps, 0);
    run, steps := TryInVain(run, steps, 0);
  }

  lemma CreatedOnce(run: seq<State>, steps: seq<Step>, job: JobId)
    requires IsRun(run, steps) && forall k :: 1 <= k < |steps| ==> steps[k] != CreateJob(job)
    ensures NoReuse(run, steps, |steps|, job)
  {
  }

  lemma OneEvent(job: JobId, payload: string) returns (run: seq<State>, steps: seq<Step>)
    ensures IsRun(run, steps) && forall k :: 1 <= k < |steps| ==> steps[k] != CreateJob(job)
    ensures run[|steps|] == State({job}, [Event(job, 1, payload, 0)], map[0 := Call(job, payload, Returned, 0)])
  {
    run, steps := Begun(job, payload);
    run, steps := Take(run, steps, Read(0));
    run, steps := Take(run, steps, Flush(0));
    run, steps := Take(run, steps, Commit(0));
  }

  lemma StaleNumberHeld(job: JobId, payload: string) returns (run: seq<State>, steps: seq<Step>)
    ensures IsRun(run, steps) && forall k :: 1 <= k < |steps| ==> steps[k] != CreateJob(job)
    ensures job !in run[|steps|].jobs && HoldsStale(run[|steps|], 1, job)
  {
    run, steps := OneEvent(job, payload);
    var first := Event(job, 1, payload, 0);
    run, steps := Take(run, steps, Begin(1, job, payload));
    run, steps := Take(run, steps, RequireJob(1));
    assert [first][..0] == [] && MaxSequence([first], job) == 1;
    run, steps := Take(run, steps, Read(1));
    run, steps := Take(run, steps, DeleteJob(job));
  }

  /** A job that is created again under a running call can have 2 as its first number. */
  lemma StaleNumberHappens(job: JobId, payload: string) returns (run: seq<State>, steps: seq<Step>)
    ensures IsRun(run, steps) && !Dense(run[|steps|].events, job)
  {
    run, steps := StaleNumberHeld(job, payload);
    CreatedOnce(run, steps, job);
    run, steps := StaleNumberIsCommitted(run, steps, job, 1);
  }
}
