/** A reader of a job's events that polls with the last number it has seen. */
module EventReaders {
  import opened EventLog

  function InsertBySequence(sorted: seq<Event>, e: Event): seq<Event> {
    if sorted == [] || e.sequence < sorted[0].sequence then [e] + sorted
    else [sorted[0]] + InsertBySequence(sorted[1..], e)
  }

  /** `select ... where job_id = job and sequence_number > after order by sequence_number`. */
  function ListEvents(events: seq<Event>, job: JobId, after: nat): seq<Event> {
    if events == [] then []
    else
      var e := events[|events| - 1];
      var rest := ListEvents(events[..|events| - 1], job, after);
      if e.job == job && e.sequence > after then InsertBySequence(rest, e) else rest
  }

  lemma {:induction false} InsertLargest(sorted: seq<Event>, e: Event)
    requires forall i :: 0 <= i < |sorted| ==> sorted[i].sequence <= e.sequence
    ensures InsertBySequence(sorted, e) == sorted + [e]
  {
    if sorted != [] {
      InsertLargest(sorted[1..], e);
      assert [sorted[0]] + (sorted[1..] + [e]) == sorted + [e];
    }
  }

  lemma RestGrows(before: seq<Event>, e: Event, after: nat)
    requires after <= |before|
    ensures (before + [e])[after..] == before[after..] + [e]
  {
  }

  lemma {:induction false} ListOfDense(events: seq<Event>, job: JobId, after: nat)
    requires Dense(events, job)
    ensures
      var rows := Rows(events, job);
      ListEvents(events, job, after) == if after <= |rows| then rows[after..] else []
  {
    if events != [] {
      var n := |events| - 1;
      var before, rows := Rows(events[..n], job), Rows(events, job);
      forall i | 0 <= i < |before| ensures before[i].sequence == i + 1 {
        assert rows[i] == before[i];
      }
      ListOfDense(events[..n], job, after);
      if events[n].job == job {
        assert rows == before + [events[n]] && rows[|before|] == events[n];
        if after <= |before| {
          InsertLargest(before[after..], events[n]);
          RestGrows(before, events[n], after);
        }
      }
    }
  }

  function Cursor(received: seq<Event>): nat {
    if received == [] then 0 else received[|received| - 1].sequence
  }

  /** What a reader has received after polling these states of the table one after the other. */
  function Received(snapshots: seq<seq<Event>>, job: JobId): seq<Event> {
    if snapshots == [] then []
    else
      var received := Received(snapshots[..|snapshots| - 1], job);
      received + ListEvents(snapshots[|snapshots| - 1], job, Cursor(received))
  }

  /** What a reader holds is numbered from 1 on without gap. */
  ghost predicate IsNumbered(received: seq<Event>) {
    forall k :: 0 <= k < |received| ==> received[k].sequence == k + 1
  }

  lemma CursorOfNumbered(received: seq<Event>)
    requires IsNumbered(received)
    ensures Cursor(received) == |received|
  {
  }

  /** A poll adds the events that the log has beyond those received, by their numbers. */
  lemma PollAddsNumbers(before: seq<Event>, events: seq<Event>, job: JobId)
    requires Dense(events, job) && IsNumbered(before)
    ensures
      var rows, received := Rows(events, job), before + ListEvents(events, job, Cursor(before));
      && IsNumbered(received) && |rows| <= |received| && before <= received
      && (forall k :: |before| <= k < |received| ==> k < |rows| && received[k] == rows[k])
      && (before <= rows ==> received == rows)
  {
    CursorOfNumbered(before);
    ListOfDense(events, job, |before|);
    if before <= Rows(events, job) { WithRest(before, Rows(events, job)); }
  }

  lemma WithRest(received: seq<Event>, rows: seq<Event>)
    requires received <= rows
    ensures received + rows[|received|..] == rows
  {
  }

  /** While the log only grows, a reader has all of it. */
  lemma {:induction false} ReceivedFromGrowing(tables: seq<seq<Event>>, job: JobId)
    requires tables != [] && forall i :: 0 <= i < |tables| ==> Dense(tables[i], job)
    requires forall i, j :: 0 <= i < j < |tables| ==> Rows(tables[i], job) <= Rows(tables[j], job)
    ensures Received(tables, job) == Rows(tables[|tables| - 1], job)
  {
    var n := |tables| - 1;
    if n > 0 { ReceivedFromGrowing(tables[..n], job); }
    PollAddsNumbers(Received(tables[..n], job), tables[n], job);
  }

  /** The event stands in one of the tables at the place of its number. */
  ghost predicate IsSeen(tables: seq<seq<Event>>, job: JobId, k: nat, e: Event) {
    exists i :: 0 <= i < |tables| && k < |Rows(tables[i], job)| && Rows(tables[i], job)[k] == e
  }

  /** Whatever happens to the log, a reader's events are numbered, complete up to the longest log, and real. */
  lemma {:induction false} ReceivedIsNumbered(tables: seq<seq<Event>>, job: JobId)
    requires forall i :: 0 <= i < |tables| ==> Dense(tables[i], job)
    ensures IsNumbered(Received(tables, job))
    ensures forall i :: 0 <= i < |tables| ==> |Rows(tables[i], job)| <= |Received(tables, job)|
    ensures forall k :: 0 <= k < |Received(tables, job)| ==> IsSeen(tables, job, k, Received(tables, job)[k])
  {
    if tables != [] {
      var n := |tables| - 1;
      var before := Received(tables[..n], job);
      ReceivedIsNumbered(tables[..n], job);
      PollAddsNumbers(before, tables[n], job);
      forall k | 0 <= k < |Received(tables, job)| ensures IsSeen(tables, job, k, Received(tables, job)[k]) {
        if k < |before| {
          assert IsSeen(tables[..n], job, k, before[k]);
          var i :| 0 <= i < n && k < |Rows(tables[..n][i], job)| && Rows(tables[..n][i], job)[k] == before[k];
          assert tables[i] == tables[..n][i];
        }
      }
    }
  }

  /** The tables that a reader polls at these moments of a run. */
  function Snapshots(run: seq<State>, polls: seq<nat>): seq<seq<Event>>
    requires forall i :: 0 <= i < |polls| ==> polls[i] < |run|
  {
    seq(|polls|, i requires 0 <= i < |polls| => run[polls[i]].events)
  }

  /** Without a deletion, a reader polling at any moments has exactly the log of its last poll, a prefix of later logs. */
  lemma ReaderReceivesTheLog(run: seq<State>, steps: seq<Step>, polls: seq<nat>, job: JobId, later: nat)
    requires IsRun(run, steps) && later < |run| && NoReuse(run, steps, later, job)
    requires polls != [] && forall i :: 0 <= i < |polls| ==> polls[i] <= later
    requires forall i, j :: 0 <= i < j < |polls| ==> polls[i] <= polls[j]
    requires Undeleted(steps, polls[0], later, job)
    ensures
      var received := Received(Snapshots(run, polls), job);
      received == Rows(run[polls[|polls| - 1]].events, job) <= Rows(run[later].events, job)
  {
    forall i | 0 <= i < |polls| ensures Dense(run[polls[i]].events, job) {
      RunKeepsJobInv(run, steps, polls[i], job);
    }
    forall i, j | 0 <= i < j < |polls| ensures Rows(run[polls[i]].events, job) <= Rows(run[polls[j]].events, job) {
      LogGrowsUntilDeleted(run, steps, polls[i], polls[j], job);
    }
    ReceivedFromGrowing(Snapshots(run, polls), job);
    LogGrowsUntilDeleted(run, steps, polls[|polls| - 1], later, job);
  }

  /**
   Across deletions, too, what a reader holds is numbered 1, 2, 3, ... and as long as the longest log
   it has seen; each event is that of its number in the log of some poll.
   */
  lemma ReaderNeverRepeats(run: seq<State>, steps: seq<Step>, polls: seq<nat>, job: JobId, later: nat)
    requires IsRun(run, steps) && later < |run| && NoReuse(run, steps, later, job)
    requires forall i :: 0 <= i < |polls| ==> polls[i] <= later
    ensures
      var tables := Snapshots(run, polls);
      var received := Received(tables, job);
      && IsNumbered(received)
      && (forall i :: 0 <= i < |polls| ==> |Rows(run[polls[i]].events, job)| <= |received|)
      && forall k :: 0 <= k < |received| ==> IsSeen(tables, job, k, received[k])
  {
    forall i | 0 <= i < |polls| ensures Dense(run[polls[i]].events, job) {
      RunKeepsJobInv(run, steps, polls[i], job);
    }
    var tables := Snapshots(run, polls);
    assert forall i :: 0 <= i < |polls| ==> tables[i] == run[polls[i]].events;
    ReceivedIsNumbered(tables, job);
  }
}
