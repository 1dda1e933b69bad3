/**
 The OAuth2 token cache: coroutines that check the cache, wait for one lock, check again and only
 then fetch, interleaved at their await points.
 */
module TokenCache {
  import opened Common

  type Key = string
  type Id = nat

  /** A cached token is used only if more than this many seconds are left. */
  const MARGIN: real := 30.0

  datatype Entry = Entry(token: string, expiresAt: Option<real>)

  /** How a returned token was obtained: from the cache at a moment, or by a fetch. */
  datatype Origin = Cached(at: real, expiresAt: Option<real>) | Fetched

  datatype Phase =
    | Arrived
    | Waiting
    | Holding
    | Fetching(checkedAt: real)
    | Returned(token: string, origin: Origin)
    | Failed

  datatype Caller = Caller(key: Key, phase: Phase)

  /** History: one successful fetch, by whom, decided and answered when. */
  datatype Fetch = Fetch(key: Key, entry: Entry, fetcher: Id, checkedAt: real, answeredAt: real, expiresIn: Option<real>)

  datatype State = State(
    now: real, lock: Option<Id>, cache: map<Key, Entry>, callers: map<Id, Caller>, fetches: seq<Fetch>)

  predicate IsFresh(e: Entry, at: real) { e.expiresAt.None? || e.expiresAt.value > at + MARGIN }

  predicate HasFresh(cache: map<Key, Entry>, key: Key, at: real) { key in cache && IsFresh(cache[key], at) }

  datatype Step =
    | Tick(seconds: real)
    | Arrive(id: Id, key: Key)
    | FirstCheck(id: Id)
    | Acquire(id: Id)
    | SecondCheck(id: Id)
    | Answer(id: Id, token: string, expiresIn: Option<real>)
    | Fail(id: Id)

  predicate Enabled(s: State, step: Step) {
    match step
    case Tick(seconds) => seconds > 0.0
    case Arrive(id, _) => id !in s.callers
    case FirstCheck(id) => id in s.callers && s.callers[id].phase.Arrived?
    case Acquire(id) => id in s.callers && s.callers[id].phase.Waiting? && s.lock.None?
    case SecondCheck(id) => id in s.callers && s.callers[id].phase.Holding?
    case Answer(id, token, _) => id in s.callers && s.callers[id].phase.Fetching? && token != ""
    case Fail(id) => id in s.callers && !s.callers[id].phase.Returned? && !s.callers[id].phase.Failed?
  }

  function Moved(s: State, id: Id, phase: Phase): State
    requires id in s.callers
  {
    s.(callers := s.callers[id := s.callers[id].(phase := phase)])
  }

  /** Leaving the `async with` block, or failing outside it. */
  function Released(s: State, id: Id): State {
    if s.lock == Some(id) then s.(lock := None) else s
  }

  function Expiry(checkedAt: real, expiresIn: Option<real>): Option<real> {
    if expiresIn.Some? && expiresIn.value >= 0.0 then Some(checkedAt + expiresIn.value) else None
  }

  function After(s: State, step: Step): State
    requires Enabled(s, step)
  {
    match step
    case Tick(seconds) => s.(now := s.now + seconds)
    case Arrive(id, key) => s.(callers := s.callers[id := Caller(key, Arrived)])
    case FirstCheck(id) =>
      var key := s.callers[id].key;
      if HasFresh(s.cache, key, s.now)
      then Moved(s, id, Returned(s.cache[key].token, Cached(s.now, s.cache[key].expiresAt)))
      else Moved(s, id, Waiting)
    case Acquire(id) => Moved(s, id, Holding).(lock := Some(id))
    case SecondCheck(id) =>
      var key := s.callers[id].key;
      if HasFresh(s.cache, key, s.now)
      then Released(Moved(s, id, Returned(s.cache[key].token, Cached(s.now, s.cache[key].expiresAt))), id)
      else Moved(s, id, Fetching(s.now))
    case Answer(id, token, expiresIn) =>
      var c := s.callers[id];
      var entry := Entry(token, Expiry(c.phase.checkedAt, expiresIn));
      Released(Moved(s, id, Returned(token, Fetched)), id).(
        cache := s.cache[c.key := entry],
        fetches := s.fetches + [Fetch(c.key, entry, id, c.phase.checkedAt, s.now, expiresIn)])
    case Fail(id) => Released(Moved(s, id, Failed), id)
  }

  // The invariant

  /** The lock is held by exactly the caller inside the guarded block, if there is one. */
  ghost predicate LockOk(s: State) {
    && (s.lock.Some? ==> s.lock.value in s.callers)
    && forall id :: id in s.callers ==>
                      (s.lock == Some(id) <==> s.callers[id].phase.Holding? || s.callers[id].phase.Fetching?)
  }

  /** The cache holds the last fetch of each key. */
  function CacheOf(fetches: seq<Fetch>): map<Key, Entry> {
    if fetches == [] then map[]
    else
      var f := fetches[|fetches| - 1];
      CacheOf(fetches[..|fetches| - 1])[f.key := f.entry]
  }

  ghost predicate FetchOk(f: Fetch) {
    f.checkedAt <= f.answeredAt && f.entry.expiresAt == Expiry(f.checkedAt, f.expiresIn)
  }

  /** A later fetch of the same key was decided when the earlier token had run out. */
  ghost predicate RanOut(earlier: Fetch, later: Fetch) {
    && earlier.answeredAt <= later.checkedAt
    && (earlier.key == later.key ==> !IsFresh(earlier.entry, later.checkedAt))
  }

  ghost predicate FetchesOk(s: State) {
    && (forall i :: 0 <= i < |s.fetches| ==> FetchOk(s.fetches[i]) && s.fetches[i].answeredAt <= s.now)
    && (forall i, j :: 0 <= i < j < |s.fetches| ==> RanOut(s.fetches[i], s.fetches[j]))
  }

  ghost predicate FetcherOk(s: State, c: Caller) {
    c.phase.Fetching? ==>
      && c.phase.checkedAt <= s.now && !HasFresh(s.cache, c.key, c.phase.checkedAt)
      && forall i :: 0 <= i < |s.fetches| ==> s.fetches[i].answeredAt <= c.phase.checkedAt
  }

  /** The token was fetched for this very key; if it came from the cache it was fresh when checked. */
  ghost predicate TokenOk(fetches: seq<Fetch>, id: Id, key: Key, token: string, origin: Origin) {
    match origin
    case Fetched =>
      exists i :: 0 <= i < |fetches| && fetches[i].key == key && fetches[i].entry.token == token
                  && fetches[i].fetcher == id
    case Cached(at, expiresAt) =>
      && IsFresh(Entry(token, expiresAt), at)
      && exists i :: 0 <= i < |fetches| && fetches[i].key == key && fetches[i].entry == Entry(token, expiresAt)
                     && fetches[i].answeredAt <= at
  }

  ghost predicate CallerOk(s: State, id: Id, c: Caller) {
    && FetcherOk(s, c)
    && (c.phase.Returned? ==> TokenOk(s.fetches, id, c.key, c.phase.token, c.phase.origin))
  }

  ghost predicate Inv(s: State) {
    && LockOk(s)
    && s.cache == CacheOf(s.fetches)
    && FetchesOk(s)
    && forall id :: id in s.callers ==> CallerOk(s, id, s.callers[id])
  }

  lemma {:induction false} CacheEntryWasFetched(fetches: seq<Fetch>, key: Key) returns (i: nat)
    requires key in CacheOf(fetches)
    ensures i < |fetches| && fetches[i].key == key && fetches[i].entry == CacheOf(fetches)[key]
    ensures forall j :: i < j < |fetches| ==> fetches[j].key != key
  {
    var n := |fetches| - 1;
    if fetches[n].key == key {
      i := n;
    } else {
      i := CacheEntryWasFetched(fetches[..n], key);
    }
  }

  lemma {:induction false} FetchedKeysAreCached(fetches: seq<Fetch>)
    ensures forall i :: 0 <= i < |fetches| ==> fetches[i].key in CacheOf(fetches)
  {
    if fetches != [] { FetchedKeysAreCached(fetches[..|fetches| - 1]); }
  }

  /** Steps that fetch nothing: time and the other callers' claims carry over. */
  lemma InvAfterQuietStep(s: State, t: State)
    requires Inv(s) && LockOk(t)
    requires t.now >= s.now && t.cache == s.cache && t.fetches == s.fetches
    requires forall id :: id in t.callers ==>
               (id in s.callers && t.callers[id] == s.callers[id]) || CallerOk(t, id, t.callers[id])
    ensures Inv(t)
  {
    forall id | id in t.callers ensures CallerOk(t, id, t.callers[id]) {
      if id in s.callers && t.callers[id] == s.callers[id] { assert CallerOk(s, id, s.callers[id]); }
    }
  }

  /** A fresh entry in the cache vouches for the token it returns. */
  lemma CachedTokenOk(s: State, id: Id, key: Key)
    requires Inv(s) && HasFresh(s.cache, key, s.now)
    ensures TokenOk(s.fetches, id, key, s.cache[key].token, Cached(s.now, s.cache[key].expiresAt))
  {
    var i := CacheEntryWasFetched(s.fetches, key);
  }

  /** When nothing fresh is cached, every fetch of the key so far has run out. */
  lemma AllRanOut(s: State, id: Id, i: nat)
    requires Inv(s) && id in s.callers && s.callers[id].phase.Fetching? && i < |s.fetches|
    requires s.fetches[i].key == s.callers[id].key
    ensures !IsFresh(s.fetches[i].entry, s.callers[id].phase.checkedAt)
  {
    assert CallerOk(s, id, s.callers[id]);
    FetchedKeysAreCached(s.fetches);
    var last := CacheEntryWasFetched(s.fetches, s.callers[id].key);
    if i < last {
      assert RanOut(s.fetches[i], s.fetches[last]);
      assert FetchOk(s.fetches[last]);
    }
  }

  lemma TokenOkAfterFetch(fetches: seq<Fetch>, f: Fetch, id: Id, key: Key, token: string, origin: Origin)
    requires TokenOk(fetches, id, key, token, origin)
    ensures TokenOk(fetches + [f], id, key, token, origin)
  {
    match origin
    case Fetched =>
      var i :| 0 <= i < |fetches| && fetches[i].key == key && fetches[i].entry.token == token && fetches[i].fetcher == id;
      assert (fetches + [f])[i] == fetches[i];
    case Cached(at, expiresAt) =>
      var i :| 0 <= i < |fetches| && fetches[i].key == key && fetches[i].entry == Entry(token, expiresAt)
               && fetches[i].answeredAt <= at;
      assert (fetches + [f])[i] == fetches[i];
  }

  lemma AnswerKeepsInv(s: State, step: Step)
    requires Inv(s) && step.Answer? && Enabled(s, step)
    ensures Inv(After(s, step))
  {
    var id, t := step.id, After(s, step);
    var c := s.callers[id];
    assert CallerOk(s, id, c);
    var n := |s.fetches|;
    var f := t.fetches[n];
    assert t.fetches[..n] == s.fetches && s.lock == Some(id);
    forall i | 0 <= i < n ensures RanOut(t.fetches[i], f) {
      if s.fetches[i].key == f.key { AllRanOut(s, id, i); }
    }
    forall a | a in t.callers ensures CallerOk(t, a, t.callers[a]) {
      if a == id {
        assert t.fetches[n].fetcher == id;
      } else {
        assert CallerOk(s, a, s.callers[a]) && !s.callers[a].phase.Fetching?;
        if s.callers[a].phase.Returned? {
          TokenOkAfterFetch(s.fetches, f, a, s.callers[a].key, s.callers[a].phase.token, s.callers[a].phase.origin);
        }
      }
    }
  }

  lemma StepKeepsInv(s: State, step: Step)
    requires Inv(s) && Enabled(s, step)
    ensures Inv(After(s, step))
  {
    var t := After(s, step);
    match step
    case Tick(_) => InvAfterQuietStep(s, t);
    case Arrive(id, _) => InvAfterQuietStep(s, t);
    case FirstCheck(id) =>
      if HasFresh(s.cache, s.callers[id].key, s.now) { CachedTokenOk(s, id, s.callers[id].key); }
      InvAfterQuietStep(s, t);
    case Acquire(id) => InvAfterQuietStep(s, t);
    case SecondCheck(id) =>
      if HasFresh(s.cache, s.callers[id].key, s.now) { CachedTokenOk(s, id, s.callers[id].key); }
      InvAfterQuietStep(s, t);
    case Answer(_, _, _) => AnswerKeepsInv(s, step);
    case Fail(id) => InvAfterQuietStep(s, t);
  }

  // Runs

  ghost predicate IsRun(run: seq<State>, steps: seq<Step>) {
    && |run| == |steps| + 1
    && run[0].lock.None? && run[0].cache == map[] && run[0].callers == map[] && run[0].fetches == []
    && forall i :: 0 <= i < |steps| ==> Enabled(run[i], steps[i]) && run[i + 1] == After(run[i], steps[i])
  }

  lemma {:induction false} RunKeepsInv(run: seq<State>, steps: seq<Step>, i: nat)
    requires IsRun(run, steps) && i < |run|
    ensures Inv(run[i])
  {
    if i > 0 {
      RunKeepsInv(run, steps, i - 1);
      StepKeepsInv(run[i - 1], steps[i - 1]);
    }
  }

  predicate IsInside(phase: Phase) { phase.Holding? || phase.Fetching? }

  /** At most one caller is inside the guarded block, so at most one is fetching. */
  lemma MutualExclusion(run: seq<State>, steps: seq<Step>, j: nat, a: Id, b: Id)
    requires IsRun(run, steps) && j < |run| && a in run[j].callers && b in run[j].callers
    requires IsInside(run[j].callers[a].phase) && IsInside(run[j].callers[b].phase)
    ensures a == b
  {
    RunKeepsInv(run, steps, j);
  }

  /** The lock is never lost: while a caller is unfinished, some caller can take its next step. */
  lemma SomeCallerCanMove(run: seq<State>, steps: seq<Step>, j: nat, id: Id)
    requires IsRun(run, steps) && j < |run| && id in run[j].callers
    requires !run[j].callers[id].phase.Returned? && !run[j].callers[id].phase.Failed?
    ensures exists step :: Enabled(run[j], step) && !step.Tick? && !step.Arrive? && !step.Fail?
  {
    RunKeepsInv(run, steps, j);
    var s := run[j];
    var who := if s.callers[id].phase.Waiting? && s.lock.Some? then s.lock.value else id;
    match s.callers[who].phase
    case Arrived => assert Enabled(s, FirstCheck(who));
    case Waiting => assert Enabled(s, Acquire(who));
    case Holding => assert Enabled(s, SecondCheck(who));
    case Fetching(_) => assert Enabled(s, Answer(who, "token", None));
  }

  /** A returned token was fetched for the caller's own key, by itself or more than the margin before expiry. */
  lemma ReturnedTokensAreGood(run: seq<State>, steps: seq<Step>, j: nat, id: Id)
    requires IsRun(run, steps) && j < |run| && id in run[j].callers && run[j].callers[id].phase.Returned?
    ensures
      var c := run[j].callers[id];
      TokenOk(run[j].fetches, id, c.key, c.phase.token, c.phase.origin)
  {
    RunKeepsInv(run, steps, j);
    assert CallerOk(run[j], id, run[j].callers[id]);
  }

  /** While some token of a key has more than the margin left, the key has been fetched only once since. */
  lemma OneFetchWhileFresh(run: seq<State>, steps: seq<Step>, j: nat, i: nat, k: nat)
    requires IsRun(run, steps) && j < |run| && i < |run[j].fetches| && k < |run[j].fetches|
    requires run[j].fetches[i].key == run[j].fetches[k].key && IsFresh(run[j].fetches[i].entry, run[j].now)
    ensures k <= i
  {
    RunKeepsInv(run, steps, j);
    var fetches := run[j].fetches;
    assert FetchOk(fetches[k]) && fetches[k].answeredAt <= run[j].now;
    assert i < k ==> RanOut(fetches[i], fetches[k]);
  }

  /**
   From an empty cache, as long as the first token of a key is fresh it is the only one fetched for
   that key, and every caller of the key that has returned got this token.
   */
  lemma CallersShareOneFetch(run: seq<State>, steps: seq<Step>, j: nat, first: nat, id: Id)
    requires IsRun(run, steps) && j < |run| && first < |run[j].fetches|
    requires forall k :: 0 <= k < first ==> run[j].fetches[k].key != run[j].fetches[first].key
    requires IsFresh(run[j].fetches[first].entry, run[j].now)
    requires id in run[j].callers && run[j].callers[id].key == run[j].fetches[first].key
    requires run[j].callers[id].phase.Returned?
    ensures run[j].callers[id].phase.token == run[j].fetches[first].entry.token
    ensures forall k :: 0 <= k < |run[j].fetches| && run[j].fetches[k].key == run[j].fetches[first].key ==> k == first
  {
    forall k | 0 <= k < |run[j].fetches| && run[j].fetches[k].key == run[j].fetches[first].key ensures k == first {
      OneFetchWhileFresh(run, steps, j, first, k);
    }
    ReturnedTokensAreGood(run, steps, j, id);
  }

  /** What is cached is the key's last fetch, and it is never kept beyond response time plus lifetime. */
  lemma StoredExpiryIsSafe(run: seq<State>, steps: seq<Step>, j: nat, key: Key) returns (i: nat)
    requires IsRun(run, steps) && j < |run| && key in run[j].cache
    ensures i < |run[j].fetches| && run[j].fetches[i].key == key && run[j].fetches[i].entry == run[j].cache[key]
    ensures forall k :: i < k < |run[j].fetches| ==> run[j].fetches[k].key != key
    ensures
      var f := run[j].fetches[i];
      if f.expiresIn.Some? && f.expiresIn.value >= 0.0
      then f.entry.expiresAt.Some? && f.entry.expiresAt.value <= f.answeredAt + f.expiresIn.value
      else f.entry.expiresAt.None?
  {
    RunKeepsInv(run, steps, j);
    i := CacheEntryWasFetched(run[j].fetches, key);
    assert FetchOk(run[j].fetches[i]);
  }

  lemma Take(run: seq<State>, steps: seq<Step>, step: Step) returns (run': seq<State>, steps': seq<Step>)
    requires IsRun(run, steps) && Enabled(run[|steps|], step)
    ensures IsRun(run', steps') && run'[|steps'|] == After(run[|steps|], step)
  {
    run', steps' := run + [After(run[|steps|], step)], steps + [step];
  }

  /** A response with a negative lifetime puts a token into the cache that never expires. */
  lemma NegativeLifetimeNeverExpires(key: Key, token: string, lifetime: real)
    returns (run: seq<State>, steps: seq<Step>)
    requires token != "" && lifetime < 0.0
    ensures IsRun(run, steps)
    ensures
      var s := run[|steps|];
      key in s.cache && s.cache[key].token == token && forall at :: IsFresh(s.cache[key], at)
  {
    run, steps := [State(0.0, None, map[], map[], [])], [];
    run, steps := Take(run, steps, Arrive(0, key));
    run, steps := Take(run, steps, FirstCheck(0));
    run, steps := Take(run, steps, Acquire(0));
    run, steps := Take(run, steps, SecondCheck(0));
    run, steps := Take(run, steps, Answer(0, token, Some(lifetime)));
  }
}
