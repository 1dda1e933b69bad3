/** When the token cache answers and when it fetches, in seconds and in the steps of a run. */
module TokenNumbers {
  import opened Common
  import opened TokenCache

  /** At step `a` the endpoint answers a fetch for the key. */
  ghost predicate Answers(run: seq<State>, steps: seq<Step>, a: int, key: Key) {
    && 0 <= a < |steps| < |run| && steps[a].Answer? && steps[a].id in run[a].callers
    && run[a].callers[steps[a].id].key == key && run[a].callers[steps[a].id].phase.Fetching?
  }

  /** No later answer for the key up to `j`. */
  ghost predicate IsLastAnswer(run: seq<State>, steps: seq<Step>, a: int, j: nat, key: Key) {
    Answers(run, steps, a, key) && a < j && forall k :: a < k < j ==> !Answers(run, steps, k, key)
  }

  /** The moment at which the fetch was decided. */
  ghost function DecidedAt(run: seq<State>, steps: seq<Step>, a: nat, key: Key): real
    requires Answers(run, steps, a, key)
  {
    run[a].callers[steps[a].id].phase.checkedAt
  }

  /** That is the moment of the second check that led to it. */
  lemma {:induction false} FetchIsDecidedAtSecondCheck(run: seq<State>, steps: seq<Step>, j: nat, id: Id)
    requires IsRun(run, steps) && j < |run| && id in run[j].callers && run[j].callers[id].phase.Fetching?
    ensures
      exists b :: 0 <= b < j && steps[b] == SecondCheck(id) && run[b].now == run[j].callers[id].phase.checkedAt
    decreases j
  {
    var step := steps[j - 1];
    if id in run[j - 1].callers && run[j - 1].callers[id].phase.Fetching? {
      FetchIsDecidedAtSecondCheck(run, steps, j - 1, id);
    } else {
      assert step == SecondCheck(id) && run[j - 1].now == run[j].callers[id].phase.checkedAt;
    }
  }

  lemma StepLeavesEntry(s: State, step: Step, key: Key)
    requires Enabled(s, step) && !(step.Answer? && s.callers[step.id].key == key)
    ensures key in After(s, step).cache <==> key in s.cache
    ensures key in s.cache ==> After(s, step).cache[key] == s.cache[key]
  {
  }

  /** The cache has what the last answer for the key gave. */
  lemma {:induction false} CacheHasLastAnswer(run: seq<State>, steps: seq<Step>, a: nat, j: nat, key: Key)
    requires IsRun(run, steps) && j < |run| && IsLastAnswer(run, steps, a, j, key)
    ensures
      && key in run[j].cache
      && run[j].cache[key] == Entry(steps[a].token, Expiry(DecidedAt(run, steps, a, key), steps[a].expiresIn))
    decreases j
  {
    if j > a + 1 {
      CacheHasLastAnswer(run, steps, a, j - 1, key);
      assert !Answers(run, steps, j - 1, key);
      StepLeavesEntry(run[j - 1], steps[j - 1], key);
    }
  }

  lemma {:induction false} CacheIsEmptyBeforeAnswers(run: seq<State>, steps: seq<Step>, j: nat, key: Key)
    requires IsRun(run, steps) && j < |run| && forall k :: 0 <= k < j ==> !Answers(run, steps, k, key)
    ensures key !in run[j].cache
    decreases j
  {
    if j > 0 {
      CacheIsEmptyBeforeAnswers(run, steps, j - 1, key);
      assert !Answers(run, steps, j - 1, key);
      StepLeavesEntry(run[j - 1], steps[j - 1], key);
    }
  }

  /** More than thirty seconds are left, or the token was given no lifetime. */
  predicate Lasts(decidedAt: real, lifetime: Option<real>, now: real) {
    lifetime.None? || lifetime.value < 0.0 || now + 30.0 < decidedAt + lifetime.value
  }

  lemma FreshInNumbers(token: string, decidedAt: real, lifetime: Option<real>, now: real)
    ensures IsFresh(Entry(token, Expiry(decidedAt, lifetime)), now) <==> Lasts(decidedAt, lifetime, now)
  {
  }

  /**
   After an answer with a lifetime, a check returns that token exactly while more than thirty seconds of it
   are left, counted from the decision to fetch; else the first check waits, and the second goes on to fetch.
   No check adds a fetch.
   */
  lemma ChecksInNumbers(run: seq<State>, steps: seq<Step>, a: nat, j: nat, id: Id)
    requires IsRun(run, steps) && j < |run| && id in run[j].callers
    requires IsLastAnswer(run, steps, a, j, run[j].callers[id].key)
    ensures
      var s, key := run[j], run[j].callers[id].key;
      var lasts := Lasts(DecidedAt(run, steps, a, key), steps[a].expiresIn, s.now);
      && (s.callers[id].phase.Arrived? ==>
            var t := After(s, FirstCheck(id));
            && t.fetches == s.fetches
            && if lasts then t.callers[id].phase.Returned? && t.callers[id].phase.token == steps[a].token
               else t.callers[id].phase.Waiting?)
      && (s.callers[id].phase.Holding? ==>
            var t := After(s, SecondCheck(id));
            && t.fetches == s.fetches
            && if lasts then t.callers[id].phase.Returned? && t.callers[id].phase.token == steps[a].token
               else t.callers[id].phase == Fetching(s.now))
  {
    var key := run[j].callers[id].key;
    CacheHasLastAnswer(run, steps, a, j, key);
    FreshInNumbers(steps[a].token, DecidedAt(run, steps, a, key), steps[a].expiresIn, run[j].now);
  }

  /** Before any answer for its key, a caller waits, and then fetches. */
  lemma FirstCallerFetches(run: seq<State>, steps: seq<Step>, j: nat, id: Id)
    requires IsRun(run, steps) && j < |run| && id in run[j].callers
    requires forall k :: 0 <= k < j ==> !Answers(run, steps, k, run[j].callers[id].key)
    ensures run[j].callers[id].phase.Arrived? ==> After(run[j], FirstCheck(id)).callers[id].phase.Waiting?
    ensures
      run[j].callers[id].phase.Holding? ==>
        After(run[j], SecondCheck(id)).callers[id].phase == Fetching(run[j].now)
  {
    CacheIsEmptyBeforeAnswers(run, steps, j, run[j].callers[id].key);
  }

  ghost predicate HasTokens(s: State) {
    && (forall key :: key in s.cache ==> s.cache[key].token != "")
    && forall id :: id in s.callers && s.callers[id].phase.Returned? ==> s.callers[id].phase.token != ""
  }

  lemma StepKeepsTokens(s: State, step: Step)
    requires HasTokens(s) && Enabled(s, step)
    ensures HasTokens(After(s, step))
  {
    match step
    case _ =>
  }

  /** No empty token is cached or returned: an answer without a token is a failure. */
  lemma {:induction false} TokensAreNotEmpty(run: seq<State>, steps: seq<Step>, j: nat)
    requires IsRun(run, steps) && j < |run|
    ensures HasTokens(run[j])
    decreases j
  {
    if j > 0 {
      TokensAreNotEmpty(run, steps, j - 1);
      StepKeepsTokens(run[j - 1], steps[j - 1]);
    }
  }

  // One fetch per lifetime

  lemma {:induction false} AnswerIsRecorded(run: seq<State>, steps: seq<Step>, a: nat, j: nat, key: Key)
    requires IsRun(run, steps) && a < j < |run| && Answers(run, steps, a, key)
    ensures
      var i, c := |run[a].fetches|, DecidedAt(run, steps, a, key);
      && i < |run[j].fetches| && run[j].fetches[i].key == key
      && run[j].fetches[i].entry == Entry(steps[a].token, Expiry(c, steps[a].expiresIn))
    decreases j
  {
    if j > a + 1 { AnswerIsRecorded(run, steps, a, j - 1, key); }
  }

  lemma {:induction false} FetchesGrow(run: seq<State>, steps: seq<Step>, i: nat, j: nat)
    requires IsRun(run, steps) && i <= j < |run|
    ensures |run[i].fetches| <= |run[j].fetches|
    decreases j
  {
    if i < j { FetchesGrow(run, steps, i, j - 1); }
  }

  /** As long as more than thirty seconds of a token are left, there is no other answer for its key. */
  lemma OneAnswerPerLifetime(run: seq<State>, steps: seq<Step>, a: nat, j: nat, key: Key)
    requires IsRun(run, steps) && a < j < |run| && Answers(run, steps, a, key)
    requires Lasts(DecidedAt(run, steps, a, key), steps[a].expiresIn, run[j].now)
    ensures IsLastAnswer(run, steps, a, j, key)
  {
    AnswerIsRecorded(run, steps, a, j, key);
    FreshInNumbers(steps[a].token, DecidedAt(run, steps, a, key), steps[a].expiresIn, run[j].now);
    forall k | a < k < j ensures !Answers(run, steps, k, key) {
      if Answers(run, steps, k, key) {
        AnswerIsRecorded(run, steps, k, j, key);
        FetchesGrow(run, steps, a + 1, k);
        OneFetchWhileFresh(run, steps, j, |run[a].fetches|, |run[k].fetches|);
      }
    }
  }
}
