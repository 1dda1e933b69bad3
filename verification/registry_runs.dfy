/** What runs of registry operations keep, when they need the one-active index, and what deleting promotes. */
module RegistryRuns {
  import opened Common
  import opened Registry

  // Runs of operations

  function RunOps(t: Table, ops: seq<Op>): Table
    decreases |ops|
  {
    if ops == [] then t else RunOps(After(t, ops[0]), ops[1..])
  }

  /** At most one version per scope is active after every run of operations. */
  lemma {:induction false} RunsKeepOneActive(t: Table, ops: seq<Op>)
    requires IndexesOk(t)
    ensures IndexesOk(RunOps(t, ops))
    ensures forall i, j :: 0 <= i < j < |RunOps(t, ops)| && SameScope(RunOps(t, ops)[i], RunOps(t, ops)[j]) ==>
              !(RunOps(t, ops)[i].active && RunOps(t, ops)[j].active)
    decreases |ops|
  {
    if ops != [] { RunsKeepOneActive(After(t, ops[0]), ops[1..]); }
  }

  predicate NamesNoEmptyScope(tenant: Option<string>, environment: Option<string>) {
    tenant != Some("") && environment != Some("")
  }

  predicate IsNamed(r: Row) { NamesNoEmptyScope(r.tenant, r.environment) }

  ghost predicate AllNamed(t: Table) { forall r :: r in t ==> IsNamed(r) }

  /** An operation that puts no row into a scope with an empty string. */
  predicate WritesNamed(op: Op) {
    match op
    case CreateOp(p) => NamesNoEmptyScope(p.tenant, p.environment)
    case ChangeOp(_, _, _, _, SetFields(u)) => NamesNoEmptyScope(u.tenant, u.environment)
    case _ => true
  }

  lemma NamedRowsHaveNoTwin(t: Table, r: Row)
    requires AllNamed(t) && IsNamed(r)
    ensures !HasActiveTwin(t, r)
  {
    forall k | 0 <= k < |t| && SameKey(t[k], r) ensures SameScope(t[k], r) {
      assert t[k] in t;
    }
  }

  /** Every row of a proposal keeps a scope that was there or takes one that the operation names. */
  lemma ProposalIsNamed(t: Table, op: Op)
    requires AllNamed(t) && WritesNamed(op) && Proposal(t, op).Some?
    ensures AllNamed(Proposal(t, op).value)
  {
    var t' := Proposal(t, op).value;
    match op
    case CreateOp(p) =>
      DeactivateKeepsNames(t, Scope(p.service, p.tenant, p.environment));
    case DeleteServiceOp(_, _, _) =>
      KeptRows(t, QueryOf(op));
    case ChangeOp(_, _, _, _, change) =>
      ChangedIsNamed(t, LookUp(t, QueryOf(op)).at, change);
  }

  lemma ChangedIsNamed(t: Table, at: nat, change: Change)
    requires AllNamed(t) && at < |t|
    requires change.SetFields? ==> NamesNoEmptyScope(change.u.tenant, change.u.environment)
    ensures AllNamed(Changed(t, at, change))
  {
    assert t[at] in t;
    match change
    case SetFields(u) =>
    case Activate => DeactivateKeepsNames(t, ScopeOf(t[at]));
    case Delete => DeletedIsNamed(t, at);
  }

  lemma DeletedIsNamed(t: Table, at: nat)
    requires AllNamed(t) && at < |t|
    ensures AllNamed(Deleted(t, at))
  {
    WithoutRow(t, at);
    var rest := Without(t, at);
    forall k | 0 <= k < |rest| ensures IsNamed(rest[k]) {
      assert t[if k < at then k else k + 1] in t;
    }
  }

  lemma DeactivateKeepsNames(t: Table, scope: Scope)
    requires AllNamed(t)
    ensures AllNamed(Deactivate(t, scope))
  {
    forall k | 0 <= k < |t| ensures IsNamed(Deactivate(t, scope)[k]) {
      assert t[k] in t;
    }
  }

  /** Operations other than an update never propose a second active version. */
  lemma OnlyUpdatesCanConflict(t: Table, op: Op)
    requires IndexesOk(t) && AllNamed(t) && WritesNamed(op) && Proposal(t, op).Some?
    requires !(op.ChangeOp? && op.change.SetFields?)
    ensures OneActive(Proposal(t, op).value)
  {
    match op
    case CreateOp(p) =>
      NamedRowsHaveNoTwin(t, NewRow(t, p));
      CreateConflicts(t, p);
    case DeleteServiceOp(_, _, _) =>
      KeptKeepsIndexes(t, QueryOf(op));
    case ChangeOp(_, _, _, _, change) =>
      var at := LookUp(t, QueryOf(op)).at;
      assert t[at] in t;
      if change.Activate? {
        NamedRowsHaveNoTwin(t, t[at]);
        ActivateConflicts(t, at);
      } else {
        DeleteNeverConflicts(t, at);
      }
  }

  /** In this run the one-active index has nothing to reject, except perhaps at an update. */
  ghost predicate IndexIdle(t: Table, ops: seq<Op>)
    decreases |ops|
  {
    ops != [] ==>
      && (Proposal(t, ops[0]).Some? && !(ops[0].ChangeOp? && ops[0].change.SetFields?) ==>
            OneActive(Proposal(t, ops[0]).value))
      && IndexIdle(After(t, ops[0]), ops[1..])
  }

  /** Over whole runs without empty-string scopes, only updates ever need the one-active index. */
  lemma {:induction false} RunsNeedTheIndexOnlyForUpdates(t: Table, ops: seq<Op>)
    requires IndexesOk(t) && AllNamed(t) && forall op :: op in ops ==> WritesNamed(op)
    ensures IndexIdle(t, ops)
    decreases |ops|
  {
    if ops != [] {
      var op := ops[0];
      assert op in ops;
      if Proposal(t, op).Some? {
        ProposalIsNamed(t, op);
        if !(op.ChangeOp? && op.change.SetFields?) { OnlyUpdatesCanConflict(t, op); }
      }
      RunsNeedTheIndexOnlyForUpdates(After(t, op), ops[1..]);
    }
  }

  /** The table after an operation if there were no one-active index. */
  function AfterWithoutIndex(t: Table, op: Op): Table {
    var proposal := Proposal(t, op);
    if proposal.Some? && UniqueVersions(proposal.value) then proposal.value else t
  }

  function RunWithoutIndex(t: Table, ops: seq<Op>): Table
    decreases |ops|
  {
    if ops == [] then t else RunWithoutIndex(AfterWithoutIndex(t, ops[0]), ops[1..])
  }

  /** Without updates and empty-string scopes, whole runs end as they would without the one-active index. */
  lemma {:induction false} RunsWithoutUpdatesNeedNoIndex(t: Table, ops: seq<Op>)
    requires IndexesOk(t) && AllNamed(t)
    requires forall op :: op in ops ==> WritesNamed(op) && !(op.ChangeOp? && op.change.SetFields?)
    ensures RunWithoutIndex(t, ops) == RunOps(t, ops) && OneActive(RunWithoutIndex(t, ops))
    decreases |ops|
  {
    if ops != [] {
      var op := ops[0];
      assert op in ops;
      if Proposal(t, op).Some? {
        ProposalIsNamed(t, op);
        OnlyUpdatesCanConflict(t, op);
      }
      RunsWithoutUpdatesNeedNoIndex(After(t, op), ops[1..]);
    }
  }

  /** An update that moves an active version onto another active one does need the index. */
  lemma UpdateCanConflict(service: string, a: string, b: string, e: Option<string>, body: string)
    requires a != b
    ensures
      var t := [Row(service, 1, true, Some(a), e, body), Row(service, 2, true, Some(b), e, body)];
      var u := Update(Some(b), None, None);
      IndexesOk(t) && !OneActive(t[0 := UpdatedRow(t[0], u)])
  {
    var t := [Row(service, 1, true, Some(a), e, body), Row(service, 2, true, Some(b), e, body)];
    assert HasActivePeer(t, 0, UpdatedRow(t[0], Update(Some(b), None, None))) by { assert t[1].active; }
    UpdateConflicts(t, 0, Update(Some(b), None, None));
  }

  /** Null beside the empty string: here even creating a version needs the index. */
  lemma CreateBesideNullCanConflict(service: string, body: string)
    ensures
      var t := [Row(service, 1, true, None, None, body)];
      IndexesOk(t) && !OneActive(Created(t, Create(service, 2, Some(true), Some(""), None, body)))
  {
    var t := [Row(service, 1, true, None, None, body)];
    var p := Create(service, 2, Some(true), Some(""), None, body);
    assert HasActiveTwin(t, NewRow(t, p)) by { assert t[0].active && SameKey(t[0], NewRow(t, p)); }
    CreateConflicts(t, p);
  }

  /** A version created without a tenant is stored, and the call raises since another tenant has that number. */
  lemma CreateCanRaiseAfterCommit(service: string, tenant: string, body: string)
    requires tenant != ""
    ensures
      var t := [Row(service, 1, false, Some(tenant), None, body)];
      var p := Create(service, 1, Some(false), None, None, body);
      && IndexesOk(t) && IndexesOk(Created(t, p)) && After(t, CreateOp(p)) == t + [NewRow(t, p)]
      && LookUp(After(t, CreateOp(p)), QueryOf(CreateOp(p))).Ambiguous?
  {
    var t := [Row(service, 1, false, Some(tenant), None, body)];
    var p := Create(service, 1, Some(false), None, None, body);
    var q, t' := QueryOf(CreateOp(p)), t + [NewRow(t, p)];
    assert Created(t, p) == t';
    LookUpDecides(t', q);
    assert Selects(q, t'[0]) && Selects(q, t'[1]);
  }

  // Deleting

  ghost predicate IsTheActiveVersion(t: Table, scope: Scope, k: int) {
    && 0 <= k < |t| && ScopeOf(t[k]) == scope && t[k].active
    && forall j :: 0 <= j < |t| && ScopeOf(t[j]) == scope ==> t[j].version <= t[k].version && (t[j].active ==> j == k)
  }

  /**
   Deleting the active version leaves its scope empty, or with exactly one active version, the one of
   the greatest number; deleting an inactive version removes its row and changes nothing else.
   */
  lemma DeletePromotesGreatest(t: Table, at: nat)
    requires IndexesOk(t) && at < |t|
    ensures
      var t' := Deleted(t, at);
      if t[at].active
      then || (forall j :: 0 <= j < |t'| ==> ScopeOf(t'[j]) != ScopeOf(t[at]))
           || exists k :: IsTheActiveVersion(t', ScopeOf(t[at]), k)
      else t' == Without(t, at)
    ensures
      forall j :: 0 <= j < |t| - 1 ==>
        var r := Without(t, at)[j];
        Deleted(t, at)[j].(active := r.active) == r && (ScopeOf(r) != ScopeOf(t[at]) ==> Deleted(t, at)[j] == r)
  {
    WithoutRow(t, at);
    var rest, t' := Without(t, at), Deleted(t, at);
    var best := Greatest(rest, t[at]);
    if t[at].active && best.Some? {
      forall j | 0 <= j < |rest| && SameScope(rest[j], t[at]) ensures !rest[j].active {
        var origin := if j < at then j else j + 1;
        assert rest[j] == t[origin] && origin != at && SameKey(t[origin], t[at]);
      }
      assert IsTheActiveVersion(t', ScopeOf(t[at]), best.value);
    }
  }
}
