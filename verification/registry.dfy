/**
 The registry of service versions: one table, two unique indexes, and operations that look rows up
 with optional scopes. An absent tenant or environment means "any" when rows are looked up, and
 "is null" when a scope's active version is replaced.
 */
module Registry {
  import opened Common

  datatype Row = Row(
    service: string, version: int, active: bool, tenant: Option<string>, environment: Option<string>, body: string)

  /** The rows in the order a scan happens to yield them. */
  type Table = seq<Row>

  // The two readings of a scope

  /** What a query selects: `None` places no condition. */
  datatype Query = Query(service: string, version: Option<int>, tenant: Option<string>, environment: Option<string>)

  predicate Selects(q: Query, r: Row) {
    && r.service == q.service
    && (q.version.Some? ==> r.version == q.version.value)
    && (q.tenant.Some? ==> r.tenant == q.tenant)
    && (q.environment.Some? ==> r.environment == q.environment)
  }

  /** A service with one tenant and environment, in which `None` is null. */
  datatype Scope = Scope(service: string, tenant: Option<string>, environment: Option<string>)

  function ScopeOf(r: Row): Scope { Scope(r.service, r.tenant, r.environment) }

  predicate SameScope(a: Row, b: Row) { ScopeOf(a) == ScopeOf(b) }

  // The unique indexes

  function Coalesce(o: Option<string>): string { if o.Some? then o.value else "" }

  /** The key both indexes share, in which null and the empty string coincide. */
  predicate SameKey(a: Row, b: Row) {
    && a.service == b.service
    && Coalesce(a.tenant) == Coalesce(b.tenant) && Coalesce(a.environment) == Coalesce(b.environment)
  }

  predicate OneActive(t: Table) {
    forall i, j :: 0 <= i < j < |t| ==> !(t[i].active && t[j].active && SameKey(t[i], t[j]))
  }

  predicate UniqueVersions(t: Table) {
    forall i, j :: 0 <= i < j < |t| ==> !(t[i].version == t[j].version && SameKey(t[i], t[j]))
  }

  predicate IndexesOk(t: Table) { OneActive(t) && UniqueVersions(t) }

  // Looking one row up

  /** The positions of the first `limit` rows that the query selects, from position `from` on. */
  function Fetch(t: Table, q: Query, limit: nat, from: nat): (found: seq<nat>)
    requires from <= |t|
    ensures |found| <= limit && forall k :: k in found ==> from <= k < |t|
    decreases |t| - from
  {
    if limit == 0 || from == |t| then []
    else if Selects(q, t[from]) then [from] + Fetch(t, q, limit - 1, from + 1)
    else Fetch(t, q, limit, from + 1)
  }

  datatype Lookup = NotFound | Found(at: nat) | Ambiguous

  /** Fetches at most two rows and decides. */
  function LookUp(t: Table, q: Query): (r: Lookup)
    ensures r.Found? ==> r.at < |t|
  {
    var found := Fetch(t, q, 2, 0);
    if found == [] then NotFound
    else if |found| > 1 then Ambiguous
    else assert found[0] in found; Found(found[0])
  }

  lemma {:induction false} FetchFindsFirst(t: Table, q: Query, limit: nat, from: nat)
    requires from <= |t|
    ensures
      var found := Fetch(t, q, limit, from);
      && (forall k :: 0 <= k < |found| ==> from <= found[k] < |t| && Selects(q, t[found[k]]))
      && (forall k, l :: 0 <= k < l < |found| ==> found[k] < found[l])
      && (|found| < limit ==> forall i :: from <= i < |t| && Selects(q, t[i]) ==> i in found)
    decreases |t| - from
  {
    if limit == 0 || from == |t| {
    } else if Selects(q, t[from]) {
      FetchFindsFirst(t, q, limit - 1, from + 1);
    } else {
      FetchFindsFirst(t, q, limit, from + 1);
    }
  }

  /** Two rows are enough: the answer is that of the whole table. */
  lemma LookUpDecides(t: Table, q: Query)
    ensures LookUp(t, q).NotFound? <==> forall i :: 0 <= i < |t| ==> !Selects(q, t[i])
    ensures LookUp(t, q).Ambiguous? <==> exists i, j :: 0 <= i < j < |t| && Selects(q, t[i]) && Selects(q, t[j])
    ensures
      forall at: nat :: LookUp(t, q) == Found(at) <==>
                        at < |t| && Selects(q, t[at]) && forall j :: 0 <= j < |t| && Selects(q, t[j]) ==> j == at
  {
    FetchFindsFirst(t, q, 2, 0);
    var found := Fetch(t, q, 2, 0);
    if |found| == 2 {
      assert Selects(q, t[found[0]]) && Selects(q, t[found[1]]) && found[0] < found[1];
    }
  }

  /** With version, tenant and environment given, the lookup is never ambiguous. */
  lemma FullLookUpIsExact(t: Table, q: Query)
    requires UniqueVersions(t) && q.version.Some? && q.tenant.Some? && q.environment.Some?
    ensures !LookUp(t, q).Ambiguous?
    ensures forall i :: 0 <= i < |t| && Selects(q, t[i]) ==> LookUp(t, q) == Found(i)
  {
    LookUpDecides(t, q);
  }

  // What the operations propose to commit

  function Deactivate(t: Table, scope: Scope): (r: Table)
    ensures |r| == |t|
    ensures forall k :: 0 <= k < |t| ==> r[k] == if ScopeOf(t[k]) == scope then t[k].(active := false) else t[k]
  {
    if t == [] then []
    else
      [if ScopeOf(t[0]) == scope then t[0].(active := false) else t[0]] + Deactivate(t[1..], scope)
  }

  datatype Create = Create(
    service: string, version: int, active: Option<bool>, tenant: Option<string>, environment: Option<string>, body: string)

  /** Without an explicit flag a version is active if the lookup finds no version at all. */
  function StartsActive(t: Table, p: Create): bool {
    if p.active.Some? then p.active.value
    else Fetch(t, Query(p.service, None, p.tenant, p.environment), 1, 0) == []
  }

  function NewRow(t: Table, p: Create): Row {
    Row(p.service, p.version, StartsActive(t, p), p.tenant, p.environment, p.body)
  }

  function Created(t: Table, p: Create): Table {
    (if StartsActive(t, p) then Deactivate(t, Scope(p.service, p.tenant, p.environment)) else t) + [NewRow(t, p)]
  }

  function Activated(t: Table, at: nat): Table
    requires at < |t|
  {
    Deactivate(t, ScopeOf(t[at]))[at := t[at].(active := true)]
  }

  /** The fields of an update; `None` leaves a field alone. */
  datatype Update = Update(tenant: Option<string>, environment: Option<string>, body: Option<string>)

  function UpdatedRow(r: Row, u: Update): Row {
    r.(tenant := if u.tenant.Some? then u.tenant else r.tenant,
       environment := if u.environment.Some? then u.environment else r.environment,
       body := if u.body.Some? then u.body.value else r.body)
  }

  function Without(t: Table, at: nat): Table
    requires at < |t|
  {
    t[..at] + t[at + 1..]
  }

  /** The position of a row of greatest version among those in the scope of `r`. */
  function Greatest(t: Table, r: Row): (best: Option<nat>)
    ensures best.Some? ==> best.value < |t| && SameScope(t[best.value], r)
    ensures best.None? ==> forall k :: 0 <= k < |t| ==> !SameScope(t[k], r)
    ensures best.Some? ==> forall k :: 0 <= k < |t| && SameScope(t[k], r) ==> t[k].version <= t[best.value].version
  {
    if t == [] then None
    else
      var n := |t| - 1;
      var best := Greatest(t[..n], r);
      if SameScope(t[n], r) && (best.None? || t[n].version > t[best.value].version) then Some(n) else best
  }

  function Deleted(t: Table, at: nat): Table
    requires at < |t|
  {
    var rest := Without(t, at);
    var best := Greatest(rest, t[at]);
    if t[at].active && best.Some? then rest[best.value := rest[best.value].(active := true)] else rest
  }

  function Kept(t: Table, q: Query): (kept: Table)
    ensures |kept| <= |t|
  {
    if t == [] then [] else (if Selects(q, t[0]) then [] else [t[0]]) + Kept(t[1..], q)
  }

  // Which proposals the one-active index could reject

  /** An active row that shares the index key of `r` without being in its scope: null beside empty string. */
  ghost predicate HasActiveTwin(t: Table, r: Row) {
    exists k :: 0 <= k < |t| && t[k].active && SameKey(t[k], r) && !SameScope(t[k], r)
  }

  ghost predicate HasActivePeer(t: Table, at: nat, r: Row) {
    exists k :: 0 <= k < |t| && k != at && t[k].active && SameKey(t[k], r)
  }

  ghost predicate HasVersionPeer(t: Table, at: nat, r: Row) {
    exists k :: 0 <= k < |t| && k != at && t[k].version == r.version && SameKey(t[k], r)
  }

  lemma DeactivatedAt(t: Table, scope: Scope, k: nat)
    requires k < |t| && Deactivate(t, scope)[k].active
    ensures t[k] == Deactivate(t, scope)[k] && ScopeOf(t[k]) != scope
  {
  }

  lemma DeactivateKeepsIndexes(t: Table, scope: Scope)
    requires IndexesOk(t)
    ensures IndexesOk(Deactivate(t, scope))
  {
    var t' := Deactivate(t, scope);
    assert |t'| == |t| && forall k :: 0 <= k < |t| ==>
      t'[k].(active := t[k].active) == t[k] && (t'[k].active ==> t[k].active);
  }

  lemma IndexesAfterAppend(t: Table, r: Row)
    requires IndexesOk(t)
    ensures OneActive(t + [r]) <==> !(r.active && HasActivePeer(t, |t|, r))
    ensures UniqueVersions(t + [r]) <==> !HasVersionPeer(t, |t|, r)
  {
    var t' := t + [r];
    assert t'[|t|] == r && forall k :: 0 <= k < |t| ==> t'[k] == t[k];
    if r.active && HasActivePeer(t, |t|, r) {
      var k :| 0 <= k < |t| && k != |t| && t[k].active && SameKey(t[k], r);
      assert t'[k].active && SameKey(t'[k], t'[|t|]);
    }
    if HasVersionPeer(t, |t|, r) {
      var k :| 0 <= k < |t| && k != |t| && t[k].version == r.version && SameKey(t[k], r);
      assert t'[k].version == t'[|t|].version && SameKey(t'[k], t'[|t|]);
    }
  }

  lemma IndexesAfterSet(t: Table, at: nat, r: Row)
    requires IndexesOk(t) && at < |t|
    ensures OneActive(t[at := r]) <==> !(r.active && HasActivePeer(t, at, r))
    ensures UniqueVersions(t[at := r]) <==> !HasVersionPeer(t, at, r)
  {
    var t' := t[at := r];
    if r.active && HasActivePeer(t, at, r) {
      var k :| 0 <= k < |t| && k != at && t[k].active && SameKey(t[k], r);
      var i, j := if k < at then k else at, if k < at then at else k;
      assert t'[i].active && t'[j].active && SameKey(t'[i], t'[j]);
    }
    if HasVersionPeer(t, at, r) {
      var k :| 0 <= k < |t| && k != at && t[k].version == r.version && SameKey(t[k], r);
      var i, j := if k < at then k else at, if k < at then at else k;
      assert t'[i].version == t'[j].version && SameKey(t'[i], t'[j]);
    }
  }

  /** After the scope of `r` is deactivated, only its twins are left active under its key. */
  lemma PeersAfterDeactivate(t: Table, at: nat, r: Row)
    requires at < |t| ==> SameScope(t[at], r)
    ensures
      HasActivePeer(Deactivate(t, ScopeOf(r)), at, r) <==> HasActiveTwin(t, r)
  {
    var base := Deactivate(t, ScopeOf(r));
    if HasActiveTwin(t, r) {
      var k :| 0 <= k < |t| && t[k].active && SameKey(t[k], r) && !SameScope(t[k], r);
      assert base[k] == t[k] && k != at;
    }
    if HasActivePeer(base, at, r) {
      var k :| 0 <= k < |base| && k != at && base[k].active && SameKey(base[k], r);
      DeactivatedAt(t, ScopeOf(r), k);
    }
  }

  lemma VersionsAfterDeactivate(t: Table, at: nat, r: Row)
    ensures HasVersionPeer(Deactivate(t, ScopeOf(r)), at, r) <==> HasVersionPeer(t, at, r)
  {
    var base := Deactivate(t, ScopeOf(r));
    forall k | 0 <= k < |t|
      ensures base[k].version == t[k].version && (SameKey(base[k], r) <==> SameKey(t[k], r))
    {
    }
  }

  /** Creating conflicts exactly when an active version lands beside an active twin, or repeats a version. */
  lemma CreateConflicts(t: Table, p: Create)
    requires IndexesOk(t)
    ensures OneActive(Created(t, p)) <==> !(StartsActive(t, p) && HasActiveTwin(t, NewRow(t, p)))
    ensures UniqueVersions(Created(t, p)) <==> !HasVersionPeer(t, |t|, NewRow(t, p))
  {
    var r := NewRow(t, p);
    DeactivateKeepsIndexes(t, ScopeOf(r));
    PeersAfterDeactivate(t, |t|, r);
    VersionsAfterDeactivate(t, |t|, r);
    IndexesAfterAppend(if StartsActive(t, p) then Deactivate(t, Scope(p.service, p.tenant, p.environment)) else t, r);
  }

  /** Activating conflicts exactly when the row has an active twin; versions never conflict. */
  lemma ActivateConflicts(t: Table, at: nat)
    requires IndexesOk(t) && at < |t|
    ensures OneActive(Activated(t, at)) <==> !HasActiveTwin(t, t[at])
    ensures UniqueVersions(Activated(t, at))
  {
    var r := t[at].(active := true);
    DeactivateKeepsIndexes(t, ScopeOf(r));
    PeersAfterDeactivate(t, at, r);
    VersionsAfterDeactivate(t, at, r);
    IndexesAfterSet(Deactivate(t, ScopeOf(r)), at, r);
    TwinIgnoresFlag(t, t[at]);
  }

  lemma TwinIgnoresFlag(t: Table, r: Row)
    ensures HasActiveTwin(t, r.(active := true)) <==> HasActiveTwin(t, r)
  {
    forall k | 0 <= k < |t|
      ensures SameKey(t[k], r.(active := true)) <==> SameKey(t[k], r)
      ensures SameScope(t[k], r.(active := true)) <==> SameScope(t[k], r)
    {
    }
  }

  /** Updating conflicts exactly when it moves an active row onto another one, or a row onto its version. */
  lemma UpdateConflicts(t: Table, at: nat, u: Update)
    requires IndexesOk(t) && at < |t|
    ensures
      var r := UpdatedRow(t[at], u);
      && (OneActive(t[at := r]) <==> !(r.active && HasActivePeer(t, at, r)))
      && (UniqueVersions(t[at := r]) <==> !HasVersionPeer(t, at, r))
      && (SameKey(r, t[at]) ==> IndexesOk(t[at := r]))
  {
    IndexesAfterSet(t, at, UpdatedRow(t[at], u));
  }

  lemma WithoutRow(t: Table, at: nat)
    requires at < |t|
    ensures forall k :: 0 <= k < |t| - 1 ==> Without(t, at)[k] == if k < at then t[k] else t[k + 1]
  {
    var rest := Without(t, at);
    forall k | 0 <= k < |t| - 1 ensures rest[k] == if k < at then t[k] else t[k + 1] {
      assert rest[k] == if k < at then t[..at][k] else t[at + 1..][k - at];
    }
  }

  /** Deleting never conflicts: the replacement takes over in the deleted row's own scope. */
  lemma DeleteNeverConflicts(t: Table, at: nat)
    requires IndexesOk(t) && at < |t|
    ensures IndexesOk(Deleted(t, at))
  {
    WithoutRow(t, at);
    var rest := Without(t, at);
    assert IndexesOk(rest);
    var best := Greatest(rest, t[at]);
    if t[at].active && best.Some? {
      forall k | 0 <= k < |rest| && SameKey(rest[k], rest[best.value]) ensures !rest[k].active {
        var origin := if k < at then k else k + 1;
        assert rest[k] == t[origin] && origin != at;
        assert SameKey(t[origin], t[at]);
      }
    }
  }

  /** Exactly the rows that are not selected are kept. */
  lemma {:induction false} KeptRows(t: Table, q: Query)
    ensures forall r :: r in Kept(t, q) <==> r in t && !Selects(q, r)
  {
    if t != [] {
      KeptRows(t[1..], q);
      assert t == [t[0]] + t[1..];
    }
  }

  lemma {:induction false} KeptKeepsIndexes(t: Table, q: Query)
    requires IndexesOk(t)
    ensures IndexesOk(Kept(t, q))
  {
    if t != [] {
      TailKeepsIndexes(t);
      KeptRows(t[1..], q);
      KeptKeepsIndexes(t[1..], q);
      assert t == [t[0]] + t[1..];
      if !Selects(q, t[0]) {
        var rest := Kept(t[1..], q);
        forall j | 0 <= j < |rest| ensures !Clash(t[0], rest[j]) {
          assert rest[j] in t[1..];
        }
        FrontKeepsIndexes(t[0], rest);
      } else {
        assert Kept(t, q) == Kept(t[1..], q);
      }
    }
  }

  /** Two rows that one of the indexes does not let stand together. */
  predicate Clash(a: Row, b: Row) { SameKey(a, b) && ((a.active && b.active) || a.version == b.version) }

  lemma TailKeepsIndexes(t: Table)
    requires IndexesOk(t) && t != []
    ensures IndexesOk(t[1..]) && forall r :: r in t[1..] ==> !Clash(t[0], r)
  {
    forall i | 0 <= i < |t[1..]| ensures t[1..][i] == t[i + 1] && !Clash(t[0], t[i + 1]) {
    }
  }

  lemma FrontKeepsIndexes(r: Row, rest: Table)
    requires IndexesOk(rest) && forall j :: 0 <= j < |rest| ==> !Clash(r, rest[j])
    ensures IndexesOk([r] + rest)
  {
    var t := [r] + rest;
    forall i | 1 <= i < |t| ensures t[i] == rest[i - 1] {
    }
  }

  // The operations

  datatype Error = AmbiguousVersion | IntegrityError

  /** What an operation does to the one version it looks up. */
  datatype Change = SetFields(u: Update) | Activate | Delete

  datatype Op =
    | CreateOp(p: Create)
    | ChangeOp(service: string, version: int, tenant: Option<string>, environment: Option<string>, change: Change)
    | DeleteServiceOp(service: string, tenant: Option<string>, environment: Option<string>)

  datatype Reply = Versions(row: Option<Row>) | WasDeleted(yes: bool) | DeletedCount(n: nat) | Raised(error: Error)

  function QueryOf(op: Op): Query {
    match op
    case CreateOp(p) => Query(p.service, Some(p.version), p.tenant, p.environment)
    case ChangeOp(service, version, tenant, environment, _) => Query(service, Some(version), tenant, environment)
    case DeleteServiceOp(service, tenant, environment) => Query(service, None, tenant, environment)
  }

  function Changed(t: Table, at: nat, change: Change): Table
    requires at < |t|
  {
    match change
    case SetFields(u) => t[at := UpdatedRow(t[at], u)]
    case Activate => Activated(t, at)
    case Delete => Deleted(t, at)
  }

  /** The table an operation asks to commit, if its lookup lets it get that far. */
  function Proposal(t: Table, op: Op): Option<Table> {
    match op
    case CreateOp(p) => Some(Created(t, p))
    case DeleteServiceOp(_, _, _) => Some(Kept(t, QueryOf(op)))
    case ChangeOp(_, _, _, _, change) =>
      match LookUp(t, QueryOf(op))
      case Found(at) => Some(Changed(t, at, change))
      case _ => None
  }

  /** The table after the operation: the indexes reject a bad proposal as a whole. */
  function After(t: Table, op: Op): Table {
    var proposal := Proposal(t, op);
    if proposal.Some? && IndexesOk(proposal.value) then proposal.value else t
  }

  /** What the caller of an operation on one version gets. */
  function ReplyTo(t: Table, op: Op): Reply
    requires op.ChangeOp?
  {
    match LookUp(t, QueryOf(op))
    case NotFound => if op.change.Delete? then WasDeleted(false) else Versions(None)
    case Ambiguous => Raised(AmbiguousVersion)
    case Found(at) =>
      if !IndexesOk(Changed(t, at, op.change)) then Raised(IntegrityError)
      else
        match op.change
        case SetFields(u) => Versions(Some(UpdatedRow(t[at], u)))
        case Activate => Versions(Some(t[at].(active := true)))
        case Delete => WasDeleted(true)
  }
}
