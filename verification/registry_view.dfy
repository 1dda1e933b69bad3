/**
 On scopes whose tenant and environment are given, the registry table refines a map from scopes to
 their versions and their active version.
 */
module RegistryView {
  import opened Common
  import opened Registry
  import opened RegistryRuns

  /** What a caller knows of one scope. */
  datatype View = View(versions: map<int, string>, active: Option<int>)

  ghost predicate IsFull(s: Scope) {
    s.tenant.Some? && s.environment.Some? && s.tenant.value != "" && s.environment.value != ""
  }

  predicate IsAt(t: Table, s: Scope, v: int, k: int) { 0 <= k < |t| && ScopeOf(t[k]) == s && t[k].version == v }

  ghost function Versions(t: Table, s: Scope): map<int, string>
    requires UniqueVersions(t)
  {
    map r | r in t && ScopeOf(r) == s :: r.version := r.body
  }

  predicate IsActiveAt(t: Table, s: Scope, k: int) { 0 <= k < |t| && ScopeOf(t[k]) == s && t[k].active }

  ghost function Active(t: Table, s: Scope): Option<int> {
    if k :| IsActiveAt(t, s, k) then Some(t[k].version) else None
  }

  ghost function ViewOf(t: Table, s: Scope): View
    requires UniqueVersions(t)
  {
    View(Versions(t, s), Active(t, s))
  }

  lemma VersionsAt(t: Table, s: Scope)
    requires UniqueVersions(t)
    ensures forall v :: v in Versions(t, s) <==> exists k :: IsAt(t, s, v, k)
    ensures forall v, k :: IsAt(t, s, v, k) ==> v in Versions(t, s) && Versions(t, s)[v] == t[k].body
  {
    forall v, k | IsAt(t, s, v, k) ensures v in Versions(t, s) && Versions(t, s)[v] == t[k].body {
      assert t[k] in t;
    }
    forall v | v in Versions(t, s) ensures exists k :: IsAt(t, s, v, k) {
      var r :| r in t && ScopeOf(r) == s && r.version == v;
      var k :| 0 <= k < |t| && t[k] == r;
      assert IsAt(t, s, v, k);
    }
  }

  lemma ActiveAt(t: Table, s: Scope, k: int)
    requires OneActive(t) && IsActiveAt(t, s, k)
    ensures Active(t, s) == Some(t[k].version)
  {
  }

  /** A full scope shares its index key with no other scope. */
  lemma FullScopeHasItsKey(a: Row, b: Row)
    requires IsFull(ScopeOf(b)) && SameKey(a, b)
    ensures SameScope(a, b)
  {
  }

  lemma FullScopeHasNoTwin(t: Table, r: Row)
    requires IsFull(ScopeOf(r))
    ensures !HasActiveTwin(t, r)
  {
    forall k | 0 <= k < |t| && SameKey(t[k], r) ensures SameScope(t[k], r) {
      FullScopeHasItsKey(t[k], r);
    }
  }

  function FullQuery(s: Scope, v: int): Query { Query(s.service, Some(v), s.tenant, s.environment) }

  /** On a full scope "any" and "is null" do not differ: the lookup finds the scope's own row. */
  lemma FullQueryFinds(t: Table, s: Scope, v: int)
    requires UniqueVersions(t) && IsFull(s)
    ensures LookUp(t, FullQuery(s, v)).NotFound? <==> v !in Versions(t, s)
    ensures forall k: nat :: LookUp(t, FullQuery(s, v)) == Found(k) <==> IsAt(t, s, v, k)
    ensures !LookUp(t, FullQuery(s, v)).Ambiguous?
  {
    var q := FullQuery(s, v);
    FullLookUpIsExact(t, q);
    LookUpDecides(t, q);
    VersionsAt(t, s);
    forall k | 0 <= k < |t| ensures Selects(q, t[k]) <==> IsAt(t, s, v, k) {
    }
  }

  // The map operations

  ghost predicate IsTop(keys: set<int>, m: int) { m in keys && forall k :: k in keys ==> k <= m }

  lemma {:induction false} TopExists(keys: set<int>)
    requires exists k :: k in keys
    ensures exists m :: IsTop(keys, m)
    decreases keys
  {
    var x: int :| x in keys;
    var rest := keys - {x};
    if forall y :: y !in rest {
      forall k | k in keys ensures k <= x { assert k == x || k in rest; }
      assert IsTop(keys, x);
    } else {
      TopExists(rest);
      var m :| IsTop(rest, m);
      var top := if m < x then x else m;
      forall k | k in keys ensures k <= top { assert k == x || k in rest; }
      assert IsTop(keys, top);
    }
  }

  ghost function Top(keys: set<int>): Option<int> {
    if m :| IsTop(keys, m) then Some(m) else None
  }

  function Activate(view: View, v: int): View {
    if v in view.versions then view.(active := Some(v)) else view
  }

  function Create(view: View, v: int, flag: Option<bool>, body: string): View {
    if v in view.versions then view
    else
      var starts := if flag.Some? then flag.value else view.versions == map[];
      View(view.versions[v := body], if starts then Some(v) else view.active)
  }

  ghost function Delete(view: View, v: int): View {
    var rest := view.versions - {v};
    if v !in view.versions then view
    else View(rest, if view.active == Some(v) then Top(rest.Keys) else view.active)
  }

  // The refinement

  /** Tables that differ in active flags only show the same versions. */
  lemma SameVersions(t: Table, t': Table, s: Scope)
    requires UniqueVersions(t) && UniqueVersions(t') && |t| == |t'|
    requires forall k :: 0 <= k < |t| ==> t'[k].(active := t[k].active) == t[k]
    ensures Versions(t, s) == Versions(t', s)
  {
    VersionsAt(t, s);
    VersionsAt(t', s);
    forall v, k ensures IsAt(t, s, v, k) <==> IsAt(t', s, v, k) {
    }
  }

  /** A scope whose active flags agree row by row has the same active version. */
  lemma SameActive(t: Table, t': Table, s: Scope)
    requires OneActive(t) && OneActive(t') && |t| == |t'|
    requires forall k :: 0 <= k < |t| ==> ScopeOf(t'[k]) == ScopeOf(t[k]) && t'[k].version == t[k].version
    requires forall k :: 0 <= k < |t| && ScopeOf(t[k]) == s ==> t'[k].active == t[k].active
    ensures Active(t, s) == Active(t', s)
  {
    forall k ensures IsActiveAt(t, s, k) <==> IsActiveAt(t', s, k) {
    }
    if k :| IsActiveAt(t, s, k) {
      ActiveAt(t, s, k);
      ActiveAt(t', s, k);
    }
  }

  function ChangeAt(s: Scope, v: int, change: Change): Op {
    ChangeOp(s.service, v, s.tenant, s.environment, change)
  }

  /** Either the scope has no such version and nothing happens, or the change acts on its row. */
  lemma AfterChange(t: Table, s: Scope, v: int, change: Change) returns (at: nat)
    requires UniqueVersions(t) && IsFull(s)
    ensures v in Versions(t, s) ==> IsAt(t, s, v, at)
    ensures
      v in Versions(t, s) && IndexesOk(Changed(t, at, change)) ==>
        After(t, ChangeAt(s, v, change)) == Changed(t, at, change)
    ensures v !in Versions(t, s) ==> After(t, ChangeAt(s, v, change)) == t
  {
    FullQueryFinds(t, s, v);
    assert QueryOf(ChangeAt(s, v, change)) == FullQuery(s, v);
    at := 0;
    if v in Versions(t, s) { at := LookUp(t, FullQuery(s, v)).at; }
  }

  lemma ViewOfActivated(t: Table, at: nat, other: Scope)
    requires IndexesOk(t) && at < |t| && IsFull(ScopeOf(t[at]))
    ensures IndexesOk(Activated(t, at))
    ensures
      var s := ScopeOf(t[at]);
      ViewOf(Activated(t, at), other) ==
      if other == s then View(Versions(t, s), Some(t[at].version)) else ViewOf(t, other)
  {
    var t' := Activated(t, at);
    FullScopeHasNoTwin(t, t[at]);
    ActivateConflicts(t, at);
    SameVersions(t, t', other);
    if other == ScopeOf(t[at]) {
      ActiveAt(t', other, at);
    } else {
      SameActive(t, t', other);
    }
  }

  lemma ActivateRefines(t: Table, s: Scope, v: int, other: Scope)
    requires IndexesOk(t) && IsFull(s)
    ensures
      var t' := After(t, ChangeAt(s, v, Change.Activate));
      IndexesOk(t') && ViewOf(t', other) == if other == s then Activate(ViewOf(t, s), v) else ViewOf(t, other)
  {
    var at := AfterChange(t, s, v, Change.Activate);
    if v in Versions(t, s) { ViewOfActivated(t, at, other); }
  }

  lemma ViewOfDeleted(t: Table, at: nat, other: Scope)
    requires IndexesOk(t) && at < |t|
    ensures IndexesOk(Deleted(t, at))
    ensures
      var s, v := ScopeOf(t[at]), t[at].version;
      ViewOf(Deleted(t, at), other) == if other == s then Delete(ViewOf(t, s), v) else ViewOf(t, other)
  {
    var s, v, t' := ScopeOf(t[at]), t[at].version, Deleted(t, at);
    DeleteNeverConflicts(t, at);
    VersionsAfterDelete(t, at, other);
    ActiveAfterDelete(t, at, other);
    VersionsAt(t, s);
    assert IsAt(t, s, v, at);
  }

  /** Row `j` of the table after a deletion was row `Origin(at, j)` before. */
  function Origin(at: nat, j: nat): nat { if j < at then j else j + 1 }

  /** Row by row, a deletion changes at most an active flag within the scope of the deleted row. */
  lemma RowsAfterDelete(t: Table, at: nat)
    requires IndexesOk(t) && at < |t|
    ensures
      var t' := Deleted(t, at);
      && |t'| == |t| - 1
      && forall j :: 0 <= j < |t'| ==>
           var r := t[Origin(at, j)];
           t'[j].(active := r.active) == r && (ScopeOf(r) != ScopeOf(t[at]) || !t[at].active ==> t'[j] == r)
  {
    DeletePromotesGreatest(t, at);
    WithoutRow(t, at);
    forall j | 0 <= j < |t| - 1
      ensures
        var r := t[Origin(at, j)];
        Deleted(t, at)[j].(active := r.active) == r
        && (ScopeOf(r) != ScopeOf(t[at]) || !t[at].active ==> Deleted(t, at)[j] == r)
    {
      assert Without(t, at)[j] == t[Origin(at, j)];
    }
  }

  lemma VersionKeptByDelete(t: Table, at: nat, other: Scope, w: int)
    requires IndexesOk(t) && at < |t| && UniqueVersions(Deleted(t, at))
    requires w in Versions(t, other) && !(other == ScopeOf(t[at]) && w == t[at].version)
    ensures w in Versions(Deleted(t, at), other) && Versions(Deleted(t, at), other)[w] == Versions(t, other)[w]
  {
    RowsAfterDelete(t, at);
    var k := RowOfVersion(t, other, w);
    var j := if k < at then k else k - 1;
    assert Origin(at, j) == k && IsAt(Deleted(t, at), other, w, j);
    VersionOfRow(Deleted(t, at), other, w, j);
  }

  lemma VersionLeftByDelete(t: Table, at: nat, other: Scope, w: int)
    requires IndexesOk(t) && at < |t| && UniqueVersions(Deleted(t, at))
    requires w in Versions(Deleted(t, at), other)
    ensures w in Versions(t, other) && !(other == ScopeOf(t[at]) && w == t[at].version)
  {
    RowsAfterDelete(t, at);
    var j := RowOfVersion(Deleted(t, at), other, w);
    var k := Origin(at, j);
    assert k != at && IsAt(t, other, w, k);
    VersionOfRow(t, other, w, k);
    assert SameKey(t[k], t[at]) ==> t[k].version != t[at].version;
  }

  lemma VersionsAfterDelete(t: Table, at: nat, other: Scope)
    requires IndexesOk(t) && at < |t| && UniqueVersions(Deleted(t, at))
    ensures
      Versions(Deleted(t, at), other) ==
      if other == ScopeOf(t[at]) then Versions(t, other) - {t[at].version} else Versions(t, other)
  {
    var expected := if other == ScopeOf(t[at]) then Versions(t, other) - {t[at].version} else Versions(t, other);
    var actual := Versions(Deleted(t, at), other);
    forall w | w in expected ensures w in actual && actual[w] == expected[w] {
      VersionKeptByDelete(t, at, other, w);
    }
    forall w | w in actual ensures w in expected {
      VersionLeftByDelete(t, at, other, w);
    }
    SameMap(expected, actual);
  }

  lemma VersionOfRow(t: Table, s: Scope, v: int, k: int)
    requires UniqueVersions(t) && IsAt(t, s, v, k)
    ensures v in Versions(t, s) && Versions(t, s)[v] == t[k].body
  {
    VersionsAt(t, s);
  }

  lemma RowOfVersion(t: Table, s: Scope, v: int) returns (k: nat)
    requires UniqueVersions(t) && v in Versions(t, s)
    ensures IsAt(t, s, v, k) && Versions(t, s)[v] == t[k].body
  {
    VersionsAt(t, s);
    k :| IsAt(t, s, v, k);
  }

  /** Away from the deleted row's scope, or if that row was inactive, the active version stays. */
  lemma ActiveStaysAfterDelete(t: Table, at: nat, other: Scope)
    requires IndexesOk(t) && at < |t| && OneActive(Deleted(t, at))
    requires other != ScopeOf(t[at]) || !t[at].active
    ensures Active(Deleted(t, at), other) == Active(t, other)
  {
    var t' := Deleted(t, at);
    RowsAfterDelete(t, at);
    if k :| IsActiveAt(t, other, k) {
      var j := if k < at then k else k - 1;
      assert Origin(at, j) == k && IsActiveAt(t', other, j);
      ActiveAt(t, other, k);
      ActiveAt(t', other, j);
    } else {
      forall j ensures !IsActiveAt(t', other, j) {
        assert 0 <= j < |t'| ==> !IsActiveAt(t, other, Origin(at, j));
      }
    }
  }

  lemma ActiveAfterDelete(t: Table, at: nat, other: Scope)
    requires IndexesOk(t) && at < |t| && IndexesOk(Deleted(t, at))
    ensures
      var s, v := ScopeOf(t[at]), t[at].version;
      Active(Deleted(t, at), other) ==
      if other == s then Delete(ViewOf(t, s), v).active else Active(t, other)
  {
    var s, v, t' := ScopeOf(t[at]), t[at].version, Deleted(t, at);
    VersionsAt(t, s);
    assert IsAt(t, s, v, at);
    if other != s {
      ActiveStaysAfterDelete(t, at, other);
    } else if !t[at].active {
      ActiveStaysAfterDelete(t, at, other);
      if k :| IsActiveAt(t, s, k) {
        ActiveAt(t, s, k);
        assert t[k].version != v;
      }
    } else {
      ActiveAt(t, s, at);
      PromotedIsTop(t, at);
    }
  }

  lemma PromotedIsTop(t: Table, at: nat)
    requires IndexesOk(t) && at < |t| && IndexesOk(Deleted(t, at)) && t[at].active
    ensures
      var s, v := ScopeOf(t[at]), t[at].version;
      Active(Deleted(t, at), s) == Top((Versions(t, s) - {v}).Keys)
  {
    var s, t' := ScopeOf(t[at]), Deleted(t, at);
    VersionsAfterDelete(t, at, s);
    VersionsAt(t', s);
    DeletePromotesGreatest(t, at);
    if k :| IsTheActiveVersion(t', s, k) {
      ActiveAt(t', s, k);
      TheActiveIsTop(t', s, k);
    }
  }

  lemma TheActiveIsTop(t: Table, s: Scope, k: nat)
    requires UniqueVersions(t) && IsTheActiveVersion(t, s, k)
    ensures IsTop(Versions(t, s).Keys, t[k].version)
  {
    VersionsAt(t, s);
    assert IsAt(t, s, t[k].version, k);
  }

  lemma DeleteRefines(t: Table, s: Scope, v: int, other: Scope)
    requires IndexesOk(t) && IsFull(s)
    ensures
      var t' := After(t, ChangeAt(s, v, Change.Delete));
      IndexesOk(t') && ViewOf(t', other) == if other == s then Delete(ViewOf(t, s), v) else ViewOf(t, other)
  {
    var at := AfterChange(t, s, v, Change.Delete);
    if v in Versions(t, s) { ViewOfDeleted(t, at, other); }
  }

  function CreateAt(s: Scope, v: int, flag: Option<bool>, body: string): Op {
    CreateOp(Registry.Create(s.service, v, flag, s.tenant, s.environment, body))
  }

  /** On a full scope a version starts active by default exactly when the scope is empty. */
  lemma DefaultStart(t: Table, s: Scope, p: Registry.Create)
    requires UniqueVersions(t) && IsFull(s) && Scope(p.service, p.tenant, p.environment) == s
    ensures StartsActive(t, p) == if p.active.Some? then p.active.value else Versions(t, s) == map[]
  {
    var q := Query(p.service, None, p.tenant, p.environment);
    FetchFindsFirst(t, q, 1, 0);
    var found := Fetch(t, q, 1, 0);
    if v :| v in Versions(t, s) {
      var k := RowOfVersion(t, s, v);
      assert Selects(q, t[k]) && found != [];
    } else {
      assert Versions(t, s) == map[];
    }
    if found != [] {
      VersionOfRow(t, s, t[found[0]].version, found[0]);
    }
  }

  lemma RowsAfterCreate(t: Table, p: Registry.Create)
    ensures
      var t' := Created(t, p);
      && |t'| == |t| + 1 && t'[|t|] == NewRow(t, p)
      && forall k :: 0 <= k < |t| ==> t'[k].(active := t[k].active) == t[k]
  {
  }

  lemma VersionKeptByCreate(t: Table, p: Registry.Create, other: Scope, w: int)
    requires UniqueVersions(t) && UniqueVersions(Created(t, p)) && w in Versions(t, other)
    ensures w in Versions(Created(t, p), other) && Versions(Created(t, p), other)[w] == Versions(t, other)[w]
    ensures !(other == ScopeOf(NewRow(t, p)) && w == p.version)
  {
    var t' := Created(t, p);
    RowsAfterCreate(t, p);
    var k := RowOfVersion(t, other, w);
    VersionOfRow(t', other, w, k);
    assert SameKey(t'[k], t'[|t|]) ==> t'[k].version != t'[|t|].version;
  }

  lemma VersionLeftByCreate(t: Table, p: Registry.Create, other: Scope, w: int)
    requires UniqueVersions(t) && UniqueVersions(Created(t, p)) && w in Versions(Created(t, p), other)
    ensures w in Versions(t, other) || (other == ScopeOf(NewRow(t, p)) && w == p.version)
  {
    RowsAfterCreate(t, p);
    var k := RowOfVersion(Created(t, p), other, w);
    if k < |t| { VersionOfRow(t, other, w, k); }
  }

  lemma VersionsAfterCreate(t: Table, p: Registry.Create, other: Scope)
    requires UniqueVersions(t) && UniqueVersions(Created(t, p))
    ensures
      Versions(Created(t, p), other) ==
      if other == ScopeOf(NewRow(t, p)) then Versions(t, other)[p.version := p.body] else Versions(t, other)
  {
    var actual := Versions(Created(t, p), other);
    var expected :=
      if other == ScopeOf(NewRow(t, p)) then Versions(t, other)[p.version := p.body] else Versions(t, other);
    RowsAfterCreate(t, p);
    if other == ScopeOf(NewRow(t, p)) { VersionOfRow(Created(t, p), other, p.version, |t|); }
    forall w | w in Versions(t, other) ensures w in actual && actual[w] == Versions(t, other)[w] == expected[w] {
      VersionKeptByCreate(t, p, other, w);
    }
    forall w | w in actual ensures w in expected {
      VersionLeftByCreate(t, p, other, w);
    }
  }

  lemma ActiveAfterCreate(t: Table, p: Registry.Create, other: Scope)
    requires IndexesOk(t) && IndexesOk(Created(t, p))
    ensures
      Active(Created(t, p), other) ==
      if other == ScopeOf(NewRow(t, p)) && StartsActive(t, p) then Some(p.version) else Active(t, other)
  {
    var t', n := Created(t, p), |t|;
    assert t'[n] == NewRow(t, p) && forall k :: 0 <= k < n ==> t'[k].(active := t[k].active) == t[k];
    if other == ScopeOf(NewRow(t, p)) && StartsActive(t, p) {
      ActiveAt(t', other, n);
    } else {
      forall k | 0 <= k < n && ScopeOf(t[k]) == other ensures t'[k] == t[k] {
      }
      forall k ensures IsActiveAt(t', other, k) <==> IsActiveAt(t, other, k) {
      }
      if k :| IsActiveAt(t, other, k) {
        ActiveAt(t, other, k);
        ActiveAt(t', other, k);
      }
    }
  }

  lemma CreateRefines(t: Table, s: Scope, v: int, flag: Option<bool>, body: string, other: Scope)
    requires IndexesOk(t) && IsFull(s)
    ensures
      var t' := After(t, CreateAt(s, v, flag, body));
      IndexesOk(t') && ViewOf(t', other) == if other == s then Create(ViewOf(t, s), v, flag, body) else ViewOf(t, other)
  {
    var p := Registry.Create(s.service, v, flag, s.tenant, s.environment, body);
    var r := NewRow(t, p);
    assert ScopeOf(r) == s;
    CreateConflicts(t, p);
    FullScopeHasNoTwin(t, r);
    DefaultStart(t, s, p);
    if v in Versions(t, s) {
      TakenVersionHasPeer(t, r);
    } else {
      NewVersionHasNoPeer(t, r);
      VersionsAfterCreate(t, p, other);
      ActiveAfterCreate(t, p, other);
    }
  }

  lemma TakenVersionHasPeer(t: Table, r: Row)
    requires UniqueVersions(t) && r.version in Versions(t, ScopeOf(r))
    ensures HasVersionPeer(t, |t|, r)
  {
    var k := RowOfVersion(t, ScopeOf(r), r.version);
    assert t[k].version == r.version && SameKey(t[k], r);
  }

  lemma NewVersionHasNoPeer(t: Table, r: Row)
    requires UniqueVersions(t) && IsFull(ScopeOf(r)) && r.version !in Versions(t, ScopeOf(r))
    ensures !HasVersionPeer(t, |t|, r)
  {
    if HasVersionPeer(t, |t|, r) {
      var k :| 0 <= k < |t| && k != |t| && t[k].version == r.version && SameKey(t[k], r);
      FullScopeHasItsKey(t[k], r);
      VersionOfRow(t, ScopeOf(r), r.version, k);
    }
  }

  // Runs of activations

  datatype Activation = Activation(scope: Scope, version: int)

  function Activations(acts: seq<Activation>): seq<Op> {
    if acts == [] then [] else [ChangeAt(acts[0].scope, acts[0].version, Change.Activate)] + Activations(acts[1..])
  }

  /** The last activation of an existing version of the scope, or else what was active before. */
  ghost function LastActivated(view: View, s: Scope, acts: seq<Activation>): Option<int> {
    if acts == [] then view.active
    else
      var last := acts[|acts| - 1];
      if last.scope == s && last.version in view.versions then Some(last.version)
      else LastActivated(view, s, acts[..|acts| - 1])
  }

  lemma {:induction false} LastActivatedFromFront(view: View, s: Scope, acts: seq<Activation>)
    requires acts != []
    ensures
      var first := if acts[0].scope == s then Activate(view, acts[0].version) else view;
      LastActivated(view, s, acts) == LastActivated(first, s, acts[1..])
  {
    if |acts| > 1 {
      var n := |acts| - 1;
      LastActivatedFromFront(view, s, acts[..n]);
      assert acts[..n][1..] == acts[1..][..n - 1];
    } else {
      assert acts[..0] == [] && acts[1..] == [];
    }
  }

  /** After any run of activations the active version of each scope is the last one activated in it. */
  lemma {:induction false} LastActivationWins(t: Table, acts: seq<Activation>, s: Scope)
    requires IndexesOk(t) && forall a :: a in acts ==> IsFull(a.scope)
    ensures
      var t' := RunOps(t, Activations(acts));
      && IndexesOk(t')
      && ViewOf(t', s) == View(Versions(t, s), LastActivated(ViewOf(t, s), s, acts))
    decreases |acts|
  {
    if acts != [] {
      var a := acts[0];
      assert a in acts;
      ActivateRefines(t, a.scope, a.version, s);
      var t1 := After(t, ChangeAt(a.scope, a.version, Change.Activate));
      assert Activations(acts)[1..] == Activations(acts[1..]);
      LastActivationWins(t1, acts[1..], s);
      LastActivatedFromFront(ViewOf(t, s), s, acts);
    }
  }
}
