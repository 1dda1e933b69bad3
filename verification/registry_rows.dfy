/** The registry's operations in terms of the columns of the rows. */
module RegistryRows {
  import opened Common
  import opened Registry

  /** The row has this service, and what else is given; whatever is not given may be anything. */
  predicate IsNamedBy(
    r: Row, service: string, version: Option<int>, tenant: Option<string>, environment: Option<string>)
  {
    && r.service == service && (version == None || version == Some(r.version))
    && (tenant == None || tenant == r.tenant) && (environment == None || environment == r.environment)
  }

  lemma SelectsByColumns(
    r: Row, service: string, version: Option<int>, tenant: Option<string>, environment: Option<string>)
    ensures
      Selects(Query(service, version, tenant, environment), r) <==>
      IsNamedBy(r, service, version, tenant, environment)
  {
  }

  // Operations on one version

  /** Row `k` alone has the given service, version and scope. */
  ghost predicate IsTheOne(
    t: Table, service: string, version: int, tenant: Option<string>, environment: Option<string>, k: int)
  {
    && 0 <= k < |t| && IsNamedBy(t[k], service, Some(version), tenant, environment)
    && forall j :: 0 <= j < |t| && IsNamedBy(t[j], service, Some(version), tenant, environment) ==> j == k
  }

  ghost predicate AreSeveral(
    t: Table, service: string, version: int, tenant: Option<string>, environment: Option<string>)
  {
    exists i, j :: 0 <= i < j < |t| && IsNamedBy(t[i], service, Some(version), tenant, environment)
                   && IsNamedBy(t[j], service, Some(version), tenant, environment)
  }

  ghost predicate IsNone(
    t: Table, service: string, version: int, tenant: Option<string>, environment: Option<string>)
  {
    forall k :: 0 <= k < |t| ==> !IsNamedBy(t[k], service, Some(version), tenant, environment)
  }

  lemma LookUpByColumns(
    t: Table, service: string, version: int, tenant: Option<string>, environment: Option<string>)
    ensures
      var found := LookUp(t, Query(service, Some(version), tenant, environment));
      && (found.NotFound? <==> IsNone(t, service, version, tenant, environment))
      && (found.Ambiguous? <==> AreSeveral(t, service, version, tenant, environment))
      && (forall k: nat :: found == Found(k) <==> IsTheOne(t, service, version, tenant, environment, k))
  {
    var q := Query(service, Some(version), tenant, environment);
    forall r ensures Selects(q, r) <==> IsNamedBy(r, service, Some(version), tenant, environment) {
      SelectsByColumns(r, service, Some(version), tenant, environment);
    }
    LookUpDecides(t, q);
  }

  /** An operation reaches exactly the one row that fits, raises if several do, and else reports that there is none. */
  lemma OperationReachesTheOne(
    t: Table, service: string, version: int, tenant: Option<string>, environment: Option<string>, change: Change)
    ensures
      var op := ChangeOp(service, version, tenant, environment, change);
      && (forall k: nat :: IsTheOne(t, service, version, tenant, environment, k) ==>
            && Proposal(t, op) == Some(Changed(t, k, change))
            && (IndexesOk(Changed(t, k, change)) ==> After(t, op) == Changed(t, k, change)))
      && (ReplyTo(t, op) == Raised(AmbiguousVersion) <==> AreSeveral(t, service, version, tenant, environment))
      && (AreSeveral(t, service, version, tenant, environment) ==> After(t, op) == t)
      && (IsNone(t, service, version, tenant, environment) ==>
            && After(t, op) == t
            && ReplyTo(t, op) == if change.Delete? then WasDeleted(false) else Versions(None))
  {
    LookUpByColumns(t, service, version, tenant, environment);
  }

  /** Without an environment, the row may have any: it is reached if no other environment has that version. */
  lemma AnyEnvironmentIsReached(t: Table, k: nat, change: Change)
    requires k < |t|
    requires
      forall j :: 0 <= j < |t| && j != k ==>
        t[j].service != t[k].service || t[j].version != t[k].version || t[j].tenant != t[k].tenant
    requires t[k].tenant.Some?
    ensures
      Proposal(t, ChangeOp(t[k].service, t[k].version, t[k].tenant, None, change)) == Some(Changed(t, k, change))
  {
    OperationReachesTheOne(t, t[k].service, t[k].version, t[k].tenant, None, change);
    assert IsTheOne(t, t[k].service, t[k].version, t[k].tenant, None, k);
  }

  /** Activating sets the row's flag, clears it in the rest of exactly its scope, and changes nothing else. */
  lemma ActivatedByColumns(t: Table, k: nat)
    requires k < |t|
    ensures |Changed(t, k, Change.Activate)| == |t|
    ensures
      forall j :: 0 <= j < |t| ==>
        var r := Changed(t, k, Change.Activate)[j];
        && r.(active := t[j].active) == t[j]
        && r.active == (j == k || (t[j].active && !(t[j].service == t[k].service && t[j].tenant == t[k].tenant
                                                    && t[j].environment == t[k].environment)))
  {
  }

  /** An update stores what it gives, column by column, and leaves the rest and all other rows alone. */
  lemma UpdatedByColumns(t: Table, k: nat, u: Update)
    requires k < |t|
    ensures
      var r := Changed(t, k, SetFields(u))[k];
      && r.service == t[k].service && r.version == t[k].version && r.active == t[k].active
      && (match u.body case Some(body) => r.body == body case None => r.body == t[k].body)
      && (match u.tenant case Some(tenant) => r.tenant == Some(tenant) case None => r.tenant == t[k].tenant)
      && (match u.environment
          case Some(environment) => r.environment == Some(environment)
          case None => r.environment == t[k].environment)
    ensures |Changed(t, k, SetFields(u))| == |t|
    ensures forall j :: 0 <= j < |t| && j != k ==> Changed(t, k, SetFields(u))[j] == t[j]
  {
  }

  // Deleting a service

  /** The rows left are those of other services, and of other tenants or environments than those given. */
  lemma DeleteServiceByColumns(t: Table, service: string, tenant: Option<string>, environment: Option<string>)
    requires IndexesOk(t)
    ensures
      forall r :: r in After(t, DeleteServiceOp(service, tenant, environment)) <==>
        r in t && (r.service != service || (tenant != None && tenant != r.tenant)
                   || (environment != None && environment != r.environment))
    ensures forall r :: r in After(t, DeleteServiceOp(service, None, None)) <==> r in t && r.service != service
  {
    ServiceRows(t, service, tenant, environment);
    ServiceRows(t, service, None, None);
  }

  lemma ServiceRows(t: Table, service: string, tenant: Option<string>, environment: Option<string>)
    requires IndexesOk(t)
    ensures
      forall r :: r in After(t, DeleteServiceOp(service, tenant, environment)) <==>
        r in t && !IsNamedBy(r, service, None, tenant, environment)
  {
    var q := Query(service, None, tenant, environment);
    forall r ensures Selects(q, r) <==> IsNamedBy(r, service, None, tenant, environment) {
      SelectsByColumns(r, service, None, tenant, environment);
    }
    KeptKeepsIndexes(t, q);
    KeptRows(t, q);
  }

  // Creating

  /** Without a flag, a version starts active if no row has its service and what is given of its scope. */
  lemma DefaultByColumns(t: Table, p: Create)
    ensures
      StartsActive(t, p) <==>
      if p.active.Some? then p.active.value
      else forall k :: 0 <= k < |t| ==> !IsNamedBy(t[k], p.service, None, p.tenant, p.environment)
  {
    var q := Query(p.service, None, p.tenant, p.environment);
    forall r ensures Selects(q, r) <==> IsNamedBy(r, p.service, None, p.tenant, p.environment) {
      SelectsByColumns(r, p.service, None, p.tenant, p.environment);
    }
    FetchFindsFirst(t, q, 1, 0);
    var found := Fetch(t, q, 1, 0);
    if found != [] { assert found[0] in found && Selects(q, t[found[0]]); }
  }

  /** Creating adds a row with the given columns; if it is active, exactly the rows of its scope lose their flag. */
  lemma CreatedByColumns(t: Table, p: Create)
    ensures
      var t', active := Created(t, p), StartsActive(t, p);
      && |t'| == |t| + 1
      && t'[|t|] == Row(p.service, p.version, active, p.tenant, p.environment, p.body)
      && forall j :: 0 <= j < |t| ==>
           && t'[j].(active := t[j].active) == t[j]
           && t'[j].active == (t[j].active && !(active && t[j].service == p.service && t[j].tenant == p.tenant
                                                && t[j].environment == p.environment))
  {
  }

  /** Creating raises after the commit exactly if another row has that service and version and what is given of the scope. */
  lemma CreatedIsAmbiguousIff(t: Table, p: Create)
    requires IndexesOk(Created(t, p))
    ensures
      LookUp(After(t, CreateOp(p)), QueryOf(CreateOp(p))).Ambiguous? <==>
      exists k :: 0 <= k < |t| && IsNamedBy(t[k], p.service, Some(p.version), p.tenant, p.environment)
  {
    var t' := Created(t, p);
    CreatedByColumns(t, p);
    LookUpByColumns(t', p.service, p.version, p.tenant, p.environment);
    assert IsNamedBy(t'[|t|], p.service, Some(p.version), p.tenant, p.environment);
    forall k | 0 <= k < |t|
      ensures
        IsNamedBy(t'[k], p.service, Some(p.version), p.tenant, p.environment) <==>
        IsNamedBy(t[k], p.service, Some(p.version), p.tenant, p.environment)
    {
      assert t'[k].(active := t[k].active) == t[k];
    }
  }

  // The index key

  /** The indexes tell scopes apart by tenant and environment, with null read as the empty string. */
  lemma KeyByColumns(a: Row, b: Row)
    ensures
      SameKey(a, b) <==>
      && a.service == b.service
      && (a.tenant == b.tenant || (a.tenant in {None, Some("")} && b.tenant in {None, Some("")}))
      && (a.environment == b.environment || (a.environment in {None, Some("")} && b.environment in {None, Some("")}))
  {
  }
}
