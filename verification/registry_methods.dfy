/** The registry's operations as methods on a table that a session updates and commits. */
module RegistryMethods {
  import opened Common
  import opened Registry

  class ArtifactRegistry {
    var rows: Table

    constructor ()
      ensures rows == []
    {
      rows := [];
    }

    /** `query.limit(2)`, and the decision on how many rows came back. */
    method RequireUniqueVersionRecord(q: Query) returns (r: Lookup)
      ensures r == LookUp(rows, q)
    {
      var found: seq<nat> := [];
      var i := 0;
      while i < |rows| && |found| < 2
        invariant 0 <= i <= |rows| && |found| <= 2
        invariant Fetch(rows, q, 2, 0) == found + Fetch(rows, q, 2 - |found|, i)
      {
        if Selects(q, rows[i]) {
          assert Fetch(rows, q, 2 - |found|, i) == [i] + Fetch(rows, q, 1 - |found|, i + 1);
          assert found + ([i] + Fetch(rows, q, 1 - |found|, i + 1)) == found + [i] + Fetch(rows, q, 1 - |found|, i + 1);
          found := found + [i];
        }
        i := i + 1;
      }
      assert Fetch(rows, q, 2, 0) == found;
      if found == [] { return NotFound; }
      if |found| > 1 { return Ambiguous; }
      return Found(found[0]);
    }

    /** Flush and commit: the unique indexes accept the whole change or roll it back. */
    method Commit(proposed: Table) returns (accepted: bool)
      modifies this
      ensures accepted <==> IndexesOk(proposed)
      ensures rows == if accepted then proposed else old(rows)
    {
      accepted := IndexesOk(proposed);
      if accepted { rows := proposed; }
    }

    /** The final lookup runs after the commit: if it is ambiguous the call raises, yet the row stays. */
    method CreateVersion(p: Create) returns (r: Reply)
      modifies this
      ensures rows == After(old(rows), CreateOp(p))
      ensures
        r == if !IndexesOk(Created(old(rows), p)) then Raised(IntegrityError)
             else if LookUp(rows, QueryOf(CreateOp(p))).Ambiguous? then Raised(AmbiguousVersion)
             else Versions(Some(NewRow(old(rows), p)))
    {
      var isActive := StartsActive(rows, p);
      var proposed := rows;
      if isActive {
        proposed := DeactivateServiceVersions(proposed, Scope(p.service, p.tenant, p.environment));
      }
      proposed := proposed + [Row(p.service, p.version, isActive, p.tenant, p.environment, p.body)];
      var accepted := Commit(proposed);
      if !accepted { return Raised(IntegrityError); }
      var stored := RequireUniqueVersionRecord(QueryOf(CreateOp(p)));
      LookUpDecides(rows, QueryOf(CreateOp(p)));
      assert Selects(QueryOf(CreateOp(p)), rows[|rows| - 1]);
      match stored
      case Ambiguous => return Raised(AmbiguousVersion);
      case Found(at) => return Versions(Some(rows[at]));
      case NotFound => assert false;
    }

    method UpdateVersion(op: Op) returns (r: Reply)
      requires op.ChangeOp? && op.change.SetFields?
      modifies this
      ensures rows == After(old(rows), op) && r == ReplyTo(old(rows), op)
    {
      var record := RequireUniqueVersionRecord(QueryOf(op));
      LookUpDecides(rows, QueryOf(op));
      match record
      case NotFound => return Versions(None);
      case Ambiguous => return Raised(AmbiguousVersion);
      case Found(at) =>
        var row := rows[at];
        if op.change.u.body.Some? { row := row.(body := op.change.u.body.value); }
        if op.change.u.tenant.Some? { row := row.(tenant := op.change.u.tenant); }
        if op.change.u.environment.Some? { row := row.(environment := op.change.u.environment); }
        var accepted := Commit(rows[at := row]);
        return if accepted then Versions(Some(row)) else Raised(IntegrityError);
    }

    method ActivateVersion(op: Op) returns (r: Reply)
      requires op.ChangeOp? && op.change.Activate?
      modifies this
      ensures rows == After(old(rows), op) && r == ReplyTo(old(rows), op)
    {
      var record := RequireUniqueVersionRecord(QueryOf(op));
      LookUpDecides(rows, QueryOf(op));
      match record
      case NotFound => return Versions(None);
      case Ambiguous => return Raised(AmbiguousVersion);
      case Found(at) =>
        var row := rows[at].(active := true);
        var proposed := DeactivateServiceVersions(rows, ScopeOf(rows[at]));
        var accepted := Commit(proposed[at := row]);
        return if accepted then Versions(Some(row)) else Raised(IntegrityError);
    }

    method DeleteVersion(op: Op) returns (r: Reply)
      requires op.ChangeOp? && op.change.Delete?
      modifies this
      ensures rows == After(old(rows), op) && r == ReplyTo(old(rows), op)
    {
      var record := RequireUniqueVersionRecord(QueryOf(op));
      LookUpDecides(rows, QueryOf(op));
      match record
      case NotFound => return WasDeleted(false);
      case Ambiguous => return Raised(AmbiguousVersion);
      case Found(at) =>
        var row := rows[at];
        var proposed := Without(rows, at);
        if row.active {
          var replacement := FindReplacement(proposed, row);
          if replacement.Some? {
            proposed := proposed[replacement.value := proposed[replacement.value].(active := true)];
          }
        }
        var accepted := Commit(proposed);
        return if accepted then WasDeleted(true) else Raised(IntegrityError);
    }

    method DeleteService(op: Op) returns (r: Reply)
      requires op.DeleteServiceOp? && IndexesOk(rows)
      modifies this
      ensures rows == After(old(rows), op) == Kept(old(rows), QueryOf(op))
      ensures r == DeletedCount(|old(rows)| - |Kept(old(rows), QueryOf(op))|)
    {
      var kept := KeepOthers(rows, QueryOf(op));
      KeptKeepsIndexes(rows, QueryOf(op));
      var deleted := |rows| - |kept|;
      var accepted := Commit(kept);
      return DeletedCount(deleted);
    }
  }

  /** The bulk update: every row of the scope loses its active flag. */
  method DeactivateServiceVersions(rows: Table, scope: Scope) returns (updated: Table)
    ensures updated == Deactivate(rows, scope)
  {
    updated := [];
    for i := 0 to |rows|
      invariant updated == Deactivate(rows[..i], scope)
    {
      var row := rows[i];
      if row.service == scope.service && row.tenant == scope.tenant && row.environment == scope.environment {
        row := row.(active := false);
      }
      DeactivateStep(rows, scope, i);
      updated := updated + [row];
    }
    WholePrefix(rows);
  }

  lemma DeactivateStep(t: Table, scope: Scope, i: nat)
    requires i < |t|
    ensures
      Deactivate(t[..i + 1], scope) ==
      Deactivate(t[..i], scope) + [if ScopeOf(t[i]) == scope then t[i].(active := false) else t[i]]
  {
  }

  /** The replacement query: the row of the scope that comes first in descending order of versions. */
  method FindReplacement(rows: Table, row: Row) returns (replacement: Option<nat>)
    ensures replacement == Greatest(rows, row)
  {
    replacement := None;
    for i := 0 to |rows|
      invariant replacement == Greatest(rows[..i], row)
    {
      assert rows[..i + 1][..i] == rows[..i];
      if rows[i].service == row.service && rows[i].tenant == row.tenant && rows[i].environment == row.environment {
        if replacement.None? || rows[i].version > rows[replacement.value].version {
          replacement := Some(i);
        }
      }
    }
    WholePrefix(rows);
  }

  /** The loop that deletes the selected rows one by one. */
  method KeepOthers(rows: Table, q: Query) returns (kept: Table)
    ensures kept == Kept(rows, q)
  {
    kept := [];
    for i := 0 to |rows|
      invariant Kept(rows, q) == kept + Kept(rows[i..], q)
    {
      ghost var rest := Kept(rows[i + 1..], q);
      assert rows[i..][1..] == rows[i + 1..];
      assert Kept(rows[i..], q) == (if Selects(q, rows[i]) then [] else [rows[i]]) + rest;
      if !Selects(q, rows[i]) {
        assert kept + ([rows[i]] + rest) == (kept + [rows[i]]) + rest;
        kept := kept + [rows[i]];
      } else {
        assert [] + rest == rest;
      }
    }
  }
}
