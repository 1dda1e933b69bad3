/** JSON values, paths into them, and the projection of a value onto a set of paths. */
module Json {

  datatype Json = Scalar(text: string) | Object(fields: map<string, Json>) | Array(items: seq<Json>)

  type Path = seq<string>

  /** The path leads through objects to a value. */
  predicate Present(j: Json, p: Path) {
    p == [] || (j.Object? && p[0] in j.fields && Present(j.fields[p[0]], p[1..]))
  }

  function At(j: Json, p: Path): Json
    requires Present(j, p)
  {
    if p == [] then j else At(j.fields[p[0]], p[1..])
  }

  lemma {:induction false} AtStep(j: Json, p: Path, k: string)
    ensures Present(j, p + [k]) <==> Present(j, p) && At(j, p).Object? && k in At(j, p).fields
    ensures Present(j, p + [k]) ==> At(j, p + [k]) == At(j, p).fields[k]
  {
    if p == [] {
      assert (p + [k])[1..] == [];
    } else if j.Object? && p[0] in j.fields {
      assert (p + [k])[1..] == p[1..] + [k];
      AtStep(j.fields[p[0]], p[1..], k);
    }
  }

  function Heads(paths: set<Path>): set<string> { set p | p in paths && p != [] :: p[0] }

  function Tails(paths: set<Path>, k: string): set<Path> { set p | p in paths && p != [] && p[0] == k :: p[1..] }

  /** What is left of a value if exactly these paths are kept, each with everything below it. */
  function Project(j: Json, paths: set<Path>): Json {
    if [] in paths || !j.Object? then j
    else Object(map k | k in j.fields && k in Heads(paths) :: Project(j.fields[k], Tails(paths, k)))
  }

  function PresentOnly(j: Json, paths: set<Path>): set<Path> { set p | p in paths && Present(j, p) }

  ghost predicate AllPresent(j: Json, paths: set<Path>) { forall p :: p in paths ==> Present(j, p) }

  lemma TailsArePresent(j: Json, paths: set<Path>, k: string)
    requires AllPresent(j, paths) && j.Object?
    ensures k in Heads(paths) ==> k in j.fields
    ensures k in j.fields ==> AllPresent(j.fields[k], Tails(paths, k))
  {
  }

  // The projection keeps what was asked for, and nothing that was not there

  lemma {:induction false} ProjectionKeeps(j: Json, paths: set<Path>, p: Path)
    requires p in paths && Present(j, p)
    ensures Present(Project(j, paths), p) && At(Project(j, paths), p) == At(j, p)
  {
    if [] in paths || p == [] {
    } else {
      assert p[0] in Heads(paths) && p[1..] in Tails(paths, p[0]);
      ProjectionKeeps(j.fields[p[0]], Tails(paths, p[0]), p[1..]);
    }
  }

  /** The first value holds only data that the second holds at the same place. */
  predicate Within(a: Json, b: Json) {
    match a
    case Scalar(_) => a == b
    case Object(fields) =>
      b.Object? && forall k :: k in fields ==> k in b.fields && Within(fields[k], b.fields[k])
    case Array(items) =>
      b.Array? && |items| == |b.items| && forall i :: 0 <= i < |items| ==> Within(items[i], b.items[i])
  }

  lemma {:induction false} WithinItself(j: Json)
    ensures Within(j, j)
  {
    match j
    case Scalar(_) =>
    case Object(fields) => forall k | k in fields ensures Within(fields[k], fields[k]) { WithinItself(fields[k]); }
    case Array(items) => forall i | 0 <= i < |items| ensures Within(items[i], items[i]) { WithinItself(items[i]); }
  }

  lemma {:induction false} ProjectionIsWithin(j: Json, paths: set<Path>)
    ensures Within(Project(j, paths), j)
  {
    if [] in paths || !j.Object? {
      WithinItself(j);
    } else {
      forall k | k in j.fields && k in Heads(paths) ensures Within(Project(j.fields[k], Tails(paths, k)), j.fields[k]) {
        ProjectionIsWithin(j.fields[k], Tails(paths, k));
      }
    }
  }

  lemma {:induction false} WithinHasPaths(a: Json, b: Json, p: Path)
    requires Within(a, b) && Present(a, p)
    ensures Present(b, p) && Within(At(a, p), At(b, p))
  {
    if p != [] { WithinHasPaths(a.fields[p[0]], b.fields[p[0]], p[1..]); }
  }

  /** Every path of the projection lies on a kept path: it leads to one, or below one. */
  lemma {:induction false} ProjectionIsMinimal(j: Json, paths: set<Path>, q: Path)
    requires j.Object? && AllPresent(j, paths) && q != [] && Present(Project(j, paths), q)
    ensures exists p :: p in paths && (p <= q || q <= p)
  {
    if [] !in paths {
      var k := q[0];
      TailsArePresent(j, paths, k);
      var p0 :| p0 in paths && p0 != [] && p0[0] == k;
      if |q| == 1 {
        assert q <= p0;
      } else if [] in Tails(paths, k) || !j.fields[k].Object? {
        var p :| p in paths && p != [] && p[0] == k && (p[1..] == [] || !j.fields[k].Object?);
        assert p == [k] by { assert Present(j.fields[k], p[1..]); }
        assert p <= q;
      } else {
        ProjectionIsMinimal(j.fields[k], Tails(paths, k), q[1..]);
        var r :| r in Tails(paths, k) && (r <= q[1..] || q[1..] <= r);
        var p :| p in paths && p != [] && p[0] == k && p[1..] == r;
        assert p == [k] + r && q == [k] + q[1..];
      }
    } else {
      assert [] <= q;
    }
  }

  /** The projection has exactly the source's paths that touch a kept one. */
  lemma ProjectionHas(j: Json, paths: set<Path>, q: Path)
    requires j.Object? && AllPresent(j, paths) && q != []
    ensures Present(Project(j, paths), q) <==> Present(j, q) && exists p :: p in paths && (p <= q || q <= p)
  {
    if Present(Project(j, paths), q) {
      ProjectionIsWithin(j, paths);
      WithinHasPaths(Project(j, paths), j, q);
      ProjectionIsMinimal(j, paths, q);
    } else if Present(j, q) && exists p :: p in paths && (p <= q || q <= p) {
      var p :| p in paths && (p <= q || q <= p);
      ProjectionKeeps(j, paths, p);
      if p <= q {
        PresentOn(Project(j, paths), j, p, q);
      } else {
        PresentBefore(Project(j, paths), q, p);
      }
    }
  }

  lemma {:induction false} PresentBefore(j: Json, q: Path, p: Path)
    requires q <= p && Present(j, p)
    ensures Present(j, q)
  {
    if q != [] { PresentBefore(j.fields[p[0]], q[1..], p[1..]); }
  }

  lemma {:induction false} PresentOn(a: Json, b: Json, p: Path, q: Path)
    requires p <= q && Present(a, p) && Present(b, p) && At(a, p) == At(b, p) && Present(b, q)
    ensures Present(a, q)
  {
    if p != [] { PresentOn(a.fields[p[0]], b.fields[p[0]], p[1..], q[1..]); }
  }

  lemma {:induction false} ProjectTwice(j: Json, paths: set<Path>)
    ensures Project(Project(j, paths), paths) == Project(j, paths)
  {
    if [] !in paths && j.Object? {
      var once := Project(j, paths);
      forall k | k in once.fields ensures Project(once.fields[k], Tails(paths, k)) == once.fields[k] {
        ProjectTwice(j.fields[k], Tails(paths, k));
      }
      assert Project(once, paths).fields == once.fields;
    }
  }
}
