/**
 The shape of a partly built projection: where it still has its own objects, and where it shares
 values with the source.
 */
module Trie {
  import opened Json

  datatype Trie = Shared | Own(children: map<string, Trie>)

  const EMPTY := Own(map[])

  function Child(t: Trie, k: string): Trie
    requires t.Own?
  {
    if k in t.children then t.children[k] else EMPTY
  }

  /** The shape once the value at `p` is shared: everything below `p` is shared, too. */
  function Insert(t: Trie, p: Path): Trie
    decreases |p|
  {
    if t.Shared? || p == [] then Shared
    else Own(t.children[p[0] := Insert(Child(t, p[0]), p[1..])])
  }

  /** `t` is the shape of the projection onto `paths`. */
  ghost predicate Represents(t: Trie, paths: set<Path>) {
    match t
    case Shared => [] in paths
    case Own(children) =>
      && [] !in paths && children.Keys == Heads(paths)
      && forall k :: k in children ==> Represents(children[k], Tails(paths, k))
  }

  lemma {:induction false} InsertRepresents(t: Trie, paths: set<Path>, p: Path)
    requires Represents(t, paths)
    ensures Represents(Insert(t, p), paths + {p})
    decreases |p|
  {
    if t.Own? && p != [] {
      var all := paths + {p};
      var child := Child(t, p[0]);
      assert p[0] !in t.children ==> Tails(paths, p[0]) == {};
      InsertRepresents(child, Tails(paths, p[0]), p[1..]);
      assert Tails(all, p[0]) == Tails(paths, p[0]) + {p[1..]};
      assert Heads(all) == Heads(paths) + {p[0]};
      forall k | k in t.children && k != p[0] ensures Tails(all, k) == Tails(paths, k) {
      }
    }
  }

  /** The value of a projection of this shape. */
  predicate Fits(t: Trie, j: Json) {
    t.Shared? || (j.Object? && forall k :: k in t.children ==> k in j.fields && Fits(t.children[k], j.fields[k]))
  }

  function Eval(t: Trie, j: Json): Json
    requires Fits(t, j)
  {
    match t
    case Shared => j
    case Own(children) => Object(map k | k in children :: Eval(children[k], j.fields[k]))
  }

  lemma {:induction false} InsertFits(t: Trie, j: Json, p: Path)
    requires Fits(t, j) && Present(j, p)
    ensures Fits(Insert(t, p), j)
    decreases |p|
  {
    if t.Own? && p != [] && p[1..] != [] { InsertFits(Child(t, p[0]), j.fields[p[0]], p[1..]); }
  }

  lemma {:induction false} EvalIsProjection(t: Trie, paths: set<Path>, j: Json)
    requires Represents(t, paths) && Fits(t, j)
    ensures Eval(t, j) == Project(j, paths)
  {
    if t.Own? {
      forall k | k in t.children ensures Eval(t.children[k], j.fields[k]) == Project(j.fields[k], Tails(paths, k)) {
        EvalIsProjection(t.children[k], Tails(paths, k), j.fields[k]);
      }
      assert Eval(t, j).fields == Project(j, paths).fields;
    }
  }

  // One level of a shape, as an object sees it

  datatype Level = Missing | IsShared | Level(shared: map<string, bool>)

  /** What stands at `p`: its keys, and for each whether it shares the value. */
  function LevelAt(t: Trie, p: Path): Level
    decreases |p|
  {
    match t
    case Shared => if p == [] then IsShared else Missing
    case Own(children) =>
      if p == [] then Level(map k | k in children :: children[k].Shared?)
      else if p[0] in children then LevelAt(children[p[0]], p[1..])
      else Missing
  }

  /** The shape with `s` put at `p`, whose parent is one of the projection's own objects. */
  function Put(t: Trie, p: Path, s: Trie): Trie
    decreases |p|
  {
    if t.Shared? || p == [] then s
    else Own(t.children[p[0] := Put(Child(t, p[0]), p[1..], s)])
  }

  /** Putting something below `q` changes the level of `q`, and no other level outside of it. */
  lemma {:induction false} PutLevel(t: Trie, q: Path, k: string, s: Trie, q': Path)
    requires LevelAt(t, q).Level? && !(q + [k] <= q')
    ensures
      LevelAt(Put(t, q + [k], s), q') ==
      if q' == q then Level(LevelAt(t, q).shared[k := s.Shared?]) else LevelAt(t, q')
    decreases |q|
  {
    var t' := Put(t, q + [k], s);
    if q == [] {
      assert (q + [k])[1..] == [] && Put(Child(t, k), [], s) == s;
      assert t' == Own(t.children[k := s]);
      if q' != [] { assert q'[0] != k by { assert q' == [q'[0]] + q'[1..]; } }
    } else {
      var rest := q[1..] + [k];
      assert (q + [k])[1..] == rest && (q + [k])[0] == q[0];
      var child := t.children[q[0]];
      if q' != [] && q'[0] == q[0] {
        assert q' == [q[0]] + q'[1..] && q + [k] == [q[0]] + rest;
        PutLevel(child, q[1..], k, s, q'[1..]);
        assert q' == q <==> q'[1..] == q[1..];
      } else if q' == [] {
        PutKeepsOwn(child, q[1..], k, s);
        assert LevelAt(t', []) == LevelAt(t, []);
      }
    }
  }

  lemma PutKeepsOwn(t: Trie, q: Path, k: string, s: Trie)
    requires LevelAt(t, q).Level?
    ensures t.Own? && Put(t, q + [k], s).Own?
  {
  }

  lemma {:induction false} PutLevelBelow(t: Trie, q: Path, k: string, s: Trie)
    requires LevelAt(t, q).Level?
    ensures LevelAt(Put(t, q + [k], s), q + [k]) == LevelAt(s, [])
    decreases |q|
  {
    if q == [] {
      assert (q + [k])[1..] == [];
    } else {
      assert (q + [k])[1..] == q[1..] + [k];
      PutLevelBelow(t.children[q[0]], q[1..], k, s);
    }
  }

  // Inserting step by step, as the code does

  /** Creating an empty object on the way does not change what the insertion arrives at. */
  lemma {:induction false} InsertAfterStep(t: Trie, q: Path, k: string, rest: Path)
    requires LevelAt(t, q).Level? && k !in LevelAt(t, q).shared
    ensures Insert(Put(t, q + [k], EMPTY), q + [k] + rest) == Insert(t, q + [k] + rest)
    decreases |q|
  {
    var p := q + [k] + rest;
    if q == [] {
      assert (q + [k])[1..] == [] && p[0] == k && p[1..] == rest;
      assert Put(t, q + [k], EMPTY) == Own(t.children[k := EMPTY]);
    } else {
      assert (q + [k])[1..] == q[1..] + [k] && p[1..] == q[1..] + [k] + rest && p[0] == q[0];
      InsertAfterStep(t.children[q[0]], q[1..], k, rest);
    }
  }

  /** The last step shares the value. */
  lemma {:induction false} InsertLastStep(t: Trie, q: Path, k: string)
    requires LevelAt(t, q).Level?
    ensures Insert(t, q + [k]) == Put(t, q + [k], Shared)
    decreases |q|
  {
    if q == [] {
      assert (q + [k])[1..] == [];
    } else {
      assert (q + [k])[1..] == q[1..] + [k];
      InsertLastStep(t.children[q[0]], q[1..], k);
    }
  }

  /** Below a shared value there is nothing left to insert. */
  lemma {:induction false} InsertBelowShared(t: Trie, q: Path, rest: Path)
    requires LevelAt(t, q).IsShared?
    ensures Insert(t, q + rest) == t
    decreases |q|
  {
    if q == [] {
      assert t.Shared?;
    } else {
      assert (q + rest)[1..] == q[1..] + rest && (q + rest)[0] == q[0];
      InsertBelowShared(t.children[q[0]], q[1..], rest);
      assert t.children[q[0] := t.children[q[0]]] == t.children;
    }
  }

  /** A level and the levels below it. */
  lemma {:induction false} LevelBelow(t: Trie, q: Path, k: string)
    requires LevelAt(t, q).Level? && k in LevelAt(t, q).shared
    ensures LevelAt(t, q).shared[k] <==> LevelAt(t, q + [k]).IsShared?
    ensures !LevelAt(t, q).shared[k] ==> LevelAt(t, q + [k]).Level?
    decreases |q|
  {
    if q == [] {
      assert (q + [k])[1..] == [];
    } else {
      assert (q + [k])[1..] == q[1..] + [k];
      LevelBelow(t.children[q[0]], q[1..], k);
    }
  }

  /** Whatever has a level has parents that know about it. */
  lemma {:induction false} LevelNeedsParent(t: Trie, q: Path, k: string, rest: Path)
    requires LevelAt(t, q).Level? && LevelAt(t, q + [k] + rest).Level?
    ensures k in LevelAt(t, q).shared
    decreases |q|
  {
    var p := q + [k] + rest;
    if q == [] {
      assert p[0] == k;
    } else {
      assert p[0] == q[0] && p[1..] == q[1..] + [k] + rest;
      LevelNeedsParent(t.children[q[0]], q[1..], k, rest);
    }
  }

  // What stands at a path of the shape, and what it evaluates to

  function Sub(t: Trie, p: Path): Trie
    requires !LevelAt(t, p).Missing?
    decreases |p|
  {
    if p == [] then t else Sub(t.children[p[0]], p[1..])
  }

  lemma {:induction false} SubHasLevel(t: Trie, q: Path)
    requires !LevelAt(t, q).Missing?
    ensures LevelAt(t, q) == LevelAt(Sub(t, q), [])
    decreases |q|
  {
    if q != [] { SubHasLevel(t.children[q[0]], q[1..]); }
  }

  lemma {:induction false} SubStep(t: Trie, q: Path, k: string)
    requires LevelAt(t, q).Level? && k in LevelAt(t, q).shared
    ensures !LevelAt(t, q + [k]).Missing?
    ensures Sub(t, q).Own? && k in Sub(t, q).children && Sub(t, q + [k]) == Sub(t, q).children[k]
    decreases |q|
  {
    if q == [] {
      assert (q + [k])[1..] == [];
    } else {
      assert (q + [k])[1..] == q[1..] + [k];
      SubStep(t.children[q[0]], q[1..], k);
    }
  }

  lemma {:induction false} SubFits(t: Trie, q: Path, j: Json)
    requires Fits(t, j) && !LevelAt(t, q).Missing?
    ensures Present(j, q) && Fits(Sub(t, q), At(j, q))
    decreases |q|
  {
    if q != [] { SubFits(t.children[q[0]], q[1..], j.fields[q[0]]); }
  }
}
