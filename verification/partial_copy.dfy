/**
 Building a projection in place: `set_nested` walks into a result that partly shares dictionaries
 with the source, creates dictionaries of its own where it must, and shares the value it was asked for.
 */
module PartialCopy {
  import opened Common
  import opened JsonHeap
  import opened Trie
  import J = Json

  /** The result's own dictionaries: what they hold, the path each stands at, and the shape they form. */
  datatype Build = Build(own: Snapshot, pathOf: map<Dict, J.Path>, shape: Trie)

  /** The value of one entry: shared with the source at the same path, or an own dictionary of that path. */
  ghost predicate LinkOk(h: Snapshot, root: Value, pathOf: map<Dict, J.Path>, v: Value, p: J.Path, shared: bool) {
    if shared then Walk(h, root, p) == Some(v) else v.Object? && v.dict in pathOf && pathOf[v.dict] == p
  }

  ghost predicate DictOk(
    h: Snapshot, root: Value, shape: Trie, pathOf: map<Dict, J.Path>, entries: map<string, Value>, q: J.Path)
  {
    var l := LevelAt(shape, q);
    && l.Level? && entries.Keys == l.shared.Keys
    && forall k :: k in entries ==> LinkOk(h, root, pathOf, entries[k], q + [k], l.shared[k])
  }

  ghost predicate BuildOk(h: Snapshot, root: Value, b: Build) {
    && b.own.Keys == b.pathOf.Keys && b.own.Keys !! h.Keys
    && (forall f :: f in b.own ==> DictOk(h, root, b.shape, b.pathOf, b.own[f], b.pathOf[f]))
    && (forall f, g :: f in b.own && g in b.own && b.pathOf[f] == b.pathOf[g] ==> f == g)
  }

  /** The build without the dictionaries at and below `p`. */
  ghost function Pruned(b: Build, p: J.Path): Build {
    b.(own := map f | f in b.own && f in b.pathOf && !(p <= b.pathOf[f]) :: b.own[f],
       pathOf := map f | f in b.pathOf && !(p <= b.pathOf[f]) :: b.pathOf[f])
  }

  ghost function Shared(b: Build, f: Dict, k: string, v: Value): Build
    requires f in b.own && f in b.pathOf
  {
    var p := b.pathOf[f] + [k];
    var rest := Pruned(b, p);
    Build(rest.own[f := b.own[f][k := v]], rest.pathOf, Put(b.shape, p, Trie.Shared))
  }

  ghost function Created(b: Build, f: Dict, k: string, g: Dict): Build
    requires f in b.own && f in b.pathOf
  {
    var p := b.pathOf[f] + [k];
    Build(b.own[f := b.own[f][k := Object(g)]][g := map[]], b.pathOf[g := p], Put(b.shape, p, EMPTY))
  }

  /** An own dictionary away from the change keeps its level and its links. */
  lemma OtherDictStaysOk(
    h: Snapshot, root: Value, b: Build, pathOf: map<Dict, J.Path>, f: Dict, k: string, s: Trie, other: Dict)
    requires BuildOk(h, root, b) && f in b.own && other in b.own && other != f
    requires var p := b.pathOf[f] + [k]; !(p <= b.pathOf[other])
    requires
      var p := b.pathOf[f] + [k];
      forall g :: g in b.pathOf && !(p <= b.pathOf[g]) ==> g in pathOf && pathOf[g] == b.pathOf[g]
    ensures DictOk(h, root, Put(b.shape, b.pathOf[f] + [k], s), pathOf, b.own[other], b.pathOf[other])
  {
    var q, q' := b.pathOf[f], b.pathOf[other];
    var entries := b.own[other];
    assert DictOk(h, root, b.shape, b.pathOf, b.own[f], q) && DictOk(h, root, b.shape, b.pathOf, entries, q');
    PutLevel(b.shape, q, k, s, q');
    var l := LevelAt(b.shape, q');
    forall k' | k' in entries ensures LinkOk(h, root, pathOf, entries[k'], q' + [k'], l.shared[k']) {
      assert LinkOk(h, root, b.pathOf, entries[k'], q' + [k'], l.shared[k']);
      StepsDiffer(q, k, q', k');
      if q + [k] <= q' + [k'] {
        PrefixOfStep(q + [k], q', k');
      }
    }
  }

  lemma PrefixOfStep(p: J.Path, q: J.Path, k: string)
    requires p <= q + [k]
    ensures p <= q || p == q + [k]
  {
    if |p| <= |q| {
      assert p == (q + [k])[..|p|] == q[..|p|];
    }
  }

  lemma StepsDiffer(q: J.Path, k: string, q': J.Path, k': string)
    requires q != q'
    ensures q + [k] != q' + [k']
  {
    assert q == (q + [k])[..|q|] && q' == (q' + [k'])[..|q'|];
  }

  lemma ShareKeepsOk(h: Snapshot, root: Value, b: Build, f: Dict, k: string, v: Value)
    requires BuildOk(h, root, b) && f in b.own && Walk(h, root, b.pathOf[f] + [k]) == Some(v)
    ensures f in Shared(b, f, k, v).own && BuildOk(h, root, Shared(b, f, k, v))
  {
    var q, p, b' := b.pathOf[f], b.pathOf[f] + [k], Shared(b, f, k, v);
    assert !(p <= q);
    assert DictOk(h, root, b.shape, b.pathOf, b.own[f], q);
    forall other | other in b'.own ensures DictOk(h, root, b'.shape, b'.pathOf, b'.own[other], b'.pathOf[other]) {
      if other != f {
        OtherDictStaysOk(h, root, b, b'.pathOf, f, k, Trie.Shared, other);
      } else {
        SharedDictOk(h, root, b, f, k, v);
      }
    }
  }

  lemma SharedDictOk(h: Snapshot, root: Value, b: Build, f: Dict, k: string, v: Value)
    requires BuildOk(h, root, b) && f in b.own && Walk(h, root, b.pathOf[f] + [k]) == Some(v)
    ensures
      var b' := Shared(b, f, k, v);
      DictOk(h, root, b'.shape, b'.pathOf, b.own[f][k := v], b.pathOf[f])
  {
    var q, b', entries := b.pathOf[f], Shared(b, f, k, v), b.own[f];
    assert DictOk(h, root, b.shape, b.pathOf, entries, q);
    PutLevel(b.shape, q, k, Trie.Shared, q);
    forall k' | k' in entries && k' != k
      ensures LinkOk(h, root, b'.pathOf, entries[k'], q + [k'], LevelAt(b.shape, q).shared[k'])
    {
      assert LinkOk(h, root, b.pathOf, entries[k'], q + [k'], LevelAt(b.shape, q).shared[k']);
      assert !(q + [k] <= q + [k']) by { assert (q + [k])[|q|] != (q + [k'])[|q|]; }
    }
  }

  /** No own dictionary stands at or below a missing entry. */
  lemma NothingBelowMissing(h: Snapshot, root: Value, b: Build, f: Dict, k: string, other: Dict)
    requires BuildOk(h, root, b) && f in b.own && k !in b.own[f] && other in b.own
    ensures !(b.pathOf[f] + [k] <= b.pathOf[other])
  {
    var q, q' := b.pathOf[f], b.pathOf[other];
    assert DictOk(h, root, b.shape, b.pathOf, b.own[f], q);
    assert DictOk(h, root, b.shape, b.pathOf, b.own[other], q');
    if q + [k] <= q' {
      assert q' == q + [k] + q'[|q| + 1..];
      LevelNeedsParent(b.shape, q, k, q'[|q| + 1..]);
    }
  }

  lemma CreateKeepsOk(h: Snapshot, root: Value, b: Build, f: Dict, k: string, g: Dict)
    requires BuildOk(h, root, b) && f in b.own && k !in b.own[f] && g !in b.own && g !in h
    ensures BuildOk(h, root, Created(b, f, k, g))
  {
    var q, p, b' := b.pathOf[f], b.pathOf[f] + [k], Created(b, f, k, g);
    assert DictOk(h, root, b.shape, b.pathOf, b.own[f], q);
    forall other | other in b.own ensures !(p <= b.pathOf[other]) {
      NothingBelowMissing(h, root, b, f, k, other);
    }
    forall other | other in b'.own ensures DictOk(h, root, b'.shape, b'.pathOf, b'.own[other], b'.pathOf[other]) {
      if other == g {
        PutLevelBelow(b.shape, q, k, EMPTY);
      } else if other != f {
        OtherDictStaysOk(h, root, b, b'.pathOf, f, k, EMPTY, other);
      } else {
        CreatedDictOk(h, root, b, f, k, g);
      }
    }
  }

  lemma CreatedDictOk(h: Snapshot, root: Value, b: Build, f: Dict, k: string, g: Dict)
    requires f in b.own && f in b.pathOf && k !in b.own[f] && g !in b.pathOf
    requires DictOk(h, root, b.shape, b.pathOf, b.own[f], b.pathOf[f])
    ensures
      var b' := Created(b, f, k, g);
      DictOk(h, root, b'.shape, b'.pathOf, b.own[f][k := Object(g)], b.pathOf[f])
  {
    var q, b', entries := b.pathOf[f], Created(b, f, k, g), b.own[f];
    var l := LevelAt(b.shape, q);
    PutLevel(b.shape, q, k, EMPTY, q);
    assert LinkOk(h, root, b'.pathOf, Object(g), q + [k], false);
    forall k' | k' in entries ensures LinkOk(h, root, b'.pathOf, entries[k'], q + [k'], l.shared[k']) {
      assert LinkOk(h, root, b.pathOf, entries[k'], q + [k'], l.shared[k']);
    }
  }

  // Walking into the result

  /** Some prefix of `q` is shared with the source, so what stands at `q` is the source's own value. */
  ghost predicate IsInSource(shape: Trie, q: J.Path) {
    exists j :: 0 <= j <= |q| && LevelAt(shape, q[..j]).IsShared?
  }

  /** `v` stands at path `q` of the result: an own dictionary, or the source's value at `q`. */
  ghost predicate Stands(h: Snapshot, root: Value, b: Build, q: J.Path, v: Value) {
    || (v.Object? && v.dict in b.own && v.dict in b.pathOf && b.pathOf[v.dict] == q)
    || (Walk(h, root, q) == Some(v) && IsInSource(b.shape, q))
  }

  lemma StaysInSource(shape: Trie, q: J.Path, k: string)
    requires IsInSource(shape, q)
    ensures IsInSource(shape, q + [k])
  {
    var j :| 0 <= j <= |q| && LevelAt(shape, q[..j]).IsShared?;
    assert (q + [k])[..j] == q[..j];
  }

  lemma InsertInSource(shape: Trie, q: J.Path, rest: J.Path)
    requires IsInSource(shape, q)
    ensures Insert(shape, q + rest) == shape
  {
    var j :| 0 <= j <= |q| && LevelAt(shape, q[..j]).IsShared?;
    InsertBelowShared(shape, q[..j], q[j..] + rest);
    assert q[..j] + (q[j..] + rest) == q + rest;
  }

  /** What the source has along a path it contains. */
  lemma SourceStep(h: Snapshot, m: Meaning, root: Value, q: J.Path, k: string, rest: J.Path)
    requires Means(h, m) && Known(root, m) && Walk(h, root, q + [k] + rest).Some?
    ensures
      var w := Walk(h, root, q);
      && w.Some? && w.value.Object? && w.value.dict in h && k in h[w.value.dict]
      && Walk(h, root, q + [k]) == Some(h[w.value.dict][k])
  {
    WalkPrefix(h, root, q + [k] + rest, |q| + 1);
    assert (q + [k] + rest)[..|q| + 1] == q + [k];
    WalkFurther(h, root, q, k);
  }

  lemma OwnEntryStands(h: Snapshot, root: Value, b: Build, f: Dict, k: string)
    requires BuildOk(h, root, b) && f in b.own && k in b.own[f]
    ensures Stands(h, root, b, b.pathOf[f] + [k], b.own[f][k])
  {
    var q := b.pathOf[f];
    assert DictOk(h, root, b.shape, b.pathOf, b.own[f], q);
    assert LinkOk(h, root, b.pathOf, b.own[f][k], q + [k], LevelAt(b.shape, q).shared[k]);
    LevelBelow(b.shape, q, k);
    assert (q + [k])[..|q| + 1] == q + [k];
  }

  /** What every step of the walk keeps: the source, the dictionaries so far, and where it will end. */
  ghost predicate Grows(b: Build, b': Build, p: J.Path) {
    && (forall f :: f in b.own && f in b.pathOf ==> f in b'.own && f in b'.pathOf && b'.pathOf[f] == b.pathOf[f])
    && Insert(b'.shape, p) == Insert(b.shape, p)
  }

  lemma CreatedEntries(b: Build, f: Dict, k: string, g: Dict)
    requires f in b.own && f in b.pathOf && g !in b.own
    ensures
      var own := Created(b, f, k, g).own;
      && own.Keys == b.own.Keys + {g} && own[g] == map[] && own[f] == b.own[f][k := Object(g)]
      && forall d :: d in b.own && d != f ==> own[d] == b.own[d]
  {
  }

  lemma CreatedGrows(b: Build, f: Dict, k: string, g: Dict, rest: J.Path)
    requires f in b.own && f in b.pathOf && g !in b.pathOf
    requires var l := LevelAt(b.shape, b.pathOf[f]); l.Level? && k !in l.shared
    ensures Grows(b, Created(b, f, k, g), b.pathOf[f] + [k] + rest)
  {
    InsertAfterStep(b.shape, b.pathOf[f], k, rest);
  }

  method AddEmpty(cur: Dict, k: string, ghost h: Snapshot, ghost root: Value, ghost b: Build, ghost rest: J.Path)
    returns (ghost b': Build)
    requires Holds(b.own) && BuildOk(h, root, b) && cur in b.own && k !in cur.entries
    requires forall d :: d in h ==> allocated(d)
    modifies cur
    ensures Holds(b'.own) && BuildOk(h, root, b')
    ensures forall f :: f in b'.own ==> f in b.own || fresh(f)
    ensures Grows(b, b', b.pathOf[cur] + [k] + rest)
    ensures k in b'.own[cur]
  {
    assert DictOk(h, root, b.shape, b.pathOf, b.own[cur], b.pathOf[cur]);
    var created := new Dict();
    CreateKeepsOk(h, root, b, cur, k, created);
    CreatedGrows(b, cur, k, created, rest);
    b' := Created(b, cur, k, created);
    CreatedEntries(b, cur, k, created);
    cur.entries := cur.entries[k := Object(created)];
  }

  /** One step of the walk: create an empty dictionary if nothing is there, and go on from the entry. */
  method Descend(
    cur: Dict, k: string, ghost h: Snapshot, ghost m: Meaning, ghost root: Value, ghost b: Build,
    ghost q: J.Path, ghost rest: J.Path)
    returns (next: Value, ghost b': Build)
    requires Holds(h) && Holds(b.own) && Means(h, m) && Known(root, m) && BuildOk(h, root, b)
    requires Stands(h, root, b, q, Object(cur)) && Walk(h, root, q + [k] + rest).Some?
    modifies b.own.Keys
    ensures Holds(h) && Holds(b'.own) && BuildOk(h, root, b')
    ensures forall f :: f in b'.own ==> f in b.own || fresh(f)
    ensures Grows(b, b', q + [k] + rest)
    ensures Stands(h, root, b', q + [k], next)
  {
    b' := b;
    SourceStep(h, m, root, q, k, rest);
    assert cur in b.own <==> cur !in h;
    if k !in cur.entries {
      b' := AddEmpty(cur, k, h, root, b, rest);
    }
    if cur in b.own {
      OwnEntryStands(h, root, b', cur, k);
    } else {
      StaysInSource(b.shape, q, k);
    }
    next := cur.entries[k];
  }

  /** The walk needs no type test: whatever stands on the way to a value of the source is a dictionary. */
  lemma StandsIsDict(
    h: Snapshot, m: Meaning, root: Value, b: Build, q: J.Path, v: Value, k: string, rest: J.Path)
    requires Means(h, m) && Known(root, m) && Stands(h, root, b, q, v) && Walk(h, root, q + [k] + rest).Some?
    ensures v.Object?
  {
    SourceStep(h, m, root, q, k, rest);
  }

  lemma NothingBelowMissingStep(h: Snapshot, root: Value, q: J.Path, segments: J.Path, i: nat)
    requires i < |segments| && Walk(h, root, q + segments[..i + 1]).None?
    ensures Walk(h, root, q + segments).None?
  {
    assert (q + segments)[..|q| + i + 1] == q + segments[..i + 1];
    if Walk(h, root, q + segments).Some? { WalkPrefix(h, root, q + segments, |q| + i + 1); }
  }

  /** The value at a path of the source. */
  method Find(source: Value, segments: seq<string>, ghost h: Snapshot, ghost m: Meaning, ghost root: Value, ghost q: J.Path)
    returns (node: Option<Value>)
    requires Holds(h) && Means(h, m) && Known(root, m) && Walk(h, root, q) == Some(source)
    ensures node == Walk(h, root, q + segments)
  {
    var value, i := source, 0;
    assert q + segments[..0] == q;
    while i < |segments|
      invariant i <= |segments| && Walk(h, root, q + segments[..i]) == Some(value)
    {
      var seg := segments[i];
      assert q + segments[..i + 1] == q + segments[..i] + [seg];
      WalkFurther(h, root, q + segments[..i], seg);
      WalkIsAt(h, m, root, q + segments[..i]);
      if value.Object? && seg in value.dict.entries {
        value := value.dict.entries[seg];
      } else {
        NothingBelowMissingStep(h, root, q, segments, i);
        return None;
      }
      i := i + 1;
    }
    assert segments[..i] == segments;
    return Some(value);
  }

  lemma LastSourceStep(h: Snapshot, m: Meaning, root: Value, q: J.Path, k: string)
    requires Means(h, m) && Known(root, m) && Walk(h, root, q + [k]).Some?
    ensures
      var w := Walk(h, root, q);
      && w.Some? && w.value.Object? && w.value.dict in h && k in h[w.value.dict]
      && Walk(h, root, q + [k]) == Some(h[w.value.dict][k])
  {
    assert q + [k] + [] == q + [k];
    SourceStep(h, m, root, q, k, []);
  }

  /** The write at the end of the walk. Into a dictionary of the source, it writes what is there already. */
  ghost function Placed(b: Build, cur: Dict, k: string, node: Value): Build {
    if cur in b.own && cur in b.pathOf then Shared(b, cur, k, node) else b
  }

  lemma PlacedOk(h: Snapshot, m: Meaning, root: Value, b: Build, cur: Dict, k: string, node: Value, q: J.Path)
    requires Means(h, m) && Known(root, m) && BuildOk(h, root, b)
    requires Stands(h, root, b, q, Object(cur)) && Walk(h, root, q + [k]) == Some(node)
    ensures var b' := Placed(b, cur, k, node); BuildOk(h, root, b') && b'.shape == Insert(b.shape, q + [k])
    ensures cur in h ==> h[cur][k := node] == h[cur]
  {
    LastSourceStep(h, m, root, q, k);
    assert cur in b.own <==> cur !in h;
    if cur in b.own {
      ShareKeepsOk(h, root, b, cur, k, node);
      assert DictOk(h, root, b.shape, b.pathOf, b.own[cur], q);
      InsertLastStep(b.shape, q, k);
    } else {
      InsertInSource(b.shape, q, [k]);
    }
  }

  lemma PlacedEntries(b: Build, cur: Dict, k: string, node: Value, f: Dict)
    requires b.own.Keys == b.pathOf.Keys && f in Placed(b, cur, k, node).own
    ensures f in b.own && f in b.pathOf && f in Placed(b, cur, k, node).pathOf
    ensures Placed(b, cur, k, node).own[f] == if f == cur then b.own[f][k := node] else b.own[f]
    ensures Placed(b, cur, k, node).pathOf[f] == b.pathOf[f]
  {
  }

  lemma TargetStays(b: Build, cur: Dict, k: string, node: Value, target: Dict)
    requires b.own.Keys == b.pathOf.Keys && target in b.own && b.pathOf[target] == []
    ensures target in Placed(b, cur, k, node).own && Placed(b, cur, k, node).pathOf[target] == []
  {
    if cur in b.own { assert !(b.pathOf[cur] + [k] <= []); }
  }

  method Place(
    cur: Dict, k: string, node: Value, ghost h: Snapshot, ghost m: Meaning, ghost root: Value, ghost b: Build,
    ghost q: J.Path)
    requires Holds(h) && Holds(b.own) && Means(h, m) && Known(root, m) && BuildOk(h, root, b)
    requires Stands(h, root, b, q, Object(cur)) && Walk(h, root, q + [k]) == Some(node)
    modifies cur
    ensures Holds(h) && Holds(Placed(b, cur, k, node).own)
  {
    PlacedOk(h, m, root, b, cur, k, node, q);
    cur.entries := cur.entries[k := node];
    forall f | f in Placed(b, cur, k, node).own ensures f.entries == Placed(b, cur, k, node).own[f] {
      PlacedEntries(b, cur, k, node, f);
    }
  }

  lemma StandsSomewhere(h: Snapshot, m: Meaning, root: Value, b: Build, q: J.Path, cur: Dict, p: J.Path)
    requires Means(h, m) && Known(root, m) && Stands(h, root, b, q, Object(cur))
    ensures cur in h || cur in b.own
  {
    WalkIsAt(h, m, root, q);
  }

  lemma Around(p: J.Path, i: nat)
    requires i < |p|
    ensures p == p[..i] + [p[i]] + p[i + 1..] && p[..i] + [p[i]] == p[..i + 1]
    ensures i + 1 == |p| ==> p == p[..i] + [p[i]]
  {
  }

  /** The dictionary that is to hold the last key of `p`, with everything on the way created. */
  method Reach(
    target: Dict, p: seq<string>, ghost h: Snapshot, ghost m: Meaning, ghost root: Value, ghost b: Build)
    returns (cur: Dict, ghost b': Build)
    requires Holds(h) && Holds(b.own) && Means(h, m) && Known(root, m) && BuildOk(h, root, b)
    requires target in b.own && b.pathOf[target] == [] && p != [] && Walk(h, root, p).Some?
    modifies b.own.Keys
    ensures Holds(h) && Holds(b'.own) && BuildOk(h, root, b')
    ensures forall f :: f in b'.own ==> f in b.own || fresh(f)
    ensures Grows(b, b', p) && Stands(h, root, b', p[..|p| - 1], Object(cur))
    ensures cur in h || cur in b'.own
  {
    cur, b' := target, b;
    for i := 0 to |p| - 1
      invariant Holds(h) && Holds(b'.own) && BuildOk(h, root, b')
      invariant forall f :: f in b'.own ==> f in b.own || fresh(f)
      invariant Grows(b, b', p) && Stands(h, root, b', p[..i], Object(cur))
    {
      var next;
      Around(p, i);
      Around(p, i + 1);
      next, b' := Descend(cur, p[i], h, m, root, b', p[..i], p[i + 1..]);
      StandsIsDict(h, m, root, b', p[..i + 1], next, p[i + 1], p[i + 2..]);
      cur := next.dict;
    }
    Around(p, |p| - 1);
    StandsSomewhere(h, m, root, b', p[..|p| - 1], cur, p);
  }

  /**
   Share the value at `segments` below the source's entry for `key` at the same path of the result. No
   dictionary of the source changes, even when the walk leads into one.
   */
  method SetNested(
    target: Dict, key: string, segments: seq<string>, source: Value,
    ghost h: Snapshot, ghost m: Meaning, ghost root: Value, ghost b: Build)
    returns (ghost b': Build)
    requires Holds(h) && Holds(b.own) && Means(h, m) && Known(root, m) && BuildOk(h, root, b)
    requires target in b.own && b.pathOf[target] == [] && Walk(h, root, [key]) == Some(source)
    modifies h.Keys, b.own.Keys
    ensures Holds(h) && Holds(b'.own) && BuildOk(h, root, b')
    ensures target in b'.own && b'.pathOf[target] == []
    ensures forall f :: f in b'.own ==> f in b.own || fresh(f)
    ensures
      b'.shape ==
      if segments != [] && Walk(h, root, [key] + segments).Some? then Insert(b.shape, [key] + segments) else b.shape
  {
    b' := b;
    if segments == [] {
      return;
    }
    var node := Find(source, segments, h, m, root, [key]);
    if node.None? {
      return;
    }
    var p := [key] + segments;
    var cur;
    cur, b' := Reach(target, p, h, m, root, b);
    Around(p, |segments|);
    var last := segments[|segments| - 1];
    ghost var reached := b';
    PlacedOk(h, m, root, reached, cur, last, node.value, p[..|segments|]);
    Place(cur, last, node.value, h, m, root, reached, p[..|segments|]);
    b' := Placed(reached, cur, last, node.value);
    TargetStays(reached, cur, last, node.value, target);
    forall f | f in b'.own ensures f in reached.own { PlacedEntries(reached, cur, last, node.value, f); }
  }
}
