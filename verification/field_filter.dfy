/** The field filter on payloads held in shared, mutable dictionaries. */
module FieldFilter {
  import opened Common
  import opened JsonHeap
  import opened PartialCopy
  import opened FinishedCopy
  import opened FieldRules
  import opened Trie
  import J = Json
  import DotPath

  datatype NestedPath = NestedPath(root: string, segments: seq<string>)

  // The rules that parsed parts stand for

  function NestedPaths(nested: set<NestedPath>): set<J.Path> {
    set n | n in nested && n.segments != [] :: [n.root] + n.segments
  }

  function FieldSets(arrays: map<string, seq<string>>): map<string, set<string>> {
    map root | root in arrays :: Elements(arrays[root])
  }

  function RulesFrom(top: set<string>, nested: seq<NestedPath>, arrays: map<string, seq<string>>): Rules {
    Rules(Keys(top) + NestedPaths(Elements(nested)), FieldSets(arrays))
  }

  // Building the part that plain and nested paths select

  /** The result so far: exactly these paths of the source are shared. */
  ghost predicate Copying(h: Snapshot, m: Meaning, root: Value, b: Build, result: Dict, paths: set<J.Path>) {
    && Means(h, m) && Known(root, m) && BuildOk(h, root, b)
    && result in b.own && b.pathOf[result] == []
    && Represents(b.shape, paths) && Fits(b.shape, JsonOf(root, m))
  }

  lemma CopyingOn(h: Snapshot, m: Meaning, root: Value, b: Build, b': Build, result: Dict, paths: set<J.Path>, p: J.Path)
    requires Copying(h, m, root, b, result, paths) && BuildOk(h, root, b')
    requires result in b'.own && b'.pathOf[result] == []
    requires Walk(h, root, p).Some? && b'.shape == Insert(b.shape, p)
    ensures J.Present(JsonOf(root, m), p) && Copying(h, m, root, b', result, paths + {p})
  {
    WalkIsAt(h, m, root, p);
    InsertRepresents(b.shape, paths, p);
    InsertFits(b.shape, JsonOf(root, m), p);
  }

  lemma SharedEntry(
    h: Snapshot, m: Meaning, d: Dict, b: Build, result: Dict, paths: set<J.Path>, key: string)
    requires Copying(h, m, Object(d), b, result, paths) && d in h && key in h[d]
    ensures
      var b' := Placed(b, result, key, h[d][key]);
      b'.own.Keys <= b.own.Keys && Copying(h, m, Object(d), b', result, paths + {[key]})
  {
    var b' := Placed(b, result, key, h[d][key]);
    OneStep(h, m, d, key);
    assert [] + [key] == [key];
    PlacedOk(h, m, Object(d), b, result, key, h[d][key], []);
    TargetStays(b, result, key, h[d][key], result);
    forall f | f in b'.own ensures f in b.own { PlacedEntries(b, result, key, h[d][key], f); }
    CopyingOn(h, m, Object(d), b, b', result, paths, [key]);
  }

  method CopyKey(
    d: Dict, result: Dict, key: string,
    ghost h: Snapshot, ghost m: Meaning, ghost b: Build, ghost keys: set<string>)
    returns (ghost b': Build)
    requires d in h && Means(h, m) && Holds(h) && Holds(b.own)
    requires Copying(h, m, Object(d), b, result, J.PresentOnly(m[d], Keys(keys)))
    modifies result
    ensures Holds(h) && Holds(b'.own) && b'.own.Keys <= b.own.Keys
    ensures Copying(h, m, Object(d), b', result, J.PresentOnly(m[d], Keys(keys + {key})))
  {
    b' := b;
    OneMoreKey(m[d], keys, key);
    OneStep(h, m, d, key);
    if key in d.entries {
      assert [] + [key] == [key];
      Place(result, key, d.entries[key], h, m, Object(d), b, []);
      SharedEntry(h, m, d, b, result, J.PresentOnly(m[d], Keys(keys)), key);
      b' := Placed(b, result, key, h[d][key]);
    }
  }

  method CopyTopKeys(d: Dict, top: set<string>, result: Dict, ghost h: Snapshot, ghost m: Meaning, ghost b: Build)
    returns (ghost b': Build)
    requires d in h && Holds(h) && Holds(b.own) && Copying(h, m, Object(d), b, result, {})
    modifies result
    ensures Holds(h) && Holds(b'.own) && b'.own.Keys <= b.own.Keys
    ensures Copying(h, m, Object(d), b', result, J.PresentOnly(m[d], Keys(top)))
  {
    b' := b;
    var rest := top;
    ghost var done := {};
    assert J.PresentOnly(m[d], Keys({})) == {};
    while rest != {}
      invariant done + rest == top && Holds(h) && Holds(b'.own) && b'.own.Keys <= b.own.Keys
      invariant Copying(h, m, Object(d), b', result, J.PresentOnly(m[d], Keys(done)))
    {
      var key :| key in rest;
      b' := CopyKey(d, result, key, h, m, b', done);
      OneMoved(done, rest, key);
      done := done + {key};
      rest := rest - {key};
    }
    assert done == top;
  }

  lemma OneMoved(done: set<string>, rest: set<string>, x: string)
    requires x in rest
    ensures done + {x} + (rest - {x}) == done + rest
  {
  }

  lemma OneMoreKey(j: J.Json, keys: set<string>, key: string)
    ensures
      var more, paths := J.PresentOnly(j, Keys(keys + {key})), J.PresentOnly(j, Keys(keys));
      if J.Present(j, [key]) then more == paths + {[key]} else more == paths
  {
    assert Keys(keys + {key}) == Keys(keys) + {[key]};
  }

  lemma OneStep(h: Snapshot, m: Meaning, d: Dict, key: string)
    requires Means(h, m) && d in h
    ensures Walk(h, Object(d), [key]) == if key in h[d] then Some(h[d][key]) else None
    ensures J.Present(m[d], [key]) <==> key in h[d]
  {
    WalkIsAt(h, m, Object(d), [key]);
  }

  method CopyNested(
    d: Dict, nested: seq<NestedPath>, result: Dict,
    ghost h: Snapshot, ghost m: Meaning, ghost b: Build, ghost base: set<J.Path>)
    returns (ghost b': Build)
    requires d in h && Means(h, m) && Holds(h) && Holds(b.own)
    requires Copying(h, m, Object(d), b, result, J.PresentOnly(m[d], base))
    modifies h.Keys, b.own.Keys
    ensures Holds(h) && Holds(b'.own) && forall f :: f in b'.own ==> f in b.own || fresh(f)
    ensures Copying(h, m, Object(d), b', result, J.PresentOnly(m[d], base + NestedPaths(Elements(nested))))
  {
    b' := b;
    assert NestedPaths(Elements(nested[..0])) == {};
    assert base + {} == base;
    ghost var paths := J.PresentOnly(m[d], base);
    for i := 0 to |nested|
      invariant Holds(h) && Holds(b'.own) && forall f :: f in b'.own ==> f in b.own || fresh(f)
      invariant paths == NestedSoFar(m[d], base, nested, i) && Copying(h, m, Object(d), b', result, paths)
    {
      var n := nested[i];
      OneStep(h, m, d, n.root);
      OneMoreNested(h, m, d, base, nested, i);
      if n.root in d.entries {
        ghost var before := b';
        b' := SetNested(result, n.root, n.segments, d.entries[n.root], h, m, Object(d), before);
        if n.segments != [] && Walk(h, Object(d), [n.root] + n.segments).Some? {
          CopyingOn(h, m, Object(d), before, b', result, paths, [n.root] + n.segments);
        }
      }
      paths := NestedSoFar(m[d], base, nested, i + 1);
    }
    assert nested[..|nested|] == nested;
  }

  ghost function NestedSoFar(j: J.Json, base: set<J.Path>, nested: seq<NestedPath>, i: nat): set<J.Path>
    requires i <= |nested|
  {
    J.PresentOnly(j, base + NestedPaths(Elements(nested[..i])))
  }

  lemma OneMoreNested(h: Snapshot, m: Meaning, d: Dict, base: set<J.Path>, nested: seq<NestedPath>, i: nat)
    requires i < |nested| && Means(h, m) && d in h
    ensures
      var n, p := nested[i], [nested[i].root] + nested[i].segments;
      var paths, more := NestedSoFar(m[d], base, nested, i), NestedSoFar(m[d], base, nested, i + 1);
      && (Walk(h, Object(d), p).Some? ==> n.root in h[d])
      && if n.segments != [] && Walk(h, Object(d), p).Some? then more == paths + {p} else more == paths
  {
    var n, p := nested[i], [nested[i].root] + nested[i].segments;
    PrefixStep(nested, i);
    assert Elements(nested[..i + 1]) == Elements(nested[..i]) + {n};
    assert NestedPaths(Elements(nested[..i + 1])) ==
      NestedPaths(Elements(nested[..i])) + if n.segments != [] then {p} else {};
    WalkIsAt(h, m, Object(d), p);
  }

  // The dictionaries the code has made so far, beside the source's

  /** The later snapshot has everything the earlier one had, unchanged. */
  ghost predicate Continues(h: Snapshot, m: Meaning, live: Snapshot, lm: Meaning) {
    && Means(live, lm) && Extends(m, lm) && forall d :: d in h ==> d in live && live[d] == h[d]
  }

  lemma ContinuesOn(h: Snapshot, m: Meaning, mid: Snapshot, mm: Meaning, live: Snapshot, lm: Meaning)
    requires Continues(h, m, mid, mm) && Continues(mid, mm, live, lm)
    ensures Continues(h, m, live, lm)
  {
  }

  lemma NewCopy(h: Snapshot, m: Meaning, d: Dict, result: Dict)
    requires Means(h, m) && d in h && result !in h
    ensures Copying(h, m, Object(d), Build(map[result := map[]], map[result := []], EMPTY), result, {})
  {
    var b := Build(map[result := map[]], map[result := []], EMPTY);
    assert DictOk(h, Object(d), b.shape, b.pathOf, b.own[result], []);
  }

  lemma Finished(h: Snapshot, m: Meaning, root: Value, b: Build, result: Dict, paths: set<J.Path>)
    requires Copying(h, m, root, b, result, paths)
    ensures
      var live, lm := Live(h, b, result), LiveMeaning(h, m, root, b, result);
      && result !in live && Continues(h, m, live, lm)
      && (forall f :: f in live && f !in h ==> f in b.own && live[f] == b.own[f])
      && AllKnown(b.own[result], lm)
      && J.Object(FieldsOf(b.own[result], lm)) == J.Project(JsonOf(root, m), paths)
  {
    FinishedMeans(h, m, root, b, result, paths);
  }

  method StartCopy(d: Dict, ghost h: Snapshot, ghost m: Meaning) returns (result: Dict, ghost b: Build)
    requires d in h && Means(h, m) && Holds(h)
    ensures fresh(result) && Holds(b.own) && b.own.Keys == {result} && Copying(h, m, Object(d), b, result, {})
  {
    result := new Dict();
    b := Build(map[result := map[]], map[result := []], EMPTY);
    NewCopy(h, m, d, result);
  }

  method CopyFields(d: Dict, top: set<string>, nested: seq<NestedPath>, ghost h: Snapshot, ghost m: Meaning)
    returns (result: Dict, ghost b: Build)
    requires d in h && Means(h, m) && Holds(h)
    modifies h.Keys
    ensures fresh(result) && Holds(h) && Holds(b.own) && forall f :: f in b.own ==> fresh(f)
    ensures
      Copying(h, m, Object(d), b, result, J.PresentOnly(m[d], Keys(top) + NestedPaths(Elements(nested))))
  {
    result, b := StartCopy(d, h, m);
    b := CopyTopKeys(d, top, result, h, m, b);
    b := CopyNested(d, nested, result, h, m, b, Keys(top));
  }

  lemma AddDict(h: Snapshot, m: Meaning, d: Dict, entries: map<string, Value>)
    requires Means(h, m) && d !in h && AllKnown(entries, m)
    ensures Continues(h, m, h[d := entries], m[d := J.Object(FieldsOf(entries, m))])
  {
    var more := m[d := J.Object(FieldsOf(entries, m))];
    FieldsExtend(entries, m, more);
    OldStillMean(h, m, more);
    assert h[d := entries].Keys == more.Keys;
  }

  lemma HoldsWith(h: Snapshot, d: Dict)
    requires Holds(h)
    ensures Holds(h[d := d.entries])
  {
  }

  // Items of lists

  lemma PickedEntries(h: Snapshot, m: Meaning, d: Dict, keys: set<string>)
    requires Means(h, m) && d in h
    ensures
      var picked := map k | k in h[d] && k in keys :: h[d][k];
      AllKnown(picked, m) && J.Object(FieldsOf(picked, m)) == Pick(m[d], keys)
  {
    var picked := map k | k in h[d] && k in keys :: h[d][k];
    PickFields(m[d], keys);
    assert FieldsOf(picked, m) == Pick(m[d], keys).fields;
  }

  method PickItem(item: Value, keys: set<string>, ghost h: Snapshot, ghost m: Meaning)
    returns (out: Value, ghost live: Snapshot, ghost lm: Meaning)
    requires Means(h, m) && Holds(h) && Known(item, m)
    ensures Holds(live) && Continues(h, m, live, lm) && forall f :: f in live ==> f in h || fresh(f)
    ensures Known(out, lm) && JsonOf(out, lm) == Pick(JsonOf(item, m), keys)
  {
    out, live, lm := item, h, m;
    if item.Object? {
      PickedEntries(h, m, item.dict, keys);
      var picked := new Dict();
      picked.entries := map k | k in item.dict.entries && k in keys :: item.dict.entries[k];
      AddDict(h, m, picked, picked.entries);
      out, live, lm := Object(picked), h[picked := picked.entries], m[picked := J.Object(FieldsOf(picked.entries, m))];
    }
  }

  method NarrowItems(items: seq<Value>, keys: set<string>, ghost h: Snapshot, ghost m: Meaning)
    returns (out: seq<Value>, ghost live: Snapshot, ghost lm: Meaning)
    requires Means(h, m) && Holds(h) && Known(Array(items), m)
    ensures Holds(live) && Continues(h, m, live, lm) && forall f :: f in live ==> f in h || fresh(f)
    ensures Known(Array(out), lm) && JsonOf(Array(out), lm) == Narrow(JsonOf(Array(items), m), keys)
    ensures |out| == |items|
    ensures forall i :: 0 <= i < |items| ==> JsonOf(out[i], lm) == Pick(JsonOf(items[i], m), keys)
  {
    out, live, lm := [], h, m;
    ghost var values: seq<J.Json> := [];
    for i := 0 to |items|
      invariant Holds(live) && Continues(h, m, live, lm) && forall f :: f in live ==> f in h || fresh(f)
      invariant |values| == i && AreMeant(out, lm, values)
      invariant forall n :: 0 <= n < i ==> values[n] == Pick(JsonOf(items[n], m), keys)
    {
      MeaningExtends(items[i], m, lm);
      var item;
      ghost var before, meant := live, lm;
      item, live, lm := PickItem(items[i], keys, live, lm);
      ContinuesOn(h, m, before, meant, live, lm);
      OneMoreMeant(out, meant, lm, values, item);
      out, values := out + [item], values + [JsonOf(item, lm)];
    }
  }

  /** These are the values of the items. */
  ghost predicate AreMeant(items: seq<Value>, m: Meaning, values: seq<J.Json>) {
    |items| == |values| && forall i :: 0 <= i < |items| ==> Known(items[i], m) && JsonOf(items[i], m) == values[i]
  }

  lemma OneMoreMeant(items: seq<Value>, m: Meaning, more: Meaning, values: seq<J.Json>, item: Value)
    requires AreMeant(items, m, values) && Extends(m, more) && Known(item, more)
    ensures AreMeant(items + [item], more, values + [JsonOf(item, more)])
  {
    forall i | 0 <= i < |items| ensures Known(items[i], more) && JsonOf(items[i], more) == values[i] {
      MeaningExtends(items[i], m, more);
    }
  }

  // Roots that an array mark names

  /** The entries that the roots visited so far put into the result. */
  ghost function NarrowedAt(
    fields: map<string, J.Json>, arrays: map<string, seq<string>>, roots: set<string>): map<string, J.Json>
  {
    map root | root in roots && root in arrays && root in fields :: Narrow(fields[root], Elements(arrays[root]))
  }

  method NarrowValue(value: Value, fields: seq<string>, ghost h: Snapshot, ghost m: Meaning)
    returns (out: Value, ghost live: Snapshot, ghost lm: Meaning)
    requires Means(h, m) && Holds(h) && Known(value, m)
    ensures Holds(live) && Continues(h, m, live, lm) && forall f :: f in live ==> f in h || fresh(f)
    ensures Known(out, lm) && JsonOf(out, lm) == Narrow(JsonOf(value, m), Elements(fields))
  {
    out, live, lm := value, h, m;
    if value.Array? {
      var items;
      items, live, lm := NarrowItems(value.items, Elements(fields), h, m);
      out := Array(items);
    }
  }

  lemma OneMoreRoot(fields: map<string, J.Json>, arrays: map<string, seq<string>>, done: set<string>, root: string)
    requires root in arrays
    ensures
      NarrowedAt(fields, arrays, done + {root}) ==
      if root in fields then NarrowedAt(fields, arrays, done)[root := Narrow(fields[root], Elements(arrays[root]))]
      else NarrowedAt(fields, arrays, done)
  {
  }

  lemma EveryRootNarrowed(fields: map<string, J.Json>, arrays: map<string, seq<string>>)
    ensures NarrowedAt(fields, arrays, arrays.Keys) == Narrowed(fields, FieldSets(arrays))
  {
  }

  lemma RootStep(
    base: map<string, J.Json>, fields: map<string, J.Json>, arrays: map<string, seq<string>>, done: set<string>,
    root: string)
    requires root in arrays
    ensures
      var now, next := base + NarrowedAt(fields, arrays, done), base + NarrowedAt(fields, arrays, done + {root});
      next == if root in fields then now[root := Narrow(fields[root], Elements(arrays[root]))] else now
  {
    OneMoreRoot(fields, arrays, done, root);
  }

  lemma FieldsWith(entries: map<string, Value>, m: Meaning, more: Meaning, k: string, v: Value)
    requires AllKnown(entries, m) && Extends(m, more) && Known(v, more)
    ensures AllKnown(entries[k := v], more)
    ensures FieldsOf(entries[k := v], more) == FieldsOf(entries, m)[k := JsonOf(v, more)]
  {
    FieldsExtend(entries, m, more);
  }

  /** The entries mean these fields. */
  ghost predicate Mean(entries: map<string, Value>, m: Meaning, fields: map<string, J.Json>) {
    AllKnown(entries, m) && FieldsOf(entries, m) == fields
  }

  method NarrowRoot(
    d: Dict, root: string, arrays: map<string, seq<string>>, result: Dict,
    ghost h: Snapshot, ghost m: Meaning, ghost base: map<string, J.Json>, ghost done: set<string>)
    returns (ghost live: Snapshot, ghost lm: Meaning)
    requires Means(h, m) && Holds(h) && d in h && result !in h && root in arrays
    requires Mean(result.entries, m, base + NarrowedAt(m[d].fields, arrays, done))
    modifies result
    ensures Holds(live) && Continues(h, m, live, lm) && result !in live
    ensures forall f :: f in live ==> f in h || fresh(f)
    ensures Mean(result.entries, lm, base + NarrowedAt(m[d].fields, arrays, done + {root}))
  {
    live, lm := h, m;
    RootStep(base, m[d].fields, arrays, done, root);
    if root in d.entries {
      var value;
      value, live, lm := NarrowValue(d.entries[root], arrays[root], h, m);
      FieldsWith(result.entries, m, lm, root, value);
      result.entries := result.entries[root := value];
    }
  }

  method NarrowRoots(
    d: Dict, arrays: map<string, seq<string>>, result: Dict,
    ghost h: Snapshot, ghost m: Meaning, ghost base: map<string, J.Json>)
    returns (ghost live: Snapshot, ghost lm: Meaning)
    requires Means(h, m) && Holds(h) && d in h && result !in h
    requires Mean(result.entries, m, base)
    modifies result
    ensures Holds(live) && Continues(h, m, live, lm) && result !in live
    ensures forall f :: f in live ==> f in h || fresh(f)
    ensures Mean(result.entries, lm, base + NarrowedAt(m[d].fields, arrays, arrays.Keys))
  {
    live, lm := h, m;
    assert NarrowedAt(m[d].fields, arrays, {}) == map[];
    assert base + map[] == base;
    var rest := arrays.Keys;
    ghost var done := {};
    while rest != {}
      invariant done + rest == arrays.Keys
      invariant Holds(live) && Continues(h, m, live, lm) && result !in live
      invariant forall f :: f in live ==> f in h || fresh(f)
      invariant Mean(result.entries, lm, base + NarrowedAt(m[d].fields, arrays, done))
    {
      var root :| root in rest;
      ghost var before, meant := live, lm;
      live, lm := NarrowRoot(d, root, arrays, result, live, lm, base, done);
      ContinuesOn(h, m, before, meant, live, lm);
      OneMoved(done, rest, root);
      done := done + {root};
      rest := rest - {root};
    }
    assert done == arrays.Keys;
  }

  /** The copy as it stands when the loops over keys and nested paths are done. */
  method CopyFinished(d: Dict, top: set<string>, nested: seq<NestedPath>, ghost h: Snapshot, ghost m: Meaning)
    returns (result: Dict, ghost live: Snapshot, ghost lm: Meaning, ghost base: map<string, J.Json>)
    requires d in h && Means(h, m) && Holds(h)
    modifies h.Keys
    ensures fresh(result) && result !in live && Holds(live) && Continues(h, m, live, lm)
    ensures forall f :: f in live ==> f in h || fresh(f)
    ensures Mean(result.entries, lm, base)
    ensures J.Object(base) == J.Project(m[d], J.PresentOnly(m[d], Keys(top) + NestedPaths(Elements(nested))))
  {
    ghost var b;
    result, b := CopyFields(d, top, nested, h, m);
    Finished(h, m, Object(d), b, result, J.PresentOnly(m[d], Keys(top) + NestedPaths(Elements(nested))));
    live, lm := Live(h, b, result), LiveMeaning(h, m, Object(d), b, result);
    base := FieldsOf(result.entries, lm);
  }

  /** A filtered copy of a dictionary of the source. The source keeps its value. */
  method FilterDict(
    d: Dict, top: set<string>, nested: seq<NestedPath>, arrays: map<string, seq<string>>,
    ghost h: Snapshot, ghost m: Meaning)
    returns (result: Dict, ghost live: Snapshot, ghost lm: Meaning)
    requires d in h && Means(h, m) && Holds(h)
    modifies h.Keys
    ensures Holds(live) && Continues(h, m, live, lm) && forall f :: f in live ==> f in h || fresh(f)
    ensures fresh(result) && result in live && lm[result] == Filtered(m[d], RulesFrom(top, nested, arrays))
  {
    ghost var copied, meant, base;
    result, copied, meant, base := CopyFinished(d, top, nested, h, m);
    live, lm := NarrowRoots(d, arrays, result, copied, meant, base);
    ContinuesOn(h, m, copied, meant, live, lm);
    EveryRootNarrowed(m[d].fields, arrays);
    AddResult(h, m, live, lm, result, result.entries);
    HoldsWith(live, result);
    live, lm := live[result := result.entries], lm[result := J.Object(FieldsOf(result.entries, lm))];
  }

  lemma AddResult(
    h: Snapshot, m: Meaning, live: Snapshot, lm: Meaning, result: Dict, entries: map<string, Value>)
    requires Continues(h, m, live, lm) && result !in live && AllKnown(entries, lm)
    ensures Continues(h, m, live[result := entries], lm[result := J.Object(FieldsOf(entries, lm))])
  {
    AddDict(live, lm, result, entries);
    ContinuesOn(h, m, live, lm, live[result := entries], lm[result := J.Object(FieldsOf(entries, lm))]);
  }

  // Reading the filter

  lemma OneMoreField(filter: set<string>, f: string)
    requires Parse(f).Field?
    ensures RulesOf(filter + {f}) == Rules(Paths(filter) + {Parse(f).path}, Arrays(filter))
  {
    assert Paths(filter + {f}) == Paths(filter) + {Parse(f).path};
    SameArrays(filter, f);
  }

  lemma SameArrays(filter: set<string>, f: string)
    requires Parse(f).Field?
    ensures Arrays(filter + {f}) == Arrays(filter)
  {
    assert Roots(filter + {f}) == Roots(filter);
    forall root | root in Roots(filter) ensures ItemFields(filter + {f}, root) == ItemFields(filter, root) {
    }
  }

  lemma OneMoreItemField(filter: set<string>, f: string)
    requires Parse(f).ItemField?
    ensures
      var root, fields := Parse(f).root, ItemFields(filter, Parse(f).root);
      RulesOf(filter + {f}) == Rules(Paths(filter), Arrays(filter)[root := fields + {Parse(f).field}])
    ensures Parse(f).root !in Roots(filter) ==> ItemFields(filter, Parse(f).root) == {}
  {
    var r, more := Parse(f).root, filter + {f};
    assert Paths(more) == Paths(filter);
    assert Roots(more) == Roots(filter) + {r};
    var expected := Arrays(filter)[r := ItemFields(filter, r) + {Parse(f).field}];
    forall root | root in Roots(more) ensures Arrays(more)[root] == expected[root] {
      ItemFieldsWith(filter, f, root);
    }
    SameMap(Arrays(more), expected);
  }

  lemma ItemFieldsWith(filter: set<string>, f: string, root: string)
    requires Parse(f).ItemField?
    ensures
      var fields, more := ItemFields(filter, root), ItemFields(filter + {f}, root);
      if root == Parse(f).root then more == fields + {Parse(f).field} else more == fields
  {
  }

  lemma OneMoreTop(top: set<string>, nested: seq<NestedPath>, arrays: map<string, seq<string>>, key: string)
    ensures
      var r := RulesFrom(top, nested, arrays);
      RulesFrom(top + {key}, nested, arrays) == r.(paths := r.paths + {[key]})
  {
    assert Keys(top + {key}) == Keys(top) + {[key]};
  }

  lemma OneMorePath(top: set<string>, nested: seq<NestedPath>, arrays: map<string, seq<string>>, n: NestedPath)
    requires n.segments != []
    ensures
      var r := RulesFrom(top, nested, arrays);
      RulesFrom(top, nested + [n], arrays) == r.(paths := r.paths + {[n.root] + n.segments})
  {
    assert Elements(nested + [n]) == Elements(nested) + {n};
    assert NestedPaths(Elements(nested) + {n}) == NestedPaths(Elements(nested)) + {[n.root] + n.segments};
  }

  lemma OneMoreArray(
    top: set<string>, nested: seq<NestedPath>, arrays: map<string, seq<string>>, root: string, field: string)
    ensures
      var r := RulesFrom(top, nested, arrays);
      var before := if root in arrays then arrays[root] else [];
      && RulesFrom(top, nested, arrays[root := before + [field]]) ==
         r.(arrays := r.arrays[root := Elements(before) + {field}])
  {
    var before := if root in arrays then arrays[root] else [];
    assert Elements(before + [field]) == Elements(before) + {field};
  }

  method ParseField(
    path: string, top: set<string>, nested: seq<NestedPath>, ghost arrays: map<string, seq<string>>,
    ghost filter: set<string>)
    returns (top': set<string>, nested': seq<NestedPath>)
    requires Parse(path).Field? && RulesFrom(top, nested, arrays) == RulesOf(filter)
    ensures RulesFrom(top', nested', arrays) == RulesOf(filter + {path})
  {
    OneMoreField(filter, path);
    var dotted := DotPath.HasUnescapedDot(path);
    var segments := DotPath.SplitEscapedDotPath(path);
    if dotted {
      var n := NestedPath(segments[0], segments[1..]);
      assert segments == [n.root] + n.segments;
      OneMorePath(top, nested, arrays, n);
      return top, nested + [n];
    } else {
      assert segments == [segments[0]];
      OneMoreTop(top, nested, arrays, segments[0]);
      return top + {segments[0]}, nested;
    }
  }

  method ParseItemField(
    path: string, mark: nat, ghost top: set<string>, ghost nested: seq<NestedPath>, arrays: map<string, seq<string>>,
    ghost filter: set<string>)
    returns (arrays': map<string, seq<string>>)
    requires FirstMark(path) == Some(mark) && RulesFrom(top, nested, arrays) == RulesOf(filter)
    ensures RulesFrom(top, nested, arrays') == RulesOf(filter + {path})
  {
    var root, rest := path[..mark], path[mark + 3..];
    OneMoreItemField(filter, path);
    OneMoreArray(top, nested, arrays, root, rest);
    assert Elements<string>([]) == {};
    assert root in arrays <==> root in FieldSets(arrays);
    return arrays[root := (if root in arrays then arrays[root] else []) + [rest]];
  }

  method ParseFilter(filter: seq<string>)
    returns (top: set<string>, nested: seq<NestedPath>, arrays: map<string, seq<string>>)
    ensures RulesFrom(top, nested, arrays) == RulesOf(Elements(filter))
  {
    top, nested, arrays := {}, [], map[];
    for i := 0 to |filter|
      invariant RulesFrom(top, nested, arrays) == RulesOf(Elements(filter[..i]))
    {
      var path := filter[i];
      ElementsStep(filter, i);
      var mark := FirstMark(path);
      if mark.Some? {
        arrays := ParseItemField(path, mark.value, top, nested, arrays, Elements(filter[..i]));
      } else {
        top, nested := ParseField(path, top, nested, arrays, Elements(filter[..i]));
      }
    }
    assert filter[..|filter|] == filter;
  }

  lemma ElementsStep<T(!new)>(s: seq<T>, i: nat)
    requires i < |s|
    ensures Elements(s[..i + 1]) == Elements(s[..i]) + {s[i]}
  {
    PrefixStep(s, i);
  }

  // The whole filter

  lemma AllInner(top: set<string>, nested: seq<NestedPath>, arrays: map<string, seq<string>>, filter: set<string>)
    requires RulesFrom(top, nested, arrays) == RulesOf(filter)
    ensures RulesFrom(top + AllItemFields(FieldSets(arrays)), nested, arrays) == ItemRules(filter)
  {
    var inner := AllItemFields(FieldSets(arrays));
    assert Keys(top + inner) == Keys(top) + Keys(inner);
  }

  /** Without nested paths and array marks, the filter picks keys. */
  lemma FlatFilter(top: set<string>, j: J.Json)
    ensures Filtered(j, RulesFrom(top, [], map[])) == Pick(j, top)
  {
    if j.Object? {
      var r := RulesFrom(top, [], map[]);
      assert r.paths == Keys(top);
      var present := top * j.fields.Keys;
      forall k: string ensures J.Present(j, [k]) <==> k in j.fields { assert [k][1..] == []; }
      assert J.PresentOnly(j, Keys(top)) == Keys(present);
      PickFields(j, top);
      PickFields(j, present);
    }
  }

  method FilterItems(
    items: seq<Value>, top: set<string>, nested: seq<NestedPath>, arrays: map<string, seq<string>>,
    ghost h: Snapshot, ghost m: Meaning)
    returns (out: seq<Value>, ghost live: Snapshot, ghost lm: Meaning)
    requires Means(h, m) && Holds(h) && Known(Array(items), m)
    modifies h.Keys
    ensures Holds(live) && Continues(h, m, live, lm) && forall f :: f in live ==> f in h || fresh(f)
    ensures |out| == |items| && Known(Array(out), lm)
    ensures
      forall i :: 0 <= i < |items| ==> JsonOf(out[i], lm) == Filtered(JsonOf(items[i], m), RulesFrom(top, nested, arrays))
  {
    out, live, lm := [], h, m;
    ghost var values: seq<J.Json> := [];
    for i := 0 to |items|
      invariant Holds(live) && Continues(h, m, live, lm) && forall f :: f in live ==> f in h || fresh(f)
      invariant |values| == i && AreMeant(out, lm, values)
      invariant forall n :: 0 <= n < i ==> values[n] == Filtered(JsonOf(items[n], m), RulesFrom(top, nested, arrays))
    {
      var item;
      ghost var before, meant := live, lm;
      item, live, lm := FilterItem(items[i], top, nested, arrays, h, m, live, lm);
      ContinuesOn(h, m, before, meant, live, lm);
      OneMoreMeant(out, meant, lm, values, item);
      out, values := out + [item], values + [JsonOf(item, lm)];
    }
  }

  method FilterItem(
    item: Value, top: set<string>, nested: seq<NestedPath>, arrays: map<string, seq<string>>,
    ghost h: Snapshot, ghost m: Meaning, ghost live: Snapshot, ghost lm: Meaning)
    returns (out: Value, ghost live': Snapshot, ghost lm': Meaning)
    requires Means(h, m) && Known(item, m) && Holds(live) && Continues(h, m, live, lm)
    modifies live.Keys
    ensures Holds(live') && Continues(live, lm, live', lm') && forall f :: f in live' ==> f in live || fresh(f)
    ensures Known(out, lm') && JsonOf(out, lm') == Filtered(JsonOf(item, m), RulesFrom(top, nested, arrays))
  {
    MeaningExtends(item, m, lm);
    out, live', lm' := item, live, lm;
    if item.Object? {
      var result;
      result, live', lm' := FilterDict(item.dict, top, nested, arrays, live, lm);
      out := Object(result);
    }
  }

  method FilterList(
    items: seq<Value>, top: set<string>, nested: seq<NestedPath>, arrays: map<string, seq<string>>,
    ghost h: Snapshot, ghost m: Meaning)
    returns (out: seq<Value>, ghost live: Snapshot, ghost lm: Meaning)
    requires Means(h, m) && Holds(h) && Known(Array(items), m)
    modifies h.Keys
    ensures Holds(live) && Continues(h, m, live, lm) && forall f :: f in live ==> f in h || fresh(f)
    ensures |out| == |items| && Known(Array(out), lm)
    ensures
      forall i :: 0 <= i < |items| ==>
        JsonOf(out[i], lm) ==
        Filtered(JsonOf(items[i], m), RulesFrom(top + AllItemFields(FieldSets(arrays)), nested, arrays))
  {
    var allInner := top + AllItemFields(FieldSets(arrays));
    if nested == [] && arrays == map[] {
      out, live, lm := NarrowItems(items, top, h, m);
      assert allInner == top;
      forall i | 0 <= i < |items|
        ensures JsonOf(out[i], lm) == Filtered(JsonOf(items[i], m), RulesFrom(allInner, nested, arrays))
      {
        FlatFilter(top, JsonOf(items[i], m));
      }
    } else {
      out, live, lm := FilterItems(items, allInner, nested, arrays, h, m);
    }
  }

  /** The dictionaries of the payload end as they began; the result means the filtered payload. */
  method ApplyFieldFilter(payload: Value, filter: Option<seq<string>>, ghost h: Snapshot, ghost m: Meaning)
    returns (out: Value, ghost live: Snapshot, ghost lm: Meaning)
    requires Means(h, m) && Holds(h) && Known(payload, m)
    modifies h.Keys
    ensures Holds(h)
    ensures Holds(live) && Continues(h, m, live, lm) && forall f :: f in live ==> f in h || fresh(f)
    ensures Known(out, lm)
    ensures JsonOf(out, lm) == FilterJson(JsonOf(payload, m), if filter.Some? then Elements(filter.value) else {})
  {
    out, live, lm := payload, h, m;
    if filter == None || filter == Some([]) {
      return;
    }
    var top, nested, arrays := ParseFilter(filter.value);
    assert filter.value[0] in Elements(filter.value);
    if payload.Object? {
      var result;
      result, live, lm := FilterDict(payload.dict, top, nested, arrays, h, m);
      out := Object(result);
    } else if payload.Array? {
      AllInner(top, nested, arrays, Elements(filter.value));
      var items;
      items, live, lm := FilterList(payload.items, top, nested, arrays, h, m);
      out := Array(items);
    }
  }
}
