/**
 Merging of observed REST paths into the most general template that matches them.

 A dictionary of endpoints is a map to mutable endpoint objects together with the
 order in which an iteration visits its keys.
 */
module PathMerge {
  import opened Common
  import PathTemplate

  class Endpoint {
    var path: string
    var absoluteUrl: string
    var methods: set<string>
    var sources: set<string>
    var confidence: real

    constructor (value: EndpointValue)
      ensures Value() == value
    {
      path, absoluteUrl := value.path, value.absoluteUrl;
      methods, sources, confidence := value.methods, value.sources, value.confidence;
    }

    function Value(): EndpointValue
      reads this
    {
      EndpointValue(path, absoluteUrl, methods, sources, confidence)
    }

    /** Takes over the evidence of a subsumed endpoint; the other endpoint is only read. */
    method Update(other: Endpoint)
      modifies this
      ensures Value() == old(Absorb(Value(), other.Value()))
    {
      methods := methods + other.methods;
      sources := sources + other.sources;
      confidence := if confidence < other.confidence then other.confidence else confidence;
    }
  }

  /** What an endpoint object holds at one moment. */
  datatype EndpointValue = EndpointValue(
    path: string, absoluteUrl: string, methods: set<string>, sources: set<string>, confidence: real)

  function Absorb(a: EndpointValue, b: EndpointValue): EndpointValue {
    a.(methods := a.methods + b.methods,
       sources := a.sources + b.sources,
       confidence := if a.confidence < b.confidence then b.confidence else a.confidence)
  }

  function Snapshot(observed: map<string, Endpoint>): map<string, EndpointValue>
    reads observed.Values
  {
    map k | k in observed :: observed[k].Value()
  }

  // Matching

  function Clean(path: string): string { SplitOn(path, '?')[0] }

  function Segments(path: string): seq<string> { SplitOn(Clean(path), '/') }

  /** The number of placeholders, wherever in the path they stand. */
  function TemplateCount(path: string): nat { |PathTemplate.FindAll(Clean(path))| }

  /** A segment that becomes `[^/]+`; any other segment is matched literally. */
  predicate IsWildcard(segment: string) {
    segment != "" && segment[0] == '{' && segment[|segment| - 1] == '}'
  }

  predicate SegmentMatches(template: string, segment: string) {
    if IsWildcard(template) then segment != "" else template == segment
  }

  predicate Matches(template: string, path: string) {
    var t, s := Segments(template), Segments(path);
    |t| == |s| && forall i :: 0 <= i < |t| ==> SegmentMatches(t[i], s[i])
  }

  /** The template is strictly more general and matches the path. */
  predicate Subsumes(template: string, path: string) {
    TemplateCount(template) > TemplateCount(path) && Matches(template, path)
  }

  lemma {:induction false} SubsumesIsTransitive(a: string, b: string, c: string)
    requires Subsumes(a, b) && Subsumes(b, c)
    ensures Subsumes(a, c)
  {
    var x, y, z := Segments(a), Segments(b), Segments(c);
    forall i | 0 <= i < |x| ensures SegmentMatches(x[i], z[i]) {
      assert SegmentMatches(x[i], y[i]) && SegmentMatches(y[i], z[i]);
    }
  }

  // The merge target: the scan over sorted templates, and what it computes

  /** The first template of greatest count among those of `order` that subsume the path. */
  function Target(order: seq<string>, path: string): Option<string> {
    if order == [] then None
    else
      var best := Target(order[..|order| - 1], path);
      var t := order[|order| - 1];
      if Subsumes(t, path) && (best.None? || TemplateCount(t) > TemplateCount(best.value)) then Some(t) else best
  }

  /** A stable sort by descending count, as `list.sort(key=lambda x: -x[2])` does. */
  function SortMostGeneralFirst(templates: seq<string>): seq<string> {
    if templates == [] then []
    else InsertAfterPeers(SortMostGeneralFirst(templates[..|templates| - 1]), templates[|templates| - 1])
  }

  function InsertAfterPeers(sorted: seq<string>, t: string): seq<string> {
    if sorted == [] || TemplateCount(t) > TemplateCount(sorted[0]) then [t] + sorted
    else [sorted[0]] + InsertAfterPeers(sorted[1..], t)
  }

  /** The scan of the sorted templates, with its early exits. */
  function FirstMatch(sorted: seq<string>, path: string): Option<string> {
    if sorted == [] then None
    else if sorted[0] == path then FirstMatch(sorted[1..], path)
    else if TemplateCount(sorted[0]) <= TemplateCount(path) then None
    else if Matches(sorted[0], path) then Some(sorted[0])
    else FirstMatch(sorted[1..], path)
  }

  ghost predicate Descending(sorted: seq<string>) {
    forall i, j :: 0 <= i < j < |sorted| ==> TemplateCount(sorted[i]) >= TemplateCount(sorted[j])
  }

  lemma {:induction false} InsertKeepsDescending(sorted: seq<string>, t: string)
    requires Descending(sorted)
    ensures Descending(InsertAfterPeers(sorted, t))
    ensures forall x :: x in InsertAfterPeers(sorted, t) <==> x == t || x in sorted
  {
    if sorted == [] || TemplateCount(t) > TemplateCount(sorted[0]) {
    } else {
      var rest := InsertAfterPeers(sorted[1..], t);
      InsertKeepsDescending(sorted[1..], t);
      assert sorted == [sorted[0]] + sorted[1..];
      DescendingFrom(sorted[0], rest);
    }
  }

  lemma DescendingFrom(first: string, rest: seq<string>)
    requires Descending(rest) && forall x :: x in rest ==> TemplateCount(first) >= TemplateCount(x)
    ensures Descending([first] + rest)
  {
  }

  lemma {:induction false} FirstMatchIsAboveThePath(sorted: seq<string>, path: string)
    ensures var m := FirstMatch(sorted, path); m.Some? ==> m.value in sorted && Subsumes(m.value, path)
  {
    if sorted != [] { FirstMatchIsAboveThePath(sorted[1..], path); }
  }

  /** Inserting one template changes the scan's answer only if it beats the answer so far. */
  lemma {:induction false} FirstMatchAfterInsert(sorted: seq<string>, t: string, path: string)
    requires Descending(sorted)
    ensures
      var m := FirstMatch(sorted, path);
      FirstMatch(InsertAfterPeers(sorted, t), path) ==
      if Subsumes(t, path) && (m.None? || TemplateCount(t) > TemplateCount(m.value)) then Some(t) else m
  {
    FirstMatchIsAboveThePath(sorted, path);
    if sorted == [] || TemplateCount(t) > TemplateCount(sorted[0]) {
      assert ([t] + sorted)[1..] == sorted;
    } else {
      FirstMatchAfterInsert(sorted[1..], t, path);
      var rest := InsertAfterPeers(sorted[1..], t);
      assert ([sorted[0]] + rest)[1..] == rest;
    }
  }

  lemma {:induction false} ScanFindsTarget(templates: seq<string>, path: string)
    ensures Descending(SortMostGeneralFirst(templates))
    ensures FirstMatch(SortMostGeneralFirst(templates), path) == Target(templates, path)
  {
    if templates != [] {
      var init, t := templates[..|templates| - 1], templates[|templates| - 1];
      ScanFindsTarget(init, path);
      InsertKeepsDescending(SortMostGeneralFirst(init), t);
      FirstMatchAfterInsert(SortMostGeneralFirst(init), t, path);
    }
  }

  /** Position `i` holds the template to merge into: most general, and first among equals. */
  ghost predicate IsFirstBest(order: seq<string>, path: string, i: int) {
    && 0 <= i < |order|
    && Subsumes(order[i], path)
    && forall j :: 0 <= j < |order| && Subsumes(order[j], path) ==>
                     if j < i then TemplateCount(order[j]) < TemplateCount(order[i])
                     else TemplateCount(order[j]) <= TemplateCount(order[i])
  }

  lemma {:induction false} TargetIsFirstBest(order: seq<string>, path: string)
    ensures Target(order, path).None? <==> forall t :: t in order ==> !Subsumes(t, path)
    ensures
      var m := Target(order, path);
      m.Some? ==> exists i :: IsFirstBest(order, path, i) && order[i] == m.value
  {
    if order != [] {
      var n := |order| - 1;
      var init := order[..n];
      TargetIsFirstBest(init, path);
      assert order == init + [order[n]];
      var m := Target(order, path);
      if m.Some? {
        if m == Target(init, path) {
          var i :| IsFirstBest(init, path, i) && init[i] == m.value;
          assert IsFirstBest(order, path, i);
        } else {
          FirstBestAtEnd(order, path);
        }
      }
    }
  }

  lemma FirstBestAtEnd(order: seq<string>, path: string)
    requires order != []
    requires
      var n := |order| - 1;
      var best := Target(order[..n], path);
      && Subsumes(order[n], path)
      && (best.None? <==> forall t :: t in order[..n] ==> !Subsumes(t, path))
      && (best.Some? ==> TemplateCount(order[n]) > TemplateCount(best.value)
                         && exists i :: IsFirstBest(order[..n], path, i) && order[..n][i] == best.value)
    ensures IsFirstBest(order, path, |order| - 1)
  {
    var n := |order| - 1;
    forall j | 0 <= j < n && Subsumes(order[j], path)
      ensures TemplateCount(order[j]) < TemplateCount(order[n])
    {
      assert order[..n][j] == order[j] && order[j] in order[..n];
    }
  }

  /** A chosen target is never merged away itself. */
  lemma TargetSurvives(order: seq<string>, path: string)
    requires Target(order, path).Some?
    ensures Target(order, Target(order, path).value).None?
  {
    var t := Target(order, path).value;
    TargetIsFirstBest(order, path);
    TargetIsFirstBest(order, t);
    if Target(order, t).Some? {
      var u := Target(order, t).value;
      SubsumesIsTransitive(u, t, path);
    }
  }

  // What a merge computes

  /** The key under which the evidence of each observed path ends up. */
  function Homes(order: seq<string>): map<string, string> {
    map p | p in order :: var t := Target(order, p); if t.Some? then t.value else p
  }

  /** A home is an observed path that stays at home. */
  ghost predicate Settled(home: map<string, string>) {
    forall p :: p in home ==> home[p] in home && home[home[p]] == home[p]
  }

  lemma HomesAreSettled(order: seq<string>)
    ensures Settled(Homes(order))
    ensures forall p :: p in order ==> (Homes(order)[p] != p <==> Target(order, p).Some?)
  {
    forall p | p in order
      ensures var h := Homes(order); h[p] in h && h[h[p]] == h[p] && (h[p] != p <==> Target(order, p).Some?)
    {
      TargetIsFirstBest(order, p);
      if Target(order, p).Some? { TargetSurvives(order, p); }
    }
  }

  function MethodsOf(group: set<string>, before: map<string, EndpointValue>): set<string>
    requires group <= before.Keys
  {
    set p, m | p in group && m in before[p].methods :: m
  }

  function SourcesOf(group: set<string>, before: map<string, EndpointValue>): set<string>
    requires group <= before.Keys
  {
    set p, s | p in group && s in before[p].sources :: s
  }

  /** `v` describes endpoint `k` and carries the evidence of the whole group, no more and no less. */
  ghost predicate Carries(v: EndpointValue, k: string, group: set<string>, before: map<string, EndpointValue>) {
    && k in group && group <= before.Keys
    && v.path == before[k].path && v.absoluteUrl == before[k].absoluteUrl
    && v.methods == MethodsOf(group, before)
    && v.sources == SourcesOf(group, before)
    && (forall p :: p in group ==> before[p].confidence <= v.confidence)
    && (exists p :: p in group && before[p].confidence == v.confidence)
  }

  function Group(home: map<string, string>, k: string): set<string> { set p | p in home && home[p] == k }

  /** The contents of the merged dictionary, whatever the order the loop runs in. */
  ghost predicate IsMergeOf(
    home: map<string, string>, before: map<string, EndpointValue>, after: map<string, EndpointValue>)
  {
    && home.Keys == before.Keys
    && after.Keys == (set k | k in home && home[k] == k)
    && forall k :: k in after ==> Carries(after[k], k, Group(home, k), before)
  }

  lemma AbsorbCarries(v: EndpointValue, k: string, group: set<string>, before: map<string, EndpointValue>, p: string)
    requires Carries(v, k, group, before) && p in before
    ensures Carries(Absorb(v, before[p]), k, group + {p}, before)
  {
    var w := Absorb(v, before[p]);
    assert w.methods == MethodsOf(group + {p}, before);
    assert w.sources == SourcesOf(group + {p}, before);
    assert p in group + {p};
  }

  lemma CopyCarries(k: string, before: map<string, EndpointValue>)
    requires k in before
    ensures Carries(before[k], k, {k}, before)
  {
    assert before[k].methods == MethodsOf({k}, before);
    assert before[k].sources == SourcesOf({k}, before);
  }

  /** The value of endpoint `k` once the paths `done` are behind the merge loop. */
  function Folded(
    home: map<string, string>, before: map<string, EndpointValue>, k: string, done: seq<string>): EndpointValue
    requires k in before
  {
    if done == [] then before[k]
    else
      var p := done[|done| - 1];
      var v := Folded(home, before, k, done[..|done| - 1]);
      if p in home && p in before && home[p] == k && p != k then Absorb(v, before[p]) else v
  }

  function Seen(home: map<string, string>, done: seq<string>, k: string): set<string> {
    {k} + (set p | p in done && p in home && home[p] == k)
  }

  lemma {:induction false} FoldedCarries(
    home: map<string, string>, before: map<string, EndpointValue>, k: string, done: seq<string>)
    requires k in before && home.Keys == before.Keys
    ensures Carries(Folded(home, before, k, done), k, Seen(home, done, k), before)
  {
    if done == [] {
      CopyCarries(k, before);
      assert Seen(home, done, k) == {k};
    } else {
      var n := |done| - 1;
      var p := done[n];
      FoldedCarries(home, before, k, done[..n]);
      assert done == done[..n] + [p];
      if p in home && home[p] == k {
        assert Seen(home, done, k) == Seen(home, done[..n], k) + {p};
        if p != k {
          AbsorbCarries(Folded(home, before, k, done[..n]), k, Seen(home, done[..n], k), before, p);
        } else {
          assert Seen(home, done, k) == Seen(home, done[..n], k);
        }
      } else {
        assert Seen(home, done, k) == Seen(home, done[..n], k);
      }
    }
  }

  lemma {:induction false} FoldedUntouched(
    home: map<string, string>, before: map<string, EndpointValue>, k: string, done: seq<string>)
    requires k in before && forall p :: p in done && p in home ==> home[p] != k
    ensures Folded(home, before, k, done) == before[k]
  {
    if done != [] { FoldedUntouched(home, before, k, done[..|done| - 1]); }
  }

  /** The values the merge loop has produced once the paths `done` are behind it. */
  ghost predicate Partial(
    home: map<string, string>, before: map<string, EndpointValue>, values: map<string, EndpointValue>, done: seq<string>)
  {
    && (forall k :: k in values ==> k in home && home[k] == k)
    && (forall p :: p in done ==> p in home && home[p] in values)
    && (forall k :: k in values ==> k in before && values[k] == Folded(home, before, k, done))
  }

  function Extend(
    before: map<string, EndpointValue>, values: map<string, EndpointValue>, path: string, key: string): EndpointValue
    requires path in before && key in before
  {
    var v := if key in values then values[key] else before[key];
    if path != key then Absorb(v, before[path]) else v
  }

  lemma PartialStep(
    home: map<string, string>, before: map<string, EndpointValue>, values: map<string, EndpointValue>,
    done: seq<string>, path: string)
    requires home.Keys == before.Keys && Settled(home) && path in home
    requires Partial(home, before, values, done)
    ensures Partial(home, before, values[home[path] := Extend(before, values, path, home[path])], done + [path])
  {
    var key := home[path];
    var next := values[key := Extend(before, values, path, key)];
    if key !in values { FoldedUntouched(home, before, key, done); }
    forall k | k in next ensures next[k] == Folded(home, before, k, done + [path]) {
      assert (done + [path])[..|done|] == done;
    }
  }

  lemma PartialAtEnd(
    home: map<string, string>, before: map<string, EndpointValue>, values: map<string, EndpointValue>,
    order: seq<string>)
    requires home.Keys == before.Keys && forall p :: p in home <==> p in order
    requires Partial(home, before, values, order)
    ensures IsMergeOf(home, before, values)
  {
    forall k | k in home && home[k] == k ensures k in values {
      assert k in order;
    }
    assert values.Keys == set k | k in home && home[k] == k;
    forall k | k in values ensures Carries(values[k], k, Group(home, k), before) {
      FoldedCarries(home, before, k, order);
      SeenAtEnd(home, order, k);
    }
  }

  lemma SeenAtEnd(home: map<string, string>, order: seq<string>, k: string)
    requires (forall p :: p in home <==> p in order) && k in home && home[k] == k
    ensures Seen(home, order, k) == Group(home, k)
  {
  }

  // The code

  function Templates(order: seq<string>): seq<string> {
    if order == [] then []
    else
      var rest := Templates(order[..|order| - 1]);
      if TemplateCount(order[|order| - 1]) == 0 then rest else rest + [order[|order| - 1]]
  }

  lemma {:induction false} OnlyTemplatesAreTargets(order: seq<string>, path: string)
    ensures Target(Templates(order), path) == Target(order, path)
  {
    if order != [] {
      var init, t := order[..|order| - 1], order[|order| - 1];
      OnlyTemplatesAreTargets(init, path);
      assert (Templates(init) + [t])[..|Templates(init)|] == Templates(init);
    }
  }

  method CollectTemplates(order: seq<string>) returns (templates: seq<string>)
    ensures templates == Templates(order)
  {
    templates := [];
    for i := 0 to |order|
      invariant templates == Templates(order[..i])
    {
      assert order[..i + 1][..i] == order[..i];
      if TemplateCount(order[i]) != 0 {
        templates := templates + [order[i]];
      }
    }
    assert order[..|order|] == order;
  }

  lemma ScanIsTarget(order: seq<string>)
    ensures forall p :: FirstMatch(SortMostGeneralFirst(Templates(order)), p) == Target(order, p)
  {
    forall p ensures FirstMatch(SortMostGeneralFirst(Templates(order)), p) == Target(order, p) {
      ScanFindsTarget(Templates(order), p);
      OnlyTemplatesAreTargets(order, p);
    }
  }

  method FindTarget(sorted: seq<string>, path: string) returns (target: Option<string>)
    ensures target == FirstMatch(sorted, path)
  {
    var i := 0;
    while i < |sorted|
      invariant 0 <= i <= |sorted|
      invariant FirstMatch(sorted, path) == FirstMatch(sorted[i..], path)
    {
      var t := sorted[i];
      if t != path {
        if TemplateCount(t) <= TemplateCount(path) {
          return None;
        }
        if Matches(t, path) {
          return Some(t);
        }
      }
      i := i + 1;
    }
    return None;
  }

  method FindTargets(order: seq<string>, sorted: seq<string>) returns (subsumedBy: map<string, string>)
    requires forall p :: FirstMatch(sorted, p) == Target(order, p)
    ensures forall p :: p in subsumedBy <==> p in order && Target(order, p).Some?
    ensures forall p :: p in subsumedBy ==> Target(order, p) == Some(subsumedBy[p])
  {
    subsumedBy := map[];
    for i := 0 to |order|
      invariant forall p :: p in subsumedBy <==> p in order[..i] && Target(order, p).Some?
      invariant forall p :: p in subsumedBy ==> Target(order, p) == Some(subsumedBy[p])
    {
      PrefixStep(order, i);
      var target := FindTarget(sorted, order[i]);
      if target.Some? {
        subsumedBy := subsumedBy[order[i] := target.value];
      }
    }
  }

  ghost predicate Holds(observed: map<string, Endpoint>, values: map<string, EndpointValue>)
    reads observed.Values
  {
    observed.Keys == values.Keys && forall k :: k in observed ==> observed[k].Value() == values[k]
  }

  lemma SnapshotIs(merged: map<string, Endpoint>, values: map<string, EndpointValue>)
    requires Holds(merged, values)
    ensures Snapshot(merged) == values
  {
  }

  /** Each endpoint of the dictionary is recorded with its key: no two keys share an object. */
  ghost predicate IsOwned(merged: map<string, Endpoint>, owner: map<Endpoint, string>) {
    forall k :: k in merged ==> merged[k] in owner && owner[merged[k]] == k
  }

  /** One pass of the merge loop: `setdefault` with a copy, then the update of the template. */
  method MergePath(
    observed: map<string, Endpoint>, ghost before: map<string, EndpointValue>, merged: map<string, Endpoint>,
    path: string, key: string, ghost values: map<string, EndpointValue>, ghost owner: map<Endpoint, string>)
    returns (extended: map<string, Endpoint>, ghost owner': map<Endpoint, string>)
    requires Holds(observed, before) && path in observed && key in observed
    requires Holds(merged, values) && IsOwned(merged, owner) && forall k :: k in observed ==> observed[k] !in owner
    modifies owner.Keys
    ensures Holds(extended, values[key := Extend(before, values, path, key)]) && IsOwned(extended, owner')
    ensures forall e :: e in owner' ==> e in owner || fresh(e)
  {
    extended, owner' := merged, owner;
    if key !in extended {
      var copy := new Endpoint(observed[key].Value());
      extended, owner' := extended[key := copy], owner[copy := key];
    }
    if path != key {
      extended[key].Update(observed[path]);
    }
  }

  /** The keys of the merged dictionary in the order of their insertion: homes, as they are first met. */
  function KeysLeft(home: map<string, string>, order: seq<string>): seq<string>
    requires forall p :: p in order ==> p in home
  {
    if order == [] then []
    else
      var n := |order| - 1;
      assert order[n] in order && forall p :: p in order[..n] ==> p in order;
      var init := KeysLeft(home, order[..n]);
      if home[order[n]] in init then init else init + [home[order[n]]]
  }

  lemma {:induction false} AllKeysLeft(home: map<string, string>, order: seq<string>)
    requires forall p :: p in order ==> p in home && home[p] == p
    requires forall i, j :: 0 <= i < j < |order| ==> order[i] != order[j]
    ensures KeysLeft(home, order) == order
  {
    if order != [] {
      var n := |order| - 1;
      assert order == order[..n] + [order[n]];
      AllKeysLeft(home, order[..n]);
    }
  }

  /** The values after the loop has passed these paths. */
  function Merging(home: map<string, string>, before: map<string, EndpointValue>, order: seq<string>)
    : map<string, EndpointValue>
    requires Covers(home, before, order)
  {
    if order == [] then map[]
    else
      var n := |order| - 1;
      assert order[n] in order && Covers(home, before, order[..n]);
      var values := Merging(home, before, order[..n]);
      var key := home[order[n]];
      values[key := Extend(before, values, order[n], key)]
  }

  predicate Covers(home: map<string, string>, before: map<string, EndpointValue>, order: seq<string>) {
    forall p :: p in order ==> p in home && p in before && home[p] in before
  }

  lemma MergingStep(home: map<string, string>, before: map<string, EndpointValue>, order: seq<string>, i: nat)
    requires Covers(home, before, order) && i < |order|
    ensures Covers(home, before, order[..i]) && Covers(home, before, order[..i + 1])
    ensures order[i] in before && order[i] in home && home[order[i]] in before
    ensures
      var values, path := Merging(home, before, order[..i]), order[i];
      Merging(home, before, order[..i + 1]) == values[home[path] := Extend(before, values, path, home[path])]
    ensures
      var keys, key := KeysLeft(home, order[..i]), home[order[i]];
      KeysLeft(home, order[..i + 1]) == if key in keys then keys else keys + [key]
    ensures forall k :: k in Merging(home, before, order[..i]) <==> k in KeysLeft(home, order[..i])
  {
    assert order[i] in order && order[..i + 1][..i] == order[..i];
    assert forall p :: p in order[..i] || p in order[..i + 1] ==> p in order;
    MergingHasKeys(home, before, order[..i]);
  }

  lemma {:induction false} MergingHasKeys(
    home: map<string, string>, before: map<string, EndpointValue>, order: seq<string>)
    requires Covers(home, before, order)
    ensures forall k :: k in Merging(home, before, order) <==> k in KeysLeft(home, order)
  {
    if order != [] {
      var n := |order| - 1;
      assert order[n] in order && Covers(home, before, order[..n]);
      MergingHasKeys(home, before, order[..n]);
    }
  }

  lemma {:induction false} MergingIsPartial(
    home: map<string, string>, before: map<string, EndpointValue>, order: seq<string>)
    requires home.Keys == before.Keys && Settled(home) && Covers(home, before, order)
    ensures Partial(home, before, Merging(home, before, order), order)
  {
    if order != [] {
      var n := |order| - 1;
      assert order == order[..n] + [order[n]] && order[n] in order;
      MergingIsPartial(home, before, order[..n]);
      PartialStep(home, before, Merging(home, before, order[..n]), order[..n], order[n]);
    }
  }

  method MergeGroups(
    observed: map<string, Endpoint>, ghost before: map<string, EndpointValue>, order: seq<string>,
    subsumedBy: map<string, string>, ghost home: map<string, string>)
    returns (merged: map<string, Endpoint>, keys: seq<string>)
    requires Holds(observed, before) && Records(home, subsumedBy) && Covers(home, before, order)
    ensures forall k :: k in merged ==> fresh(merged[k])
    ensures Holds(merged, Merging(home, before, order)) && keys == KeysLeft(home, order)
  {
    merged, keys := map[], [];
    ghost var owner: map<Endpoint, string> := map[];
    for i := 0 to |order|
      invariant Covers(home, before, order[..i]) && Holds(observed, before)
      invariant Holds(merged, Merging(home, before, order[..i])) && keys == KeysLeft(home, order[..i])
      invariant IsOwned(merged, owner) && forall e :: e in owner ==> fresh(e)
    {
      var path := order[i];
      var key := if path in subsumedBy then subsumedBy[path] else path;
      MergingStep(home, before, order, i);
      keys := if key in merged then keys else keys + [key];
      merged, owner := MergePath(observed, before, merged, path, key, Merging(home, before, order[..i]), owner);
    }
    WholePrefix(order);
  }

  /** `subsumedBy` records the target of every path that has one. */
  ghost predicate Records(home: map<string, string>, subsumedBy: map<string, string>) {
    forall p :: p in home ==> if p in subsumedBy then home[p] == subsumedBy[p] != p else home[p] == p
  }

  lemma TargetsRecordHomes(order: seq<string>, subsumedBy: map<string, string>)
    requires forall p :: p in subsumedBy <==> p in order && Target(order, p).Some?
    requires forall p :: p in subsumedBy ==> Target(order, p) == Some(subsumedBy[p])
    ensures Records(Homes(order), subsumedBy)
  {
    HomesAreSettled(order);
  }

  method DeduplicateConcretePaths(observed: map<string, Endpoint>, order: seq<string>)
    returns (merged: map<string, Endpoint>, keys: seq<string>)
    requires IsOrderOf(order, observed.Keys)
    ensures merged == observed || forall k :: k in merged ==> fresh(merged[k])
    ensures IsMergeOf(Homes(order), old(Snapshot(observed)), Snapshot(merged))
    ensures keys == KeysLeft(Homes(order), order)
  {
    ghost var before, home := Snapshot(observed), Homes(order);
    assert home.Keys == before.Keys && Holds(observed, before);
    var templates := CollectTemplates(order);
    ScanIsTarget(order);
    if templates == [] {
      TargetsRecordHomes(order, map[]);
      NothingToMerge(home, before);
      AllKeysLeft(home, order);
      return observed, order;
    }
    var subsumedBy := FindTargets(order, SortMostGeneralFirst(templates));
    TargetsRecordHomes(order, subsumedBy);
    if subsumedBy == map[] {
      NothingToMerge(home, before);
      AllKeysLeft(home, order);
      return observed, order;
    }
    HomesAreSettled(order);
    merged, keys := MergeGroups(observed, before, order, subsumedBy, home);
    MergingIsPartial(home, before, order);
    PartialAtEnd(home, before, Merging(home, before, order), order);
    SnapshotIs(merged, Merging(home, before, order));
  }

  lemma NothingToMerge(home: map<string, string>, before: map<string, EndpointValue>)
    requires home.Keys == before.Keys && forall k :: k in home ==> home[k] == k
    ensures IsMergeOf(home, before, before)
  {
    forall k | k in before ensures Carries(before[k], k, Group(home, k), before) {
      CopyCarries(k, before);
      assert Group(home, k) == {k};
    }
  }

  // What a merge guarantees

  /** The surviving keys are exactly the paths no observed template subsumes, whatever the order. */
  lemma SurvivorsAreTheUnsubsumed(order: seq<string>, before: map<string, EndpointValue>, after: map<string, EndpointValue>)
    requires IsMergeOf(Homes(order), before, after)
    ensures forall k :: k in after <==> k in before && forall t :: t in before ==> !Subsumes(t, k)
  {
    HomesAreSettled(order);
    forall k ensures k in after <==> k in before && forall t :: t in before ==> !Subsumes(t, k) {
      TargetIsFirstBest(order, k);
      assert forall t :: t in before <==> t in order;
    }
  }

  /** No method and no source is lost or invented, and none moves to an endpoint that does not match. */
  lemma MergeConserves(order: seq<string>, before: map<string, EndpointValue>, after: map<string, EndpointValue>)
    requires IsMergeOf(Homes(order), before, after)
    ensures MethodsOf(after.Keys, after) == MethodsOf(before.Keys, before)
    ensures SourcesOf(after.Keys, after) == SourcesOf(before.Keys, before)
    ensures forall k, m :: k in after && m in after[k].methods ==>
              exists p :: p in before && m in before[p].methods && (p == k || Subsumes(k, p))
  {
    var home := Homes(order);
    HomesAreSettled(order);
    forall p, m | p in before && m in before[p].methods ensures m in MethodsOf(after.Keys, after) {
      assert home[p] in after && p in Group(home, home[p]);
      assert m in after[home[p]].methods;
    }
    forall p, m | p in before && m in before[p].sources ensures m in SourcesOf(after.Keys, after) {
      assert home[p] in after && p in Group(home, home[p]);
      assert m in after[home[p]].sources;
    }
    forall k, m | k in after && m in after[k].methods
      ensures exists p :: p in before && m in before[p].methods && (p == k || Subsumes(k, p))
    {
      var p :| p in Group(home, k) && m in before[p].methods;
      TargetIsFirstBest(order, p);
    }
  }

  /** Merging the result again, in any iteration order, changes nothing. */
  lemma MergeTwice(
    order: seq<string>, before: map<string, EndpointValue>, once: map<string, EndpointValue>,
    order': seq<string>, twice: map<string, EndpointValue>)
    requires IsMergeOf(Homes(order), before, once)
    requires IsMergeOf(Homes(order'), once, twice)
    ensures twice == once
  {
    SurvivorsAreTheUnsubsumed(order, before, once);
    var home := Homes(order');
    forall p | p in once ensures home[p] == p {
      TargetIsFirstBest(order', p);
      assert forall t :: t in order' ==> t in once;
    }
    NothingToMerge(home, once);
    MergeIsUnique(home, once, once, twice);
  }

  lemma MergeIsUnique(
    home: map<string, string>, before: map<string, EndpointValue>,
    after1: map<string, EndpointValue>, after2: map<string, EndpointValue>)
    requires IsMergeOf(home, before, after1) && IsMergeOf(home, before, after2)
    ensures after1 == after2
  {
    forall k | k in after1 ensures k in after2 && after1[k] == after2[k] {
      CarriedValueIsUnique(after1[k], after2[k], k, Group(home, k), before);
    }
  }

  lemma CarriedValueIsUnique(
    v: EndpointValue, w: EndpointValue, k: string, group: set<string>, before: map<string, EndpointValue>)
    requires Carries(v, k, group, before) && Carries(w, k, group, before)
    ensures v == w
  {
    var p :| p in group && before[p].confidence == v.confidence;
    var q :| q in group && before[q].confidence == w.confidence;
  }

  ghost predicate IsBest(keys: set<string>, t: string, path: string) {
    t in keys && Subsumes(t, path) && forall u :: u in keys && Subsumes(u, path) ==> TemplateCount(u) <= TemplateCount(t)
  }

  ghost predicate HasNoTie(keys: set<string>, path: string) {
    forall t, u :: IsBest(keys, t, path) && IsBest(keys, u, path) ==> t == u
  }

  lemma TargetIsBest(order: seq<string>, keys: set<string>, path: string)
    requires forall k :: k in keys <==> k in order
    ensures
      var m := Target(order, path);
      if m.Some? then IsBest(keys, m.value, path) else forall t :: !IsBest(keys, t, path)
  {
    TargetIsFirstBest(order, path);
  }

  lemma FirstOfTiesWins(keys: set<string>, t: string, path: string) returns (order: seq<string>)
    requires IsBest(keys, t, path)
    ensures IsOrderOf(order, keys) && Target(order, path) == Some(t)
  {
    order := [t] + SomeOrder(keys - {t});
    TargetIsFirstBest(order, path);
    assert order[0] == t && t in order;
    assert forall k :: k in keys <==> k in order;
  }

  /**
   The dictionary order can change where a path is merged exactly when two most general
   templates match it.
   */
  lemma TargetIgnoresOrderIffNoTie(keys: set<string>, path: string)
    ensures
      (forall o1, o2 :: IsOrderOf(o1, keys) && IsOrderOf(o2, keys) ==> Target(o1, path) == Target(o2, path))
      <==> HasNoTie(keys, path)
  {
    if HasNoTie(keys, path) {
      forall o1, o2 | IsOrderOf(o1, keys) && IsOrderOf(o2, keys) ensures Target(o1, path) == Target(o2, path) {
        TargetIsBest(o1, keys, path);
        TargetIsBest(o2, keys, path);
      }
    } else {
      var t, u :| IsBest(keys, t, path) && IsBest(keys, u, path) && t != u;
      var o1 := FirstOfTiesWins(keys, t, path);
      var o2 := FirstOfTiesWins(keys, u, path);
      assert Target(o1, path) != Target(o2, path);
    }
  }

  /** Without ties the merged dictionary does not depend on the iteration order. */
  lemma MergeIgnoresOrder(
    o1: seq<string>, o2: seq<string>, before: map<string, EndpointValue>,
    after1: map<string, EndpointValue>, after2: map<string, EndpointValue>)
    requires IsMergeOf(Homes(o1), before, after1) && IsMergeOf(Homes(o2), before, after2)
    requires forall p :: p in before ==> HasNoTie(before.Keys, p)
    ensures after1 == after2
  {
    assert forall p :: p in before <==> p in Homes(o1);
    assert forall p :: p in before <==> p in Homes(o2);
    forall p | p in before ensures Homes(o1)[p] == Homes(o2)[p] {
      TargetIsBest(o1, before.Keys, p);
      TargetIsBest(o2, before.Keys, p);
    }
    assert Homes(o1) == Homes(o2);
    MergeIsUnique(Homes(o1), before, after1, after2);
  }

  lemma MergeExists(order: seq<string>, before: map<string, EndpointValue>) returns (after: map<string, EndpointValue>)
    requires forall p :: p in before <==> p in order
    ensures IsMergeOf(Homes(order), before, after)
  {
    var home := Homes(order);
    HomesAreSettled(order);
    after := map k | k in home && home[k] == k :: Folded(home, before, k, order);
    forall k | k in after ensures Carries(after[k], k, Group(home, k), before) {
      FoldedCarries(home, before, k, order);
      SeenAtEnd(home, order, k);
    }
  }

  /** Endpoints of which one alone has a method. */
  function LoneMethod(keys: set<string>, path: string): map<string, EndpointValue> {
    map k | k in keys :: EndpointValue(k, "", if k == path then {"GET"} else {}, {}, 0.0)
  }

  lemma LoneMethodMoves(order: seq<string>, keys: set<string>, path: string, after: map<string, EndpointValue>)
    requires IsOrderOf(order, keys) && path in keys && Target(order, path).Some?
    requires IsMergeOf(Homes(order), LoneMethod(keys, path), after)
    ensures Target(order, path).value in after
    ensures forall k :: k in after ==> ("GET" in after[k].methods <==> k == Target(order, path).value)
  {
    var home, before := Homes(order), LoneMethod(keys, path);
    HomesAreSettled(order);
    forall k | k in after ensures "GET" in after[k].methods <==> k == home[path] {
      assert Carries(after[k], k, Group(home, k), before);
      assert path in Group(home, k) <==> k == home[path];
    }
  }

  /** Orders that send a path to different templates merge to different dictionaries, if only that path has a method. */
  lemma MergesDiffer(o1: seq<string>, o2: seq<string>, keys: set<string>, path: string)
    returns (before: map<string, EndpointValue>, after1: map<string, EndpointValue>, after2: map<string, EndpointValue>)
    requires IsOrderOf(o1, keys) && IsOrderOf(o2, keys) && path in keys
    requires Target(o1, path).Some? && Target(o2, path).Some? && Target(o1, path) != Target(o2, path)
    ensures AreMerges(keys, o1, o2, before, after1, after2) && after1 != after2
  {
    before := LoneMethod(keys, path);
    after1 := MergeExists(o1, before);
    after2 := MergeExists(o2, before);
    LoneMethodMoves(o1, keys, path, after1);
    LoneMethodMoves(o2, keys, path, after2);
  }

  ghost predicate OrderIsIrrelevant(keys: set<string>) {
    forall o1, o2, before, after1, after2 :: AreMerges(keys, o1, o2, before, after1, after2) ==> after1 == after2
  }

  /** Two results for the same endpoints, visited in two orders. */
  ghost predicate AreMerges(
    keys: set<string>, o1: seq<string>, o2: seq<string>, before: map<string, EndpointValue>,
    after1: map<string, EndpointValue>, after2: map<string, EndpointValue>)
  {
    && IsOrderOf(o1, keys) && IsOrderOf(o2, keys) && before.Keys == keys
    && IsMergeOf(Homes(o1), before, after1) && IsMergeOf(Homes(o2), before, after2)
  }

  /** For some keys, the merged dictionary is the same for all orders, whatever the evidence, exactly without ties. */
  lemma OrderIsIrrelevantIffNoTie(keys: set<string>)
    ensures OrderIsIrrelevant(keys) <==> forall p :: p in keys ==> HasNoTie(keys, p)
  {
    if forall p :: p in keys ==> HasNoTie(keys, p) {
      forall o1, o2, before, after1, after2 | AreMerges(keys, o1, o2, before, after1, after2) ensures after1 == after2 {
        MergeIgnoresOrder(o1, o2, before, after1, after2);
      }
    } else {
      var p, t, u :| p in keys && IsBest(keys, t, p) && IsBest(keys, u, p) && t != u;
      var o1 := FirstOfTiesWins(keys, t, p);
      var o2 := FirstOfTiesWins(keys, u, p);
      var before, after1, after2 := MergesDiffer(o1, o2, keys, p);
    }
  }

  predicate IsPlain(s: string) { PathTemplate.IsName(s) && '/' !in s && '?' !in s }

  function TopLevel(name: string): string { "/{" + name + "}" }

  /**
   With a tie the result does depend on it: of the templates `/{a}` and `/{b}`, which both match `/x`, the
   one observed first takes the evidence of `/x`, and the merged dictionaries differ.
   */
  lemma TiesDependOnOrder(a: string, b: string, x: string)
    returns (before: map<string, EndpointValue>, after1: map<string, EndpointValue>, after2: map<string, EndpointValue>)
    requires IsPlain(a) && IsPlain(b) && IsPlain(x) && a != b
    ensures Target([TopLevel(a), TopLevel(b), "/" + x], "/" + x) == Some(TopLevel(a))
    ensures Target([TopLevel(b), TopLevel(a), "/" + x], "/" + x) == Some(TopLevel(b))
    ensures
      var t, u, p := TopLevel(a), TopLevel(b), "/" + x;
      AreMerges({t, u, p}, [t, u, p], [u, t, p], before, after1, after2) && after1 != after2
  {
    var t, u, p := TopLevel(a), TopLevel(b), "/" + x;
    TopLevelSubsumes(a, x);
    TopLevelSubsumes(b, x);
    TargetOfTie(t, u, p);
    TargetOfTie(u, t, p);
    assert t != u by { assert t[2..|t| - 1] == a && u[2..|u| - 1] == b; }
    assert t != p && u != p by { assert t[1] == u[1] == '{' && p[1] == x[0]; }
    before, after1, after2 := MergesDiffer([t, u, p], [u, t, p], {t, u, p}, p);
  }

  lemma TargetOfTie(t: string, u: string, path: string)
    requires Subsumes(t, path) && Subsumes(u, path) && TemplateCount(t) == TemplateCount(u)
    ensures Target([t, u, path], path) == Some(t)
  {
    var order := [t, u, path];
    assert order[..2] == [t, u] && order[..2][..1] == [t] && order[..2][..1][..0] == [];
    assert Target(order[..2][..1], path) == Some(t);
    assert Target(order[..2], path) == Some(t);
  }

  lemma TopLevelSubsumes(name: string, segment: string)
    requires IsPlain(name) && IsPlain(segment)
    ensures TemplateCount(TopLevel(name)) == 1 && Subsumes(TopLevel(name), "/" + segment)
  {
    var t, p := TopLevel(name), "/" + segment;
    assert "/" + ("{" + name + "}") == t;
    SegmentsOfTopLevel("{" + name + "}");
    SegmentsOfTopLevel(segment);
    CountOfTopLevel(name);
    PathTemplate.TokenizeText(p);
  }

  lemma SegmentsOfTopLevel(segment: string)
    requires '/' !in segment && '?' !in segment
    ensures Clean("/" + segment) == "/" + segment && Segments("/" + segment) == ["", segment]
  {
    SplitPlain("/" + segment, '?');
    SplitPlain(segment, '/');
    assert ("/" + segment)[1..] == segment;
  }

  lemma CountOfTopLevel(name: string)
    requires IsPlain(name)
    ensures PathTemplate.FindAll(TopLevel(name)) == [name]
  {
    var t := TopLevel(name);
    assert t[1..] == "{" + name + "}" + "";
    PathTemplate.TokenizeParam(name, "");
    assert PathTemplate.Tokenize(t) == [PathTemplate.Text('/'), PathTemplate.Param(name)];
    assert PathTemplate.Tokenize(t)[1..] == [PathTemplate.Param(name)];
    assert PathTemplate.Names([PathTemplate.Param(name)]) == [name];
  }
}
