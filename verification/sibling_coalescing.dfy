/**
 Folding of sibling paths into one template when some of them end in a value, such as a number.
 The query suffix that siblings share comes from a URL library and is a parameter here.
 */
module SiblingCoalescing {
  import opened Common
  import opened PathMerge

  // Parent and leaf of a path

  function TrimRight(s: string): string {
    if s != "" && s[|s| - 1] == '/' then TrimRight(s[..|s| - 1]) else s
  }

  function TrimLeft(s: string): string { if s != "" && s[0] == '/' then TrimLeft(s[1..]) else s }

  /** The place of the last slash. */
  function LastSlash(s: string): (i: nat)
    requires '/' in s
    ensures i < |s| && s[i] == '/' && forall j :: i < j < |s| ==> s[j] != '/'
  {
    if s[|s| - 1] == '/' then |s| - 1 else LastSlash(s[..|s| - 1])
  }

  function Parent(path: string): string {
    var s := TrimRight(Clean(path));
    if '/' in TrimLeft(s) && '/' in s then s[..LastSlash(s)] else ""
  }

  function Leaf(path: string): string {
    var s := TrimRight(Clean(path));
    if '/' in s then s[LastSlash(s) + 1..] else s
  }

  /** The zeros of all scripts whose decimal digits `\d` matches (Unicode 15); the others follow each zero. */
  predicate IsZero(z: int) {
    z == 0x30 || z == 0x660 || z == 0x6F0 || z == 0x7C0 || z == 0x966 || z == 0x9E6 || z == 0xA66 ||
    z == 0xAE6 || z == 0xB66 || z == 0xBE6 || z == 0xC66 || z == 0xCE6 || z == 0xD66 || z == 0xDE6 ||
    z == 0xE50 || z == 0xED0 || z == 0xF20 || z == 0x1040 || z == 0x1090 || z == 0x17E0 || z == 0x1810 ||
    z == 0x1946 || z == 0x19D0 || z == 0x1A80 || z == 0x1A90 || z == 0x1B50 || z == 0x1BB0 || z == 0x1C40 ||
    z == 0x1C50 || z == 0xA620 || z == 0xA8D0 || z == 0xA900 || z == 0xA9D0 || z == 0xA9F0 || z == 0xAA50 ||
    z == 0xABF0 || z == 0xFF10 || z == 0x104A0 || z == 0x10D30 || z == 0x11066 || z == 0x110F0 ||
    z == 0x11136 || z == 0x111D0 || z == 0x112F0 || z == 0x11450 || z == 0x114D0 || z == 0x11650 ||
    z == 0x116C0 || z == 0x11730 || z == 0x118E0 || z == 0x11950 || z == 0x11C50 || z == 0x11D50 ||
    z == 0x11DA0 || z == 0x11F50 || z == 0x16A60 || z == 0x16AC0 || z == 0x16B50 || z == 0x1D7CE ||
    z == 0x1D7D8 || z == 0x1D7E2 || z == 0x1D7EC || z == 0x1D7F6 || z == 0x1E140 || z == 0x1E2F0 ||
    z == 0x1E4F0 || z == 0x1E950 || z == 0x1FBF0
  }

  predicate IsDecimalDigit(c: char) { exists z :: IsZero(z) && z <= c as int < z + 10 }

  predicate IsHex(c: char) { IsDigit(c) || 'a' <= c <= 'f' || 'A' <= c <= 'F' }

  predicate IsUuid(s: string) {
    && |s| == 36
    && forall i :: 0 <= i < 36 ==> if i in {8, 13, 18, 23} then s[i] == '-' else IsHex(s[i])
  }

  predicate LooksLikeValue(segment: string) {
    if ' ' in segment then true
    else if IsWildcard(segment) then false
    else (segment != "" && forall c :: c in segment ==> IsDecimalDigit(c)) || IsUuid(segment)
  }

  predicate IsValue(path: string) { LooksLikeValue(Leaf(path)) }

  predicate IsTemplate(path: string) { IsWildcard(Leaf(path)) }

  predicate IsPlainName(path: string) { !IsTemplate(path) && !IsValue(path) }

  // What is computed

  function Siblings(order: seq<string>, parent: string): (r: seq<string>)
    ensures forall p :: p in r <==> p in order && Parent(p) == parent
  {
    if order == [] then []
    else
      var n := |order| - 1;
      var init := Siblings(order[..n], parent);
      assert order == order[..n] + [order[n]];
      if Parent(order[n]) == parent then init + [order[n]] else init
  }

  predicate HasValue(paths: seq<string>) { exists p :: p in paths && IsValue(p) }

  /** The last template of a group, if it has one. */
  function ExistingTemplate(paths: seq<string>): (r: Option<string>)
    ensures r.Some? ==> r.value in paths && IsTemplate(r.value)
    ensures r.None? ==> forall p :: p in paths ==> !IsTemplate(p)
  {
    if paths == [] then None
    else
      var n := |paths| - 1;
      var rest := ExistingTemplate(paths[..n]);
      assert paths == paths[..n] + [paths[n]];
      if IsTemplate(paths[n]) then Some(paths[n]) else rest
  }

  /** The suffix that siblings share: empty, or a query. */
  type Suffix = s: string | s == "" || s[0] == '?'

  const PLACEHOLDER := "{id}"

  function NewTemplate(parent: string, suffix: Suffix): string { parent + "/" + PLACEHOLDER + suffix }

  function TemplateFor(parent: string, paths: seq<string>, suffixOf: seq<string> -> Suffix): string {
    match ExistingTemplate(paths)
    case Some(p) => p
    case None => NewTemplate(parent, suffixOf(paths))
  }

  function PlainNames(paths: seq<string>): (r: seq<string>)
    ensures forall p :: p in r <==> p in paths && IsPlainName(p)
  {
    if paths == [] then []
    else
      var n := |paths| - 1;
      var init := PlainNames(paths[..n]);
      assert paths == paths[..n] + [paths[n]];
      if IsPlainName(paths[n]) then init + [paths[n]] else init
  }

  /** The keys that a group leaves, in the order of their insertion. */
  function KeysLeft(parent: string, paths: seq<string>, suffixOf: seq<string> -> Suffix): seq<string> {
    if HasValue(paths) then [TemplateFor(parent, paths, suffixOf)] + PlainNames(paths) else paths
  }

  /** The first path of the greatest confidence. */
  function MostConfident(before: map<string, EndpointValue>, paths: seq<string>): (best: string)
    requires paths != [] && forall p :: p in paths ==> p in before
    ensures best in paths
    ensures forall p :: p in paths ==> before[p].confidence <= before[best].confidence
  {
    var n := |paths| - 1;
    assert paths == paths[..n] + [paths[n]];
    if n == 0 then paths[0]
    else
      var best := MostConfident(before, paths[..n]);
      if before[paths[n]].confidence > before[best].confidence then paths[n] else best
  }

  /** The endpoint that stands for a whole group. */
  function Whole(template: string, before: map<string, EndpointValue>, paths: seq<string>): EndpointValue
    requires paths != [] && forall p :: p in paths ==> p in before
  {
    var best := before[MostConfident(before, paths)];
    EndpointValue(
      template, best.absoluteUrl,
      MethodsOf(Elements(paths), before), SourcesOf(Elements(paths), before), best.confidence)
  }

  function GroupValues(
    parent: string, paths: seq<string>, before: map<string, EndpointValue>, suffixOf: seq<string> -> Suffix)
    : map<string, EndpointValue>
    requires forall p :: p in paths ==> p in before
  {
    if HasValue(paths) then
      var t := TemplateFor(parent, paths, suffixOf);
      (map p | p in PlainNames(paths) :: before[p])[t := Whole(t, before, paths)]
    else map p | p in paths :: before[p]
  }

  /** The parents in the order in which they are first met. */
  function Parents(order: seq<string>): (r: seq<string>)
    ensures forall q :: q in r <==> exists p :: p in order && Parent(p) == q
  {
    if order == [] then []
    else
      var n := |order| - 1;
      var init := Parents(order[..n]);
      assert order == order[..n] + [order[n]];
      if Parent(order[n]) in init then init else init + [Parent(order[n])]
  }

  /** The groups with these parents, one after the other. */
  function OrderLeft(parents: seq<string>, order: seq<string>, suffixOf: seq<string> -> Suffix): seq<string> {
    if parents == [] then []
    else
      var n := |parents| - 1;
      OrderLeft(parents[..n], order, suffixOf) + KeysLeft(parents[n], Siblings(order, parents[n]), suffixOf)
  }

  function ValuesLeft(
    parents: seq<string>, order: seq<string>, before: map<string, EndpointValue>, suffixOf: seq<string> -> Suffix)
    : map<string, EndpointValue>
    requires forall p :: p in order ==> p in before
  {
    if parents == [] then map[]
    else
      var n := |parents| - 1;
      ValuesLeft(parents[..n], order, before, suffixOf)
      + GroupValues(parents[n], Siblings(order, parents[n]), before, suffixOf)
  }

  function Coalesced(order: seq<string>, before: map<string, EndpointValue>, suffixOf: seq<string> -> Suffix)
    : map<string, EndpointValue>
    requires forall p :: p in order ==> p in before
  {
    ValuesLeft(Parents(order), order, before, suffixOf)
  }

  function CoalescedOrder(order: seq<string>, suffixOf: seq<string> -> Suffix): seq<string> {
    OrderLeft(Parents(order), order, suffixOf)
  }

  // A template belongs to the group it stands for

  lemma {:induction false} TrimLeftOfSum(a: string, b: string)
    ensures TrimLeft(a) != "" ==> TrimLeft(a + b) == TrimLeft(a) + b
    ensures TrimLeft(a) == "" ==> TrimLeft(a + b) == TrimLeft(b)
  {
    if a == "" {
      assert a + b == b;
    } else {
      assert (a + b)[1..] == a[1..] + b;
      if a[0] == '/' { TrimLeftOfSum(a[1..], b); }
    }
  }

  /** A parent that is not empty has more than slashes. */
  lemma ParentIsNamed(path: string)
    requires Parent(path) != ""
    ensures TrimLeft(Parent(path)) != ""
  {
    var s := TrimRight(Clean(path));
    var i := LastSlash(s);
    if TrimLeft(s[..i]) == "" { NothingButSlashes(s, i); }
  }

  lemma NothingButSlashes(s: string, i: nat)
    requires i < |s| && s[i] == '/' && '/' !in s[i + 1..] && TrimLeft(s[..i]) == ""
    ensures '/' !in TrimLeft(s)
  {
    assert s == s[..i] + s[i..];
    TrimLeftOfSum(s[..i], s[i..]);
    assert s[i..][1..] == s[i + 1..];
    NoSlashLeft(s[i + 1..]);
  }

  lemma NoSlashLeft(s: string)
    requires '/' !in s
    ensures '/' !in TrimLeft(s)
  {
  }

  lemma {:induction false} TrimRightIsPrefix(s: string)
    ensures TrimRight(s) <= s
  {
    if s != "" && s[|s| - 1] == '/' { TrimRightIsPrefix(s[..|s| - 1]); }
  }

  lemma ParentHasNoQuery(path: string)
    ensures '?' !in Parent(path)
  {
    PartsAreFree(path, '?');
    assert Clean(path) in SplitOn(path, '?');
    TrimRightIsPrefix(Clean(path));
  }

  lemma LastSlashIs(s: string, i: nat)
    requires i < |s| && s[i] == '/' && '/' !in s[i + 1..]
    ensures LastSlash(s) == i
  {
    forall j | i < j < |s| ensures s[j] != '/' { assert s[j] == s[i + 1..][j - i - 1]; }
    assert '/' in s;
  }

  lemma PlaceholderStands(parent: string)
    ensures
      var s := parent + "/" + PLACEHOLDER;
      && s == parent + ("/" + PLACEHOLDER) && TrimRight(s) == s && '/' in s && LastSlash(s) == |parent|
      && s[..|parent|] == parent && s[|parent| + 1..] == PLACEHOLDER
  {
    var s := parent + "/" + PLACEHOLDER;
    assert s[|s| - 1] == '}' && s[|parent|] == '/' && s[|parent| + 1..] == PLACEHOLDER;
    LastSlashIs(s, |parent|);
  }

  lemma NewTemplateFits(path: string, suffix: Suffix)
    ensures Parent(NewTemplate(Parent(path), suffix)) == Parent(path)
    ensures Leaf(NewTemplate(Parent(path), suffix)) == PLACEHOLDER
  {
    var parent := Parent(path);
    var s := parent + "/" + PLACEHOLDER;
    ParentHasNoQuery(path);
    SplitBefore(s, '?', suffix);
    PlaceholderStands(parent);
    assert Clean(NewTemplate(parent, suffix)) == s;
    TrimLeftOfSum(parent, "/" + PLACEHOLDER);
    if parent != "" {
      ParentIsNamed(path);
      assert '/' in "/" + PLACEHOLDER;
    }
  }

  lemma TemplateFits(order: seq<string>, parent: string, suffixOf: seq<string> -> Suffix)
    requires parent in Parents(order)
    ensures
      var t := TemplateFor(parent, Siblings(order, parent), suffixOf);
      Parent(t) == parent && IsTemplate(t)
  {
    var paths := Siblings(order, parent);
    var p :| p in order && Parent(p) == parent;
    NewTemplateFits(p, suffixOf(paths));
    assert IsWildcard(PLACEHOLDER);
  }

  lemma KeysLeftFit(order: seq<string>, parent: string, suffixOf: seq<string> -> Suffix)
    requires parent in Parents(order)
    ensures forall k :: k in KeysLeft(parent, Siblings(order, parent), suffixOf) ==> Parent(k) == parent
  {
    TemplateFits(order, parent, suffixOf);
  }

  // The result, key by key

  /** What the group of `k` leaves. */
  function GroupKeys(order: seq<string>, k: string, suffixOf: seq<string> -> Suffix): seq<string> {
    KeysLeft(Parent(k), Siblings(order, Parent(k)), suffixOf)
  }

  lemma {:induction false} LeftKeyByKey(
    parents: seq<string>, order: seq<string>, before: map<string, EndpointValue>, suffixOf: seq<string> -> Suffix,
    k: string)
    requires (forall q :: q in parents ==> q in Parents(order))
    requires forall p :: p in order ==> p in before
    ensures k in OrderLeft(parents, order, suffixOf) <==> Parent(k) in parents && k in GroupKeys(order, k, suffixOf)
    ensures k in ValuesLeft(parents, order, before, suffixOf) <==> k in OrderLeft(parents, order, suffixOf)
    ensures
      k in OrderLeft(parents, order, suffixOf) ==>
        var values := GroupValues(Parent(k), Siblings(order, Parent(k)), before, suffixOf);
        k in values && ValuesLeft(parents, order, before, suffixOf)[k] == values[k]
  {
    if parents != [] {
      var n := |parents| - 1;
      assert parents == parents[..n] + [parents[n]];
      LeftKeyByKey(parents[..n], order, before, suffixOf, k);
      KeysLeftFit(order, parents[n], suffixOf);
      GroupKeysAre(parents[n], Siblings(order, parents[n]), before, suffixOf);
    }
  }

  lemma GroupKeysAre(
    parent: string, paths: seq<string>, before: map<string, EndpointValue>, suffixOf: seq<string> -> Suffix)
    requires forall p :: p in paths ==> p in before
    ensures forall k :: k in GroupValues(parent, paths, before, suffixOf) <==> k in KeysLeft(parent, paths, suffixOf)
  {
  }

  lemma CoalescedKeyByKey(
    order: seq<string>, before: map<string, EndpointValue>, suffixOf: seq<string> -> Suffix, k: string)
    requires forall p :: p in order ==> p in before
    ensures var after := Coalesced(order, before, suffixOf);
      && (k in after <==> k in CoalescedOrder(order, suffixOf))
      && (k in after <==> k in GroupKeys(order, k, suffixOf))
      && (k in after ==>
            var values := GroupValues(Parent(k), Siblings(order, Parent(k)), before, suffixOf);
            k in values && after[k] == values[k])
  {
    LeftKeyByKey(Parents(order), order, before, suffixOf, k);
    var paths := Siblings(order, Parent(k));
    if k in GroupKeys(order, k, suffixOf) {
      var p := if k in paths then k else paths[0];
      assert p in order && Parent(p) == Parent(k);
    }
  }

  ghost predicate GroupHasValue(order: seq<string>, k: string) { HasValue(Siblings(order, Parent(k))) }

  /**
   A path survives unless it looks like a value, or is a template beside one. Where a group has a value,
   its template is there.
   */
  lemma SurvivorsAre(order: seq<string>, before: map<string, EndpointValue>, suffixOf: seq<string> -> Suffix, k: string)
    requires forall p :: p in order <==> p in before
    ensures
      k in Coalesced(order, before, suffixOf) <==>
      || (k in before && (IsPlainName(k) || !GroupHasValue(order, k)))
      || (GroupHasValue(order, k) && k == TemplateFor(Parent(k), Siblings(order, Parent(k)), suffixOf))
    ensures
      k in Coalesced(order, before, suffixOf) && k in before && (IsPlainName(k) || !GroupHasValue(order, k)) ==>
        Coalesced(order, before, suffixOf)[k] == before[k]
  {
    CoalescedKeyByKey(order, before, suffixOf, k);
    if GroupHasValue(order, k) {
      var p :| p in Siblings(order, Parent(k));
      assert Parent(k) in Parents(order);
      TemplateFits(order, Parent(k), suffixOf);
    }
  }

  /** No value-like path is left, except for templates that look like values themselves. */
  lemma NoValueIsLeft(order: seq<string>, before: map<string, EndpointValue>, suffixOf: seq<string> -> Suffix, k: string)
    requires (forall p :: p in order <==> p in before)
    requires k in Coalesced(order, before, suffixOf)
    ensures IsValue(k) ==> IsTemplate(k)
  {
    SurvivorsAre(order, before, suffixOf, k);
    if GroupHasValue(order, k) {
      var p :| p in Siblings(order, Parent(k));
      TemplateFits(order, Parent(k), suffixOf);
    }
  }

  predicate IsUnder(v: EndpointValue, w: EndpointValue) {
    v.methods <= w.methods && v.sources <= w.sources && v.confidence <= w.confidence
  }

  lemma WholeConserves(template: string, before: map<string, EndpointValue>, paths: seq<string>, p: string)
    requires (forall x :: x in paths ==> x in before) && p in paths
    ensures IsUnder(before[p], Whole(template, before, paths))
  {
    forall m | m in before[p].methods ensures m in Whole(template, before, paths).methods {
      assert p in Elements(paths);
    }
    forall s | s in before[p].sources ensures s in Whole(template, before, paths).sources {
      assert p in Elements(paths);
    }
  }

  /** The evidence of each path is at a key of its own group. */
  lemma EvidenceIsKept(
    order: seq<string>, before: map<string, EndpointValue>, suffixOf: seq<string> -> Suffix, p: string)
    returns (k: string)
    requires (forall x :: x in order <==> x in before) && p in before
    ensures var after := Coalesced(order, before, suffixOf);
      && k in after && Parent(k) == Parent(p)
      && IsUnder(before[p], after[k])
  {
    var paths := Siblings(order, Parent(p));
    assert p in paths && Parent(p) in Parents(order);
    if HasValue(paths) {
      k := TemplateFor(Parent(p), paths, suffixOf);
      TemplateFits(order, Parent(p), suffixOf);
      WholeConserves(k, before, paths, p);
    } else {
      k := p;
    }
    CoalescedKeyByKey(order, before, suffixOf, k);
  }

  /** Whatever a key of the result claims was observed at a path of the same group. */
  lemma EvidenceIsReal(
    order: seq<string>, before: map<string, EndpointValue>, suffixOf: seq<string> -> Suffix, k: string)
    requires (forall x :: x in order <==> x in before)
    requires k in Coalesced(order, before, suffixOf)
    ensures IsObserved(Coalesced(order, before, suffixOf)[k], Parent(k), before)
  {
    CoalescedKeyByKey(order, before, suffixOf, k);
    var paths := Siblings(order, Parent(k));
    if HasValue(paths) && k == TemplateFor(Parent(k), paths, suffixOf) {
      WholeIsObserved(k, before, paths, Parent(k));
    }
  }

  /** Whatever the endpoint has was observed at paths of this parent. */
  ghost predicate IsObserved(v: EndpointValue, parent: string, before: map<string, EndpointValue>) {
    && (forall m :: m in v.methods ==> exists p :: p in before && Parent(p) == parent && m in before[p].methods)
    && (forall s :: s in v.sources ==> exists p :: p in before && Parent(p) == parent && s in before[p].sources)
    && (exists p :: p in before && Parent(p) == parent && before[p].confidence == v.confidence
                    && before[p].absoluteUrl == v.absoluteUrl)
  }

  lemma WholeIsObserved(template: string, before: map<string, EndpointValue>, paths: seq<string>, parent: string)
    requires paths != [] && forall p :: p in paths ==> p in before && Parent(p) == parent
    ensures IsObserved(Whole(template, before, paths), parent, before)
  {
    var best := MostConfident(before, paths);
    assert best in before && Parent(best) == parent;
  }

  /** No method and no source is lost or invented. */
  lemma CoalescingConserves(order: seq<string>, before: map<string, EndpointValue>, suffixOf: seq<string> -> Suffix)
    requires forall x :: x in order <==> x in before
    ensures var after := Coalesced(order, before, suffixOf);
      MethodsOf(after.Keys, after) == MethodsOf(before.Keys, before)
      && SourcesOf(after.Keys, after) == SourcesOf(before.Keys, before)
  {
    var after := Coalesced(order, before, suffixOf);
    forall p | p in before ensures IsCovered(before[p], after) {
      var k := EvidenceIsKept(order, before, suffixOf, p);
    }
    forall k | k in after ensures OnlyFrom(after[k], before) { EvidenceIsReal(order, before, suffixOf, k); }
    SameEvidence(before, after);
  }

  ghost predicate IsCovered(v: EndpointValue, after: map<string, EndpointValue>) {
    exists k :: k in after && v.methods <= after[k].methods && v.sources <= after[k].sources
  }

  ghost predicate OnlyFrom(v: EndpointValue, before: map<string, EndpointValue>) {
    && (forall m :: m in v.methods ==> exists p :: p in before && m in before[p].methods)
    && (forall s :: s in v.sources ==> exists p :: p in before && s in before[p].sources)
  }

  lemma SameEvidence(before: map<string, EndpointValue>, after: map<string, EndpointValue>)
    requires forall p :: p in before ==> IsCovered(before[p], after)
    requires forall k :: k in after ==> OnlyFrom(after[k], before)
    ensures MethodsOf(after.Keys, after) == MethodsOf(before.Keys, before)
    ensures SourcesOf(after.Keys, after) == SourcesOf(before.Keys, before)
  {
  }

  // Coalescing the result again

  lemma {:induction false} SiblingsOfSum(a: seq<string>, b: seq<string>, parent: string)
    ensures Siblings(a + b, parent) == Siblings(a, parent) + Siblings(b, parent)
  {
    if b == [] {
      assert a + b == a;
    } else {
      var n := |b| - 1;
      assert (a + b)[..|a + b| - 1] == a + b[..n];
      SiblingsOfSum(a, b[..n], parent);
    }
  }

  lemma {:induction false} OneFamily(paths: seq<string>, parent: string, q: string)
    requires forall p :: p in paths ==> Parent(p) == parent
    ensures Siblings(paths, q) == if q == parent then paths else []
  {
    if paths != [] {
      var n := |paths| - 1;
      assert paths == paths[..n] + [paths[n]];
      OneFamily(paths[..n], parent, q);
    }
  }

  ghost predicate Distinct(s: seq<string>) { forall i, j :: 0 <= i < j < |s| ==> s[i] != s[j] }

  lemma {:induction false} ParentsAreDistinct(order: seq<string>)
    ensures Distinct(Parents(order))
  {
    if order != [] { ParentsAreDistinct(order[..|order| - 1]); }
  }

  lemma {:induction false} SiblingsLeft(
    parents: seq<string>, order: seq<string>, suffixOf: seq<string> -> Suffix, q: string)
    requires Distinct(parents) && forall x :: x in parents ==> x in Parents(order)
    ensures
      Siblings(OrderLeft(parents, order, suffixOf), q) ==
      if q in parents then KeysLeft(q, Siblings(order, q), suffixOf) else []
  {
    if parents != [] {
      var init, parent := parents[..|parents| - 1], parents[|parents| - 1];
      var last := KeysLeft(parent, Siblings(order, parent), suffixOf);
      assert parents == init + [parent];
      SiblingsLeft(init, order, suffixOf, q);
      KeysLeftFit(order, parent, suffixOf);
      OneFamily(last, parent, q);
      SiblingsOfSum(OrderLeft(init, order, suffixOf), last, q);
      assert q == parent ==> q !in init;
      assert OrderLeft(parents, order, suffixOf) == OrderLeft(init, order, suffixOf) + last;
    }
  }

  lemma {:induction false} OnlyTemplateIsExisting(t: string, names: seq<string>)
    requires IsTemplate(t) && forall p :: p in names ==> !IsTemplate(p)
    ensures ExistingTemplate([t] + names) == Some(t)
  {
    var paths := [t] + names;
    if names != [] {
      var n := |names|;
      assert paths[..n] == [t] + names[..n - 1];
      assert paths[n] in names;
      OnlyTemplateIsExisting(t, names[..n - 1]);
    } else {
      assert paths[..0] == [];
    }
  }

  lemma {:induction false} FirstStaysBest(before: map<string, EndpointValue>, paths: seq<string>)
    requires paths != [] && forall p :: p in paths ==> p in before
    requires forall p :: p in paths ==> before[p].confidence <= before[paths[0]].confidence
    ensures MostConfident(before, paths) == paths[0]
  {
    if |paths| > 1 {
      FirstStaysBest(before, paths[..|paths| - 1]);
    }
  }

  /** The endpoint that stands for a group already, stands for what is left of it. */
  lemma WholeAgain(t: string, after: map<string, EndpointValue>, paths: seq<string>)
    requires paths != [] && paths[0] == t && (forall p :: p in paths ==> p in after) && after[t].path == t
    requires
      forall p :: p in paths ==> IsUnder(after[p], after[t])
    ensures Whole(t, after, paths) == after[t]
  {
    FirstStaysBest(after, paths);
    assert MethodsOf(Elements(paths), after) == after[t].methods by { assert t in Elements(paths); }
    assert SourcesOf(Elements(paths), after) == after[t].sources by { assert t in Elements(paths); }
  }

  lemma KeyStays(order: seq<string>, before: map<string, EndpointValue>, suffixOf: seq<string> -> Suffix, k: string)
    requires (forall x :: x in order <==> x in before)
    requires k in CoalescedOrder(order, suffixOf)
    requires forall x :: x in CoalescedOrder(order, suffixOf) <==> x in Coalesced(order, before, suffixOf)
    ensures
      var again, after := CoalescedOrder(order, suffixOf), Coalesced(order, before, suffixOf);
      k in Coalesced(again, after, suffixOf) && Coalesced(again, after, suffixOf)[k] == after[k]
  {
    var again, after := CoalescedOrder(order, suffixOf), Coalesced(order, before, suffixOf);
    var q := Parent(k);
    var paths, left := Siblings(order, q), Siblings(again, q);
    CoalescedKeyByKey(order, before, suffixOf, k);
    CoalescedKeyByKey(again, after, suffixOf, k);
    ParentsAreDistinct(order);
    SiblingsLeft(Parents(order), order, suffixOf, q);
    assert q in Parents(order) by { var p := if k in paths then k else paths[0]; }
    if HasValue(left) {
      ValuedGroupStays(order, before, suffixOf, q);
      SurvivorsAre(again, after, suffixOf, k);
    }
  }

  lemma TemplateLeads(
    order: seq<string>, before: map<string, EndpointValue>, suffixOf: seq<string> -> Suffix, q: string, p: string)
    requires (forall x :: x in order <==> x in before) && q in Parents(order)
    requires HasValue(Siblings(order, q)) && p in KeysLeft(q, Siblings(order, q), suffixOf)
    ensures
      var after, t := Coalesced(order, before, suffixOf), TemplateFor(q, Siblings(order, q), suffixOf);
      p in after && t in after && after[t].path == t && IsUnder(after[p], after[t])
  {
    var paths := Siblings(order, q);
    var t := TemplateFor(q, paths, suffixOf);
    TemplateFits(order, q, suffixOf);
    CoalescedKeyByKey(order, before, suffixOf, t);
    CoalescedKeyByKey(order, before, suffixOf, p);
    if p != t { WholeConserves(t, before, paths, p); }
  }

  /** A group that still has a value after coalescing: its template looks like one. */
  lemma ValuedGroupStays(
    order: seq<string>, before: map<string, EndpointValue>, suffixOf: seq<string> -> Suffix, q: string)
    requires (forall x :: x in order <==> x in before) && q in Parents(order)
    requires HasValue(KeysLeft(q, Siblings(order, q), suffixOf))
    ensures
      var after, paths := Coalesced(order, before, suffixOf), Siblings(order, q);
      var t, left := TemplateFor(q, paths, suffixOf), KeysLeft(q, paths, suffixOf);
      && left == [t] + PlainNames(paths) && TemplateFor(q, left, suffixOf) == t && t in after
      && (forall p :: p in left ==> p in after) && Whole(t, after, left) == after[t]
  {
    var after, paths := Coalesced(order, before, suffixOf), Siblings(order, q);
    var t, left := TemplateFor(q, paths, suffixOf), KeysLeft(q, paths, suffixOf);
    TemplateFits(order, q, suffixOf);
    assert HasValue(paths);
    OnlyTemplateIsExisting(t, PlainNames(paths));
    TemplateLeads(order, before, suffixOf, q, t);
    forall p | p in left ensures p in after && IsUnder(after[p], after[t]) {
      TemplateLeads(order, before, suffixOf, q, p);
    }
    WholeAgain(t, after, left);
  }

  /** Coalescing the result again changes nothing. */
  lemma CoalesceTwice(order: seq<string>, before: map<string, EndpointValue>, suffixOf: seq<string> -> Suffix)
    requires forall x :: x in order <==> x in before
    ensures var again, after := CoalescedOrder(order, suffixOf), Coalesced(order, before, suffixOf);
      && (forall k :: k in again <==> k in after)
      && Coalesced(again, after, suffixOf) == after
      && CoalescedOrder(again, suffixOf) == again
  {
    OrderStays(order, suffixOf);
    var again, after := CoalescedOrder(order, suffixOf), Coalesced(order, before, suffixOf);
    forall k ensures k in again <==> k in after { CoalescedKeyByKey(order, before, suffixOf, k); }
    var twice := Coalesced(again, after, suffixOf);
    forall k | k in after ensures k in twice && twice[k] == after[k] { KeyStays(order, before, suffixOf, k); }
    forall k | k in twice ensures k in after {
      SurvivorsAre(again, after, suffixOf, k);
      if k !in again { TemplateComesBack(order, before, suffixOf, k); }
    }
    SameMap(after, twice);
  }

  lemma TemplateComesBack(
    order: seq<string>, before: map<string, EndpointValue>, suffixOf: seq<string> -> Suffix, k: string)
    requires (forall x :: x in order <==> x in before)
    requires forall x :: x in CoalescedOrder(order, suffixOf) <==> x in Coalesced(order, before, suffixOf)
    requires
      var left := Siblings(CoalescedOrder(order, suffixOf), Parent(k));
      HasValue(left) && k == TemplateFor(Parent(k), left, suffixOf)
    ensures k in Coalesced(order, before, suffixOf)
  {
    ParentsAreDistinct(order);
    SiblingsLeft(Parents(order), order, suffixOf, Parent(k));
    ValuedGroupStays(order, before, suffixOf, Parent(k));
  }

  // The order of the second result

  lemma {:induction false} ParentsOfSum(a: seq<string>, b: seq<string>, parent: string)
    requires b != [] && (forall p :: p in b ==> Parent(p) == parent) && parent !in Parents(a)
    ensures Parents(a + b) == Parents(a) + [parent]
  {
    var n := |b| - 1;
    assert (a + b)[..|a + b| - 1] == a + b[..n] && b[n] in b;
    if n == 0 {
      assert a + b[..n] == a;
    } else {
      assert forall p :: p in b[..n] ==> p in b;
      ParentsOfSum(a, b[..n], parent);
    }
  }

  lemma {:induction false} ParentsLeft(parents: seq<string>, order: seq<string>, suffixOf: seq<string> -> Suffix)
    requires Distinct(parents) && forall q :: q in parents ==> q in Parents(order)
    ensures Parents(OrderLeft(parents, order, suffixOf)) == parents
  {
    if parents != [] {
      var n := |parents| - 1;
      assert parents == parents[..n] + [parents[n]];
      ParentsLeft(parents[..n], order, suffixOf);
      KeysLeftFit(order, parents[n], suffixOf);
      var p :| p in order && Parent(p) == parents[n];
      assert p in Siblings(order, parents[n]);
      ParentsOfSum(
        OrderLeft(parents[..n], order, suffixOf), KeysLeft(parents[n], Siblings(order, parents[n]), suffixOf),
        parents[n]);
    }
  }

  lemma {:induction false} NamesStay(t: string, names: seq<string>)
    requires !IsPlainName(t) && forall p :: p in names ==> IsPlainName(p)
    ensures PlainNames([t] + names) == names
  {
    if names == [] {
      PlainNamesOn([], t);
      assert [] + [t] == [t] + names;
    } else {
      var init, last := names[..|names| - 1], names[|names| - 1];
      assert names == init + [last] && last in names;
      NamesStay(t, init);
      PlainNamesOn([t] + init, last);
      Associate([t], init, [last]);
    }
  }

  lemma PlainNamesOn(done: seq<string>, path: string)
    ensures PlainNames(done + [path]) == if IsPlainName(path) then PlainNames(done) + [path] else PlainNames(done)
  {
    assert (done + [path])[..|done|] == done;
  }

  /** What a group has left, it leaves again. */
  lemma KeysLeftTwice(order: seq<string>, q: string, suffixOf: seq<string> -> Suffix)
    requires q in Parents(order)
    ensures
      var left := KeysLeft(q, Siblings(order, q), suffixOf);
      KeysLeft(q, left, suffixOf) == left
  {
    var paths := Siblings(order, q);
    if HasValue(paths) && HasValue(KeysLeft(q, paths, suffixOf)) {
      TemplateFits(order, q, suffixOf);
      OnlyTemplateIsExisting(TemplateFor(q, paths, suffixOf), PlainNames(paths));
      NamesStay(TemplateFor(q, paths, suffixOf), PlainNames(paths));
    }
  }

  lemma {:induction false} OrderLeftAgain(
    parents: seq<string>, order: seq<string>, again: seq<string>, suffixOf: seq<string> -> Suffix)
    requires
      forall q :: q in parents ==>
        KeysLeft(q, Siblings(again, q), suffixOf) == KeysLeft(q, Siblings(order, q), suffixOf)
    ensures OrderLeft(parents, again, suffixOf) == OrderLeft(parents, order, suffixOf)
  {
    if parents != [] {
      var n := |parents| - 1;
      assert parents == parents[..n] + [parents[n]];
      OrderLeftAgain(parents[..n], order, again, suffixOf);
    }
  }

  /** Coalescing the result again keeps the order of its keys, too. */
  lemma OrderStays(order: seq<string>, suffixOf: seq<string> -> Suffix)
    ensures CoalescedOrder(CoalescedOrder(order, suffixOf), suffixOf) == CoalescedOrder(order, suffixOf)
  {
    var again, parents := CoalescedOrder(order, suffixOf), Parents(order);
    ParentsAreDistinct(order);
    ParentsLeft(parents, order, suffixOf);
    forall q | q in parents
      ensures KeysLeft(q, Siblings(again, q), suffixOf) == KeysLeft(q, Siblings(order, q), suffixOf)
    {
      SiblingsLeft(parents, order, suffixOf, q);
      KeysLeftTwice(order, q, suffixOf);
    }
    OrderLeftAgain(parents, order, again, suffixOf);
  }

  // The code

  const THRESHOLD := 3

  /** The parents and the groups of the paths so far. */
  ghost predicate Grouped(parents: seq<string>, groups: map<string, seq<string>>, done: seq<string>) {
    && parents == Parents(done) && (forall q :: q in groups <==> q in parents)
    && forall q :: Siblings(done, q) == if q in groups then groups[q] else []
  }

  lemma GroupStep(parents: seq<string>, groups: map<string, seq<string>>, done: seq<string>, path: string)
    requires Grouped(parents, groups, done)
    ensures
      var q := Parent(path);
      var group := if q in groups then groups[q] else [];
      Grouped(if q in groups then parents else parents + [q], groups[q := group + [path]], done + [path])
  {
    ParentsOn(done, path);
    var parent := Parent(path);
    var groups' := groups[parent := (if parent in groups then groups[parent] else []) + [path]];
    forall q ensures Siblings(done + [path], q) == if q in groups' then groups'[q] else [] {
      SiblingsOn(done, path, q);
      assert Siblings(done, q) == if q in groups then groups[q] else [];
    }
  }

  lemma ParentsOn(done: seq<string>, path: string)
    ensures
      var before, q := Parents(done), Parent(path);
      Parents(done + [path]) == if q in before then before else before + [q]
  {
    assert (done + [path])[..|done|] == done;
  }

  lemma SiblingsOn(done: seq<string>, path: string, q: string)
    ensures
      Siblings(done + [path], q) == if Parent(path) == q then Siblings(done, q) + [path] else Siblings(done, q)
  {
    assert (done + [path])[..|done|] == done;
  }

  method GroupByParent(order: seq<string>) returns (parents: seq<string>, groups: map<string, seq<string>>)
    ensures Grouped(parents, groups, order)
  {
    parents, groups := [], map[];
    for i := 0 to |order|
      invariant Grouped(parents, groups, order[..i])
    {
      var path := order[i];
      var parent := Parent(path);
      PrefixStep(order, i);
      GroupStep(parents, groups, order[..i], path);
      var group := if parent in groups then groups[parent] else [];
      parents := if parent in groups then parents else parents + [parent];
      groups := groups[parent := group + [path]];
    }
    assert order[..|order|] == order;
  }

  method SortOut(paths: seq<string>) returns (existing: Option<string>, names: seq<string>)
    ensures existing == ExistingTemplate(paths) && names == PlainNames(paths)
  {
    existing, names := None, [];
    for i := 0 to |paths|
      invariant existing == ExistingTemplate(paths[..i]) && names == PlainNames(paths[..i])
    {
      var p := paths[i];
      PrefixStep(paths, i);
      PlainNamesOn(paths[..i], p);
      ExistingTemplateOn(paths[..i], p);
      if IsTemplate(p) {
        existing := Some(p);
      } else if !IsValue(p) {
        names := names + [p];
      }
    }
    WholePrefix(paths);
  }

  lemma ExistingTemplateOn(done: seq<string>, path: string)
    ensures ExistingTemplate(done + [path]) == if IsTemplate(path) then Some(path) else ExistingTemplate(done)
  {
    assert (done + [path])[..|done|] == done;
  }

  /** All the evidence of a group in one new endpoint. */
  method Combine(
    observed: map<string, Endpoint>, template: string, paths: seq<string>, ghost before: map<string, EndpointValue>)
    returns (whole: Endpoint)
    requires Holds(observed, before) && paths != [] && forall p :: p in paths ==> p in observed
    ensures fresh(whole) && whole.Value() == Whole(template, before, paths)
  {
    var best, methods, sources := paths[0], {}, {};
    for i := 0 to |paths|
      invariant methods == MethodsOf(Elements(paths[..i]), before) && sources == SourcesOf(Elements(paths[..i]), before)
      invariant best in observed && best == if i == 0 then paths[0] else MostConfident(before, paths[..i])
    {
      var p := paths[i];
      BestStep(before, paths, i);
      OneMoreMember(before, paths, i);
      methods, sources := methods + observed[p].methods, sources + observed[p].sources;
      if observed[p].confidence > observed[best].confidence {
        best := p;
      }
    }
    assert paths[..|paths|] == paths;
    whole := new Endpoint(
      EndpointValue(template, observed[best].absoluteUrl, methods, sources, observed[best].confidence));
  }

  lemma BestStep(before: map<string, EndpointValue>, paths: seq<string>, i: nat)
    requires i < |paths| && forall p :: p in paths ==> p in before
    ensures
      MostConfident(before, paths[..i + 1]) ==
      if i == 0 then paths[0]
      else
        var best := MostConfident(before, paths[..i]);
        if before[paths[i]].confidence > before[best].confidence then paths[i] else best
  {
    assert paths[..i + 1][..i] == paths[..i];
  }

  lemma OneMoreMember(before: map<string, EndpointValue>, paths: seq<string>, i: nat)
    requires i < |paths| && forall p :: p in paths ==> p in before
    ensures
      MethodsOf(Elements(paths[..i + 1]), before) == MethodsOf(Elements(paths[..i]), before) + before[paths[i]].methods
    ensures
      SourcesOf(Elements(paths[..i + 1]), before) == SourcesOf(Elements(paths[..i]), before) + before[paths[i]].sources
  {
    PrefixStep(paths, i);
    assert Elements(paths[..i + 1]) == Elements(paths[..i]) + {paths[i]};
  }

  /** The code writes the template first; none of the names written after it is the same key. */
  lemma TemplateIsNoName(parent: string, paths: seq<string>, suffixOf: seq<string> -> Suffix)
    requires paths != [] && (forall p :: p in paths ==> Parent(p) == parent)
    ensures TemplateFor(parent, paths, suffixOf) !in PlainNames(paths)
  {
    assert Parent(paths[0]) == parent;
    NewTemplateFits(paths[0], suffixOf(paths));
    assert IsWildcard(PLACEHOLDER);
  }

  /** Every endpoint is the observed one or a new one. */
  ghost predicate OldOrNew(observed: map<string, Endpoint>, merged: map<string, Endpoint>, made: set<Endpoint>) {
    forall k :: k in merged ==> merged[k] in made || (k in observed && merged[k] == observed[k])
  }

  function Taken(observed: map<string, Endpoint>, paths: seq<string>): map<string, Endpoint>
    requires forall p :: p in paths ==> p in observed
  {
    map p | p in paths :: observed[p]
  }

  /** The template's endpoint, and after it those of the names. */
  function Under(template: string, whole: Endpoint, observed: map<string, Endpoint>, names: seq<string>)
    : map<string, Endpoint>
    requires forall p :: p in names ==> p in observed
  {
    map[template := whole] + Taken(observed, names)
  }

  lemma CollapsedHolds(
    observed: map<string, Endpoint>, parent: string, paths: seq<string>, suffixOf: seq<string> -> Suffix,
    before: map<string, EndpointValue>, whole: Endpoint)
    requires Holds(observed, before) && HasValue(paths) && forall p :: p in paths ==> p in observed
    requires TemplateFor(parent, paths, suffixOf) !in PlainNames(paths)
    requires whole.Value() == Whole(TemplateFor(parent, paths, suffixOf), before, paths)
    ensures
      var merged := Under(TemplateFor(parent, paths, suffixOf), whole, observed, PlainNames(paths));
      Holds(merged, GroupValues(parent, paths, before, suffixOf)) && OldOrNew(observed, merged, {whole})
  {
    var t, names := TemplateFor(parent, paths, suffixOf), PlainNames(paths);
    var values := GroupValues(parent, paths, before, suffixOf);
    forall k | k in names ensures k in observed && k in values && observed[k].Value() == values[k] {
      assert values[k] == before[k];
    }
    assert values[t] == Whole(t, before, paths);
  }

  method Collapse(
    observed: map<string, Endpoint>, parent: string, paths: seq<string>, suffixOf: seq<string> -> Suffix,
    ghost before: map<string, EndpointValue>)
    returns (merged: map<string, Endpoint>, keys: seq<string>, whole: Endpoint)
    requires Holds(observed, before) && paths != []
    requires forall p :: p in paths ==> p in observed && Parent(p) == parent
    requires HasValue(paths)
    ensures keys == KeysLeft(parent, paths, suffixOf) && Holds(merged, GroupValues(parent, paths, before, suffixOf))
    ensures OldOrNew(observed, merged, {whole}) && fresh(whole)
  {
    var existing, names := SortOut(paths);
    var template := if existing.Some? then existing.value else NewTemplate(parent, suffixOf(paths));
    TemplateIsNoName(parent, paths, suffixOf);
    whole := Combine(observed, template, paths, before);
    CollapsedHolds(observed, parent, paths, suffixOf, before, whole);
    merged, keys := Under(template, whole, observed, names), [template] + names;
  }

  method CoalesceGroup(
    observed: map<string, Endpoint>, parent: string, paths: seq<string>, suffixOf: seq<string> -> Suffix,
    ghost before: map<string, EndpointValue>)
    returns (merged: map<string, Endpoint>, keys: seq<string>, ghost made: set<Endpoint>)
    requires Holds(observed, before) && paths != []
    requires forall p :: p in paths ==> p in observed && Parent(p) == parent
    ensures keys == KeysLeft(parent, paths, suffixOf) && Holds(merged, GroupValues(parent, paths, before, suffixOf))
    ensures OldOrNew(observed, merged, made) && forall e :: e in made ==> fresh(e)
  {
    if |paths| < THRESHOLD {
      var hasValue := exists p :: p in paths && IsValue(p);
      if !hasValue {
        return Taken(observed, paths), paths, {};
      }
    }
    var hasValue := exists p :: p in paths && IsValue(p);
    if !hasValue {
      return Taken(observed, paths), paths, {};
    }
    var whole;
    merged, keys, whole := Collapse(observed, parent, paths, suffixOf, before);
    made := {whole};
  }

  ghost predicate IsGroupedBy(parents: seq<string>, groups: map<string, seq<string>>, order: seq<string>) {
    forall q :: q in parents ==> q in groups && groups[q] == Siblings(order, q) && groups[q] != []
  }

  lemma EveryGroupIsThere(parents: seq<string>, groups: map<string, seq<string>>, order: seq<string>)
    requires Grouped(parents, groups, order)
    ensures IsGroupedBy(parents, groups, order)
  {
    forall q | q in parents ensures Siblings(order, q) != [] {
      var p :| p in order && Parent(p) == q;
      assert p in Siblings(order, q);
    }
  }

  method CoalesceGroups(
    observed: map<string, Endpoint>, parents: seq<string>, groups: map<string, seq<string>>,
    suffixOf: seq<string> -> Suffix, ghost order: seq<string>, ghost before: map<string, EndpointValue>)
    returns (merged: map<string, Endpoint>, keys: seq<string>, ghost made: set<Endpoint>)
    requires Holds(observed, before) && (forall p :: p in order ==> p in before)
    requires IsGroupedBy(parents, groups, order)
    ensures Holds(merged, ValuesLeft(parents, order, before, suffixOf)) && keys == OrderLeft(parents, order, suffixOf)
    ensures OldOrNew(observed, merged, made) && forall e :: e in made ==> fresh(e)
  {
    merged, keys, made := map[], [], {};
    for i := 0 to |parents|
      invariant Holds(merged, ValuesLeft(parents[..i], order, before, suffixOf))
      invariant keys == OrderLeft(parents[..i], order, suffixOf)
      invariant OldOrNew(observed, merged, made) && forall e :: e in made ==> fresh(e)
    {
      LeftStep(parents, i, order, before, suffixOf);
      var paths := groups[parents[i]];
      var left, leftKeys;
      ghost var more;
      left, leftKeys, more := CoalesceGroup(observed, parents[i], paths, suffixOf, before);
      HoldsBoth(merged, ValuesLeft(parents[..i], order, before, suffixOf),
        left, GroupValues(parents[i], paths, before, suffixOf));
      OldOrNewBoth(observed, merged, made, left, more);
      merged, keys, made := merged + left, keys + leftKeys, made + more;
    }
    assert parents[..|parents|] == parents;
  }

  method CoalesceSiblingEndpoints(observed: map<string, Endpoint>, order: seq<string>, suffixOf: seq<string> -> Suffix)
    returns (merged: map<string, Endpoint>, keys: seq<string>)
    requires (forall k :: k in observed <==> k in order)
    ensures Snapshot(merged) == Coalesced(order, Snapshot(observed), suffixOf)
    ensures keys == CoalescedOrder(order, suffixOf)
    ensures forall k :: k in merged ==> fresh(merged[k]) || (k in observed && merged[k] == observed[k])
  {
    var parents, groups := GroupByParent(order);
    EveryGroupIsThere(parents, groups, order);
    ghost var made;
    merged, keys, made := CoalesceGroups(observed, parents, groups, suffixOf, order, Snapshot(observed));
    SnapshotIs(merged, Coalesced(order, Snapshot(observed), suffixOf));
  }

  lemma LeftStep(
    parents: seq<string>, i: nat, order: seq<string>, before: map<string, EndpointValue>,
    suffixOf: seq<string> -> Suffix)
    requires i < |parents| && forall p :: p in order ==> p in before
    ensures
      var paths := Siblings(order, parents[i]);
      && OrderLeft(parents[..i + 1], order, suffixOf) ==
         OrderLeft(parents[..i], order, suffixOf) + KeysLeft(parents[i], paths, suffixOf)
      && ValuesLeft(parents[..i + 1], order, before, suffixOf) ==
         ValuesLeft(parents[..i], order, before, suffixOf) + GroupValues(parents[i], paths, before, suffixOf)
  {
    assert parents[..i + 1][..i] == parents[..i];
  }

  lemma OldOrNewBoth(
    observed: map<string, Endpoint>, a: map<string, Endpoint>, made: set<Endpoint>, b: map<string, Endpoint>,
    more: set<Endpoint>)
    requires OldOrNew(observed, a, made) && OldOrNew(observed, b, more)
    ensures OldOrNew(observed, a + b, made + more)
  {
  }

  lemma HoldsBoth(
    a: map<string, Endpoint>, v: map<string, EndpointValue>, b: map<string, Endpoint>, w: map<string, EndpointValue>)
    requires Holds(a, v) && Holds(b, w)
    ensures Holds(a + b, v + w)
  {
  }
}
