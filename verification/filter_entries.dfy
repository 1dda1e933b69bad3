/** What each entry of a field filter contributes, read off its text and the payload. */
module FilterEntries {
  import opened Common
  import opened Json
  import opened FieldRules
  import DotPath

  // Reading an entry

  /** An entry with an array mark is split at the first one. */
  lemma ParseSplitsAtMark(entry: string, root: string, field: string)
    ensures
      Parse(entry) == ItemField(root, field) <==>
      entry == root + "[]." + field && forall i :: 0 <= i < |root| ==> !("[]." <= entry[i..])
  {
    MarkIsText(entry);
    var mark := FirstMark(entry);
    if mark.Some? {
      var n := mark.value;
      assert entry == entry[..n] + "[]." + entry[n + 3..] by { assert entry[n..n + 3] == "[]."; }
    }
    if entry == root + "[]." + field && forall i :: 0 <= i < |root| ==> !("[]." <= entry[i..]) {
      assert entry[|root|..] == "[]." + field && MarkAt(entry, |root|);
      assert entry[..|root|] == root && entry[|root| + 3..] == field;
    }
  }

  lemma MarkIsText(entry: string)
    ensures forall i :: 0 <= i < |entry| ==> (MarkAt(entry, i) <==> "[]." <= entry[i..])
  {
    forall i | 0 <= i < |entry| ensures MarkAt(entry, i) <==> "[]." <= entry[i..] {
      if i + 3 <= |entry| { assert entry[i..][..3] == entry[i..i + 3]; }
    }
  }

  /** Any other entry is a path through objects. */
  lemma ParseSplitsAtDots(entry: string)
    ensures Parse(entry).Field? <==> forall i :: 0 <= i < |entry| ==> !("[]." <= entry[i..])
    ensures Parse(entry).Field? ==> Parse(entry).path == DotPath.Split(entry)
  {
    MarkIsText(entry);
  }

  // What an entry asks for

  /** The entry is a path that the value has, and it leads to, past or towards `q`. */
  predicate Leads(entry: string, j: Json, q: Path) {
    Parse(entry).Field? && Present(j, Parse(entry).path) && (Parse(entry).path <= q || q <= Parse(entry).path)
  }

  ghost predicate SomeLeads(filter: set<string>, j: Json, q: Path) { exists x :: x in filter && Leads(x, j, q) }

  /** Some entry marks this field of the items at some root. */
  ghost predicate SomeMarks(filter: set<string>, field: string) {
    exists x :: x in filter && Parse(x).ItemField? && Parse(x).field == field
  }

  ghost predicate MarksRoot(filter: set<string>, root: string) {
    exists x :: x in filter && Parse(x).ItemField? && Parse(x).root == root
  }

  lemma RootsAreMarked(filter: set<string>, root: string)
    ensures root in Arrays(filter) <==> MarksRoot(filter, root)
  {
  }

  lemma PathsLead(filter: set<string>, j: Json, q: Path)
    ensures Touches(j, Paths(filter), q) <==> SomeLeads(filter, j, q)
  {
    if Touches(j, Paths(filter), q) {
      var p :| p in Paths(filter) && Present(j, p) && (p <= q || q <= p);
      var x :| x in filter && Parse(x).Field? && Parse(x).path == p;
      assert Leads(x, j, q);
    }
    if SomeLeads(filter, j, q) {
      var x :| x in filter && Leads(x, j, q);
      assert Parse(x).path in Paths(filter);
    }
  }

  lemma MarkedAreKeys(filter: set<string>, field: string)
    ensures [field] in Keys(AllItemFields(Arrays(filter))) <==> SomeMarks(filter, field)
  {
    var arrays := Arrays(filter);
    if SomeMarks(filter, field) {
      var x :| x in filter && Parse(x).ItemField? && Parse(x).field == field;
      assert Parse(x).root in arrays && field in arrays[Parse(x).root];
    }
    if [field] in Keys(AllItemFields(arrays)) {
      var k :| k in AllItemFields(arrays) && [k] == [field];
      assert k == [k][0] == [field][0] == field;
    }
  }

  // What stays of an object payload, and of each object in a list payload

  /** Below a root that no entry marks, an object payload keeps exactly what some entry leads to. */
  lemma ObjectKeepsExactly(j: Json, filter: set<string>, q: Path)
    requires j.Object? && filter != {} && q != [] && !MarksRoot(filter, q[0])
    ensures Present(FilterJson(j, filter), q) <==> Present(j, q) && SomeLeads(filter, j, q)
    ensures
      Present(j, q) && (exists x :: x in filter && Parse(x) == Field(q)) ==>
        At(FilterJson(j, filter), q) == At(j, q)
  {
    FilterKeepsExactly(j, filter, q);
    PathsLead(filter, j, q);
  }

  /** For a list payload, marked fields count as keys of its items, too. */
  lemma ItemPathsLead(filter: set<string>, j: Json, q: Path)
    requires q != [] && Present(j, q)
    ensures Touches(j, ItemRules(filter).paths, q) <==> SomeLeads(filter, j, q) || SomeMarks(filter, q[0])
  {
    var keys := Keys(AllItemFields(Arrays(filter)));
    PathsLead(filter, j, q);
    MarkedAreKeys(filter, q[0]);
    FirstStepIsPresent(j, q);
    if Touches(j, ItemRules(filter).paths, q) {
      var p :| p in ItemRules(filter).paths && Present(j, p) && (p <= q || q <= p);
      if p in keys { assert p == [q[0]]; }
    }
    if SomeMarks(filter, q[0]) { assert [q[0]] in ItemRules(filter).paths; }
  }

  lemma FirstStepIsPresent(j: Json, q: Path)
    requires q != [] && Present(j, q)
    ensures [q[0]] <= q && Present(j, [q[0]])
  {
    assert [q[0]][1..] == [];
  }

  lemma RulesHaveNoEmptyPath(filter: set<string>)
    ensures [] !in ItemRules(filter).paths
  {
  }

  /** An object in a list payload keeps, below unmarked roots, what some entry leads to and every marked field. */
  lemma ListItemKeepsExactly(j: Json, filter: set<string>, i: nat, q: Path)
    requires j.Array? && filter != {} && i < |j.items| && j.items[i].Object? && q != [] && !MarksRoot(filter, q[0])
    ensures
      var r, item := FilterJson(j, filter), j.items[i];
      && r.Array? && |r.items| == |j.items|
      && (Present(r.items[i], q) <==> Present(item, q) && (SomeLeads(filter, item, q) || SomeMarks(filter, q[0])))
      && (Present(item, q) && (SomeMarks(filter, q[0]) || exists x :: x in filter && Parse(x) == Field(q)) ==>
            At(r.items[i], q) == At(item, q))
  {
    var item, rules := j.items[i], ItemRules(filter);
    RulesHaveNoEmptyPath(filter);
    RootsAreMarked(filter, q[0]);
    FilteredHas(item, rules, q);
    if Present(item, q) {
      ItemPathsLead(filter, item, q);
      if SomeMarks(filter, q[0]) {
        MarkedAreKeys(filter, q[0]);
        MarkedFieldIsWhole(item, rules, q);
      } else if exists x :: x in filter && Parse(x) == Field(q) {
        FilteredKeeps(item, rules, q);
      }
    }
  }

  lemma MarkedFieldIsWhole(item: Json, rules: Rules, q: Path)
    requires item.Object? && [] !in rules.paths && q != [] && Present(item, q) && q[0] !in rules.arrays
    requires [q[0]] in rules.paths
    ensures Present(Filtered(item, rules), q) && At(Filtered(item, rules), q) == At(item, q)
  {
    FirstStepIsPresent(item, q);
    FilteredKeeps(item, rules, [q[0]]);
    assert [q[0]][1..] == [];
    assert At(item, [q[0]]) == item.fields[q[0]];
  }

  /** Items of a list payload that are no objects stay, as do scalar payloads, and everything under an empty filter. */
  lemma OtherValuesStay(j: Json, filter: set<string>)
    ensures filter == {} || j.Scalar? ==> FilterJson(j, filter) == j
    ensures
      filter != {} && j.Array? ==>
        && FilterJson(j, filter).Array? && |FilterJson(j, filter).items| == |j.items|
        && forall i :: 0 <= i < |j.items| && !j.items[i].Object? ==> FilterJson(j, filter).items[i] == j.items[i]
  {
  }

  // What stays at a marked root

  /** At a marked root: a list whose objects keep exactly the marked fields, or any other value as it is. */
  ghost predicate IsNarrowed(r: Json, value: Json, filter: set<string>, root: string) {
    if value.Array? then
      && r.Array? && |r.items| == |value.items|
      && forall i :: 0 <= i < |value.items| ==> IsPicked(r.items[i], value.items[i], filter, root)
    else r == value
  }

  ghost predicate IsPicked(r: Json, item: Json, filter: set<string>, root: string) {
    if item.Object? then
      && r.Object?
      && (forall f :: f in r.fields <==> f in item.fields && exists x :: x in filter && Parse(x) == ItemField(root, f))
      && forall f :: f in r.fields ==> r.fields[f] == item.fields[f]
    else r == item
  }

  lemma PickIsPicked(item: Json, filter: set<string>, root: string)
    requires root in Arrays(filter)
    ensures IsPicked(Pick(item, Arrays(filter)[root]), item, filter, root)
  {
    var fields := Arrays(filter)[root];
    forall f ensures f in fields <==> exists x :: x in filter && Parse(x) == ItemField(root, f) {
    }
    if item.Object? { PickFields(item, fields); }
  }

  lemma NarrowIsNarrowed(value: Json, filter: set<string>, root: string)
    requires root in Arrays(filter)
    ensures IsNarrowed(Narrow(value, Arrays(filter)[root]), value, filter, root)
  {
    if value.Array? {
      forall i | 0 <= i < |value.items|
        ensures IsPicked(Pick(value.items[i], Arrays(filter)[root]), value.items[i], filter, root)
      {
        PickIsPicked(value.items[i], filter, root);
      }
    }
  }

  /** A marked root is decided by the marks alone, in an object payload and in each object of a list payload. */
  lemma MarkedRootIsNarrowed(j: Json, filter: set<string>, root: string)
    requires MarksRoot(filter, root)
    ensures
      j.Object? ==>
        var r := FilterJson(j, filter);
        && r.Object? && (root in r.fields <==> root in j.fields)
        && (root in j.fields ==> IsNarrowed(r.fields[root], j.fields[root], filter, root))
    ensures
      j.Array? ==>
        var r := FilterJson(j, filter);
        && r.Array? && |r.items| == |j.items|
        && forall i :: 0 <= i < |j.items| && j.items[i].Object? ==>
             && r.items[i].Object? && (root in r.items[i].fields <==> root in j.items[i].fields)
             && (root in j.items[i].fields ==>
                   IsNarrowed(r.items[i].fields[root], j.items[i].fields[root], filter, root))
  {
    if j.Object? { RootInFiltered(j, RulesOf(filter), filter, root); }
    if j.Array? {
      forall i | 0 <= i < |j.items| && j.items[i].Object?
        ensures RootIsNarrowed(Filtered(j.items[i], ItemRules(filter)), j.items[i], filter, root)
      {
        RootInFiltered(j.items[i], ItemRules(filter), filter, root);
      }
    }
  }

  ghost predicate RootIsNarrowed(r: Json, j: Json, filter: set<string>, root: string) {
    && j.Object? && r.Object? && (root in r.fields <==> root in j.fields)
    && (root in j.fields ==> IsNarrowed(r.fields[root], j.fields[root], filter, root))
  }

  lemma RootInFiltered(j: Json, rules: Rules, filter: set<string>, root: string)
    requires j.Object? && rules.arrays == Arrays(filter) && MarksRoot(filter, root)
    ensures RootIsNarrowed(Filtered(j, rules), j, filter, root)
  {
    RootsAreMarked(filter, root);
    FilteredIsWithin(j, rules);
    if root in j.fields { NarrowIsNarrowed(j.fields[root], filter, root); }
  }
}
