/** What a field filter asks for, and the value it makes of a payload. */
module FieldRules {
  import opened Common
  import opened Json
  import DotPath

  // Reading one entry of the filter

  const MARK := "[]."

  predicate MarkAt(text: string, i: int) { 0 <= i && i + 3 <= |text| && text[i..i + 3] == MARK }

  /** Where the text first has the array mark. */
  function FirstMark(text: string): (r: Option<nat>)
    ensures r.Some? ==> MarkAt(text, r.value) && forall i :: 0 <= i < r.value ==> !MarkAt(text, i)
    ensures r.None? ==> forall i :: !MarkAt(text, i)
  {
    if MarkAt(text, 0) then Some(0)
    else if text == "" then None
    else
      var r := FirstMark(text[1..]);
      assert forall i :: i > 0 ==> (MarkAt(text, i) <==> MarkAt(text[1..], i - 1)) by { MarksShift(text); }
      if r.Some? then Some(r.value + 1)
      else
        assert forall i :: MarkAt(text, i) ==> i > 0;
        None
  }

  lemma MarksShift(text: string)
    requires text != ""
    ensures forall i :: i > 0 ==> (MarkAt(text, i) <==> MarkAt(text[1..], i - 1))
  {
    forall i | i > 0 ensures MarkAt(text, i) <==> MarkAt(text[1..], i - 1) {
      if i + 3 <= |text| { assert text[1..][i - 1..i + 2] == text[i..i + 3]; }
    }
  }

  /** A field of every item of a list, or a path through objects. */
  datatype Request = ItemField(root: string, field: string) | Field(path: Path)

  function Parse(text: string): (r: Request)
    ensures r.Field? ==> r.path != []
  {
    match FirstMark(text)
    case Some(i) => ItemField(text[..i], text[i + 3..])
    case None => Field(DotPath.Split(text))
  }

  // The rules a filter amounts to

  datatype Rules = Rules(paths: set<Path>, arrays: map<string, set<string>>)

  function Paths(filter: set<string>): set<Path> { set f | f in filter && Parse(f).Field? :: Parse(f).path }

  function Roots(filter: set<string>): set<string> { set f | f in filter && Parse(f).ItemField? :: Parse(f).root }

  function ItemFields(filter: set<string>, root: string): set<string> {
    set f | f in filter && Parse(f).ItemField? && Parse(f).root == root :: Parse(f).field
  }

  function Arrays(filter: set<string>): map<string, set<string>> {
    map root | root in Roots(filter) :: ItemFields(filter, root)
  }

  function AllItemFields(arrays: map<string, set<string>>): set<string> {
    set root, field | root in arrays && field in arrays[root] :: field
  }

  function Keys(keys: set<string>): set<Path> { set k | k in keys :: [k] }

  function RulesOf(filter: set<string>): Rules { Rules(Paths(filter), Arrays(filter)) }

  /** For a payload that is itself a list, the fields of items are fields of the payload's items, too. */
  function ItemRules(filter: set<string>): Rules {
    var r := RulesOf(filter);
    r.(paths := r.paths + Keys(AllItemFields(r.arrays)))
  }

  // The filtered value

  function Pick(item: Json, keys: set<string>): Json { Project(item, Keys(keys)) }

  function Narrow(j: Json, keys: set<string>): Json {
    if j.Array? then Array(seq(|j.items|, i requires 0 <= i < |j.items| => Pick(j.items[i], keys))) else j
  }

  function Narrowed(fields: map<string, Json>, arrays: map<string, set<string>>): map<string, Json> {
    map root | root in arrays && root in fields :: Narrow(fields[root], arrays[root])
  }

  /** An object keeps the paths asked for; a root with item rules is decided by those alone. */
  function Filtered(j: Json, r: Rules): Json {
    if !j.Object? then j
    else
      Object(Project(j, PresentOnly(j, r.paths)).fields + Narrowed(j.fields, r.arrays))
  }

  function FilterJson(j: Json, filter: set<string>): Json {
    if filter == {} then j
    else
      match j
      case Object(_) => Filtered(j, RulesOf(filter))
      case Array(items) =>
        Array(seq(|items|, i requires 0 <= i < |items| => Filtered(items[i], ItemRules(filter))))
      case Scalar(_) => j
  }

  // Nothing is invented or moved

  lemma NarrowIsWithin(j: Json, keys: set<string>)
    ensures Within(Narrow(j, keys), j)
  {
    if j.Array? {
      forall i | 0 <= i < |j.items| ensures Within(Pick(j.items[i], keys), j.items[i]) {
        ProjectionIsWithin(j.items[i], Keys(keys));
      }
    } else {
      WithinItself(j);
    }
  }

  lemma FilteredIsWithin(j: Json, r: Rules)
    ensures Within(Filtered(j, r), j)
  {
    WithinItself(j);
    if j.Object? {
      ProjectionIsWithin(j, PresentOnly(j, r.paths));
      forall k | k in Narrowed(j.fields, r.arrays) ensures Within(Narrowed(j.fields, r.arrays)[k], j.fields[k]) {
        NarrowIsWithin(j.fields[k], r.arrays[k]);
      }
    }
  }

  /** Whatever the filtered payload holds, the payload holds at the same place. */
  lemma FilterIsWithin(j: Json, filter: set<string>)
    ensures Within(FilterJson(j, filter), j)
  {
    WithinItself(j);
    if j.Object? { FilteredIsWithin(j, RulesOf(filter)); }
    if j.Array? {
      forall i | 0 <= i < |j.items| ensures Within(Filtered(j.items[i], ItemRules(filter)), j.items[i]) {
        FilteredIsWithin(j.items[i], ItemRules(filter));
      }
    }
  }

  // Exactly what was asked for is there

  /** The path leads to a value that was asked for, or on to or from it. */
  ghost predicate Touches(j: Json, paths: set<Path>, q: Path) {
    exists p :: p in paths && Present(j, p) && (p <= q || q <= p)
  }

  lemma OwnRootsAreProjected(j: Json, r: Rules, q: Path)
    requires j.Object? && [] !in r.paths && q != [] && q[0] !in r.arrays
    ensures Present(Filtered(j, r), q) <==> Present(Project(j, PresentOnly(j, r.paths)), q)
    ensures Present(Filtered(j, r), q) ==> At(Filtered(j, r), q) == At(Project(j, PresentOnly(j, r.paths)), q)
  {
  }

  lemma ProjectionTouches(j: Json, paths: set<Path>, q: Path)
    requires j.Object? && q != []
    ensures Present(Project(j, PresentOnly(j, paths)), q) <==> Present(j, q) && Touches(j, paths, q)
  {
    ProjectionHas(j, PresentOnly(j, paths), q);
    if p :| p in PresentOnly(j, paths) && (p <= q || q <= p) {
      assert p in paths && Present(j, p);
    }
    if Touches(j, paths, q) {
      var p :| p in paths && Present(j, p) && (p <= q || q <= p);
      assert p in PresentOnly(j, paths);
    }
  }

  lemma FilteredHas(j: Json, r: Rules, q: Path)
    requires j.Object? && [] !in r.paths && q != [] && q[0] !in r.arrays
    ensures Present(Filtered(j, r), q) <==> Present(j, q) && Touches(j, r.paths, q)
  {
    OwnRootsAreProjected(j, r, q);
    ProjectionTouches(j, r.paths, q);
  }

  lemma FilteredKeeps(j: Json, r: Rules, p: Path)
    requires j.Object? && [] !in r.paths && p in r.paths && Present(j, p) && p[0] !in r.arrays
    ensures Present(Filtered(j, r), p) && At(Filtered(j, r), p) == At(j, p)
  {
    ProjectionKeeps(j, PresentOnly(j, r.paths), p);
    OwnRootsAreProjected(j, r, p);
  }

  // Filtering again changes nothing

  lemma NarrowTwice(j: Json, keys: set<string>)
    ensures Narrow(Narrow(j, keys), keys) == Narrow(j, keys)
  {
    if j.Array? {
      forall i | 0 <= i < |j.items| ensures Pick(Pick(j.items[i], keys), keys) == Pick(j.items[i], keys) {
        ProjectTwice(j.items[i], Keys(keys));
      }
    }
  }

  /** Away from array roots, the second filter finds the same paths as the first. */
  lemma TailsStay(j: Json, r: Rules, k: string)
    requires j.Object? && [] !in r.paths && k !in r.arrays
    ensures Tails(PresentOnly(Filtered(j, r), r.paths), k) == Tails(PresentOnly(j, r.paths), k)
  {
    forall p | p in r.paths && p != [] && p[0] == k ensures Present(Filtered(j, r), p) <==> Present(j, p) {
      if Present(j, p) { FilteredKeeps(j, r, p); } else { FilteredHas(j, r, p); }
    }
  }

  lemma FieldStays(j: Json, r: Rules, k: string)
    requires j.Object? && [] !in r.paths && k in Filtered(j, r).fields
    ensures var once := Filtered(j, r); k in Filtered(once, r).fields && Filtered(once, r).fields[k] == once.fields[k]
  {
    var once := Filtered(j, r);
    if k in r.arrays {
      assert k in j.fields;
      NarrowTwice(j.fields[k], r.arrays[k]);
    } else {
      var tails := Tails(PresentOnly(j, r.paths), k);
      TailsStay(j, r, k);
      ProjectTwice(j.fields[k], tails);
      assert k in Heads(PresentOnly(j, r.paths));
      var p :| p in PresentOnly(j, r.paths) && p != [] && p[0] == k;
      assert p[1..] in tails;
      assert p[1..] in Tails(PresentOnly(once, r.paths), k);
    }
  }

  lemma FilteredTwice(j: Json, r: Rules)
    requires [] !in r.paths
    ensures Filtered(Filtered(j, r), r) == Filtered(j, r)
  {
    if j.Object? {
      var once := Filtered(j, r);
      forall k | k in once.fields
        ensures k in Filtered(once, r).fields && Filtered(once, r).fields[k] == once.fields[k]
      {
        FieldStays(j, r, k);
      }
      assert Filtered(once, r).fields == once.fields;
    }
  }

  lemma FilterTwice(j: Json, filter: set<string>)
    ensures FilterJson(FilterJson(j, filter), filter) == FilterJson(j, filter)
  {
    if filter != {} {
      if j.Object? { FilteredTwice(j, RulesOf(filter)); }
      if j.Array? {
        var r := ItemRules(filter);
        forall i | 0 <= i < |j.items| ensures Filtered(Filtered(j.items[i], r), r) == Filtered(j.items[i], r) {
          FilteredTwice(j.items[i], r);
        }
      }
    }
  }

  /**
   A filter on an object, root by root: where no array mark names the root, a path is in the result exactly
   if the object has it and it leads to, past or towards a requested path; a requested path keeps its value.
   */
  lemma FilterKeepsExactly(j: Json, filter: set<string>, q: Path)
    requires j.Object? && filter != {} && q != [] && q[0] !in Roots(filter)
    ensures Present(FilterJson(j, filter), q) <==> Present(j, q) && Touches(j, Paths(filter), q)
    ensures q in Paths(filter) && Present(j, q) ==> At(FilterJson(j, filter), q) == At(j, q)
  {
    FilteredHas(j, RulesOf(filter), q);
    if q in Paths(filter) && Present(j, q) { FilteredKeeps(j, RulesOf(filter), q); }
  }

  lemma PickFields(item: Json, keys: set<string>)
    requires item.Object?
    ensures Pick(item, keys) == Object(map k | k in item.fields && k in keys :: item.fields[k])
  {
    HeadsOfKeys(keys);
    var picked := Pick(item, keys);
    forall k | k in item.fields && k in keys ensures picked.fields[k] == item.fields[k] {
      assert [k] in Keys(keys) && [k][1..] == [];
      assert [] in Tails(Keys(keys), k);
      assert picked.fields[k] == Project(item.fields[k], Tails(Keys(keys), k));
    }
    assert picked.fields == map k | k in item.fields && k in keys :: item.fields[k];
  }

  lemma PickIsWhole(item: Json, keys: set<string>)
    ensures Pick(item, keys) == item <==> (item.Object? ==> item.fields.Keys <= keys)
  {
    if item.Object? {
      PickFields(item, keys);
      var picked := Pick(item, keys);
      assert picked.fields.Keys == item.fields.Keys * keys;
      if item.fields.Keys <= keys { assert picked.fields == item.fields; }
    }
  }

  lemma HeadsOfKeys(keys: set<string>)
    ensures Heads(Keys(keys)) == keys
  {
    forall k | k in keys ensures k in Heads(Keys(keys)) { assert [k] in Keys(keys); }
  }

  lemma NarrowIsWhole(j: Json, keys: set<string>)
    ensures
      Narrow(j, keys) == j <==>
      (j.Array? ==> forall i :: 0 <= i < |j.items| && j.items[i].Object? ==> j.items[i].fields.Keys <= keys)
  {
    if j.Array? {
      forall i | 0 <= i < |j.items|
        ensures Pick(j.items[i], keys) == j.items[i] <==> (j.items[i].Object? ==> j.items[i].fields.Keys <= keys)
      {
        PickIsWhole(j.items[i], keys);
      }
      if Narrow(j, keys) == j {
        forall i | 0 <= i < |j.items| ensures Pick(j.items[i], keys) == j.items[i] {
          assert Narrow(j, keys).items[i] == j.items[i];
        }
      }
    }
  }

  /**
   A requested path of an object keeps its value unless an array mark names its root, the root is a list,
   and some item of the list has a field that no array mark names.
   */
  lemma RequestedIsKeptIff(j: Json, r: Rules, p: Path)
    requires j.Object? && [] !in r.paths && p in r.paths && Present(j, p)
    ensures
      Present(Filtered(j, r), p) && At(Filtered(j, r), p) == At(j, p) <==>
      (p[0] in r.arrays && j.fields[p[0]].Array? ==>
        forall i :: 0 <= i < |j.fields[p[0]].items| && j.fields[p[0]].items[i].Object? ==>
          j.fields[p[0]].items[i].fields.Keys <= r.arrays[p[0]])
  {
    var root := p[0];
    if root in r.arrays {
      var value := j.fields[root];
      assert Filtered(j, r).fields[root] == Narrow(value, r.arrays[root]);
      NarrowIsWhole(value, r.arrays[root]);
    } else {
      FilteredKeeps(j, r, p);
    }
  }

  lemma {:induction false} PlainKeyIsOneSegment(key: string)
    requires '.' !in key
    ensures DotPath.Split(key) == [key]
  {
    if key != "" {
      PlainKeyIsOneSegment(key[1..]);
      assert [key[0]] + key[1..] == key;
    }
  }

  lemma MarkHasDot(text: string, i: nat)
    requires MarkAt(text, i)
    ensures '.' in text
  {
    assert text[i..i + 3][2] == text[i + 2];
  }

  lemma NoMarkBefore(key: string, rest: string, i: nat)
    requires '[' !in key && i < |key|
    ensures !MarkAt(key + rest, i)
  {
    var text := key + rest;
    assert text[i] == key[i] && key[i] in key;
    assert i + 3 <= |text| ==> text[i..i + 3][0] == text[i];
  }

  lemma ParsePlainKey(key: string)
    requires '.' !in key
    ensures Parse(key) == Field([key])
  {
    var mark := FirstMark(key);
    if mark.Some? { MarkHasDot(key, mark.value); }
    PlainKeyIsOneSegment(key);
  }

  lemma ParseMarkedKey(key: string, field: string)
    requires '.' !in key && '[' !in key
    ensures Parse(key + MARK + field) == ItemField(key, field)
  {
    var text, n := key + MARK + field, |key|;
    assert text[n..n + 3] == MARK && MarkAt(text, n);
    assert text == key + (MARK + field);
    forall i | 0 <= i < n ensures !MarkAt(text, i) { NoMarkBefore(key, MARK + field, i); }
    assert FirstMark(text) == Some(n);
    assert text[..n] == key && text[n + 3..] == field;
  }

  lemma RulesOfMarkedKey(key: string, field: string)
    requires '.' !in key && '[' !in key
    ensures RulesOf({key, key + MARK + field}) == Rules({[key]}, map[key := {field}])
  {
    var filter := {key, key + MARK + field};
    ParsePlainKey(key);
    ParseMarkedKey(key, field);
    assert Paths(filter) == {[key]};
    assert Roots(filter) == {key} && ItemFields(filter, key) == {field};
  }

  lemma ListIsIncomplete(key: string, keys: set<string>, item: Json)
    requires item.Object? && !(item.fields.Keys <= keys)
    ensures
      var j, r := Object(map[key := Array([item])]), Rules({[key]}, map[key := keys]);
      Present(j, [key]) && !(Present(Filtered(j, r), [key]) && At(Filtered(j, r), [key]) == At(j, [key]))
  {
    var j, r := Object(map[key := Array([item])]), Rules({[key]}, map[key := keys]);
    assert [key][1..] == [] && Present(j, [key]);
    RequestedIsKeptIff(j, r, [key]);
    assert j.fields[key].items[0] == item;
  }

  /** The filter `key`, `key[].field` does not give the list at `key` back: its items lose their other fields. */
  lemma RequestedListIsIncomplete(key: string, field: string, item: Json)
    requires '.' !in key && '[' !in key && item.Object? && !(item.fields.Keys <= {field})
    ensures
      var j, filter := Object(map[key := Array([item])]), {key, key + MARK + field};
      var r := FilterJson(j, filter);
      && [key] in Paths(filter) && Present(j, [key])
      && !(Present(r, [key]) && At(r, [key]) == At(j, [key]))
  {
    RulesOfMarkedKey(key, field);
    ListIsIncomplete(key, {field}, item);
  }
}
