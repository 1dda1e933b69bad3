/**
 JSON values as a program holds them: dictionaries are mutable objects that may be shared.
 What such a value means is read off a snapshot of the dictionaries.
 */
module JsonHeap {
  import opened Common
  import J = Json

  /** Lists are never updated in place here, so they are values. */
  datatype Value = Scalar(text: string) | Object(dict: Dict) | Array(items: seq<Value>)

  class Dict {
    var entries: map<string, Value>

    constructor ()
      ensures entries == map[]
    {
      entries := map[];
    }
  }

  /** What some dictionaries hold at one moment. */
  type Snapshot = map<Dict, map<string, Value>>

  ghost predicate Holds(h: Snapshot)
    reads h.Keys
  {
    forall d :: d in h ==> d.entries == h[d]
  }

  /** Following a path through the dictionaries of a snapshot. */
  ghost function Walk(h: Snapshot, v: Value, p: J.Path): Option<Value>
    decreases |p|
  {
    if p == [] then Some(v)
    else if v.Object? && v.dict in h && p[0] in h[v.dict] then Walk(h, h[v.dict][p[0]], p[1..])
    else None
  }

  lemma {:induction false} WalkFurther(h: Snapshot, v: Value, p: J.Path, k: string)
    ensures
      var w := Walk(h, v, p);
      Walk(h, v, p + [k]) ==
      if w.Some? && w.value.Object? && w.value.dict in h && k in h[w.value.dict] then Some(h[w.value.dict][k]) else None
    decreases |p|
  {
    if p == [] {
      assert (p + [k])[1..] == [];
    } else if v.Object? && v.dict in h && p[0] in h[v.dict] {
      assert (p + [k])[1..] == p[1..] + [k];
      WalkFurther(h, h[v.dict][p[0]], p[1..], k);
    }
  }

  lemma {:induction false} WalkPrefix(h: Snapshot, v: Value, p: J.Path, i: nat)
    requires i <= |p| && Walk(h, v, p).Some?
    ensures Walk(h, v, p[..i]).Some?
    decreases |p|
  {
    if i > 0 {
      WalkPrefix(h, h[v.dict][p[0]], p[1..], i - 1);
      assert p[..i][1..] == p[1..][..i - 1];
    }
  }

  // Meaning

  /** The JSON value of each dictionary. That there is one rules out cycles. */
  type Meaning = map<Dict, J.Json>

  ghost predicate Known(v: Value, m: Meaning) {
    match v
    case Scalar(_) => true
    case Object(d) => d in m
    case Array(items) => forall i :: 0 <= i < |items| ==> Known(items[i], m)
  }

  ghost function JsonOf(v: Value, m: Meaning): J.Json
    requires Known(v, m)
  {
    match v
    case Scalar(text) => J.Scalar(text)
    case Object(d) => m[d]
    case Array(items) => J.Array(seq(|items|, i requires 0 <= i < |items| => JsonOf(items[i], m)))
  }

  ghost predicate AllKnown(entries: map<string, Value>, m: Meaning) {
    forall k :: k in entries ==> Known(entries[k], m)
  }

  ghost function FieldsOf(entries: map<string, Value>, m: Meaning): map<string, J.Json>
    requires AllKnown(entries, m)
  {
    map k | k in entries :: JsonOf(entries[k], m)
  }

  ghost predicate Means(h: Snapshot, m: Meaning) {
    h.Keys == m.Keys && forall d :: d in h ==> AllKnown(h[d], m) && m[d] == J.Object(FieldsOf(h[d], m))
  }

  ghost predicate Extends(m: Meaning, more: Meaning) { forall d :: d in m ==> d in more && more[d] == m[d] }

  lemma {:induction false} MeaningExtends(v: Value, m: Meaning, more: Meaning)
    requires Known(v, m) && Extends(m, more)
    ensures Known(v, more) && JsonOf(v, more) == JsonOf(v, m)
  {
    match v
    case Scalar(_) =>
    case Object(_) =>
    case Array(items) =>
      forall i | 0 <= i < |items| ensures Known(items[i], more) && JsonOf(items[i], more) == JsonOf(items[i], m) {
        MeaningExtends(items[i], m, more);
      }
  }

  lemma FieldsExtend(entries: map<string, Value>, m: Meaning, more: Meaning)
    requires AllKnown(entries, m) && Extends(m, more)
    ensures AllKnown(entries, more) && FieldsOf(entries, more) == FieldsOf(entries, m)
  {
    forall k | k in entries ensures Known(entries[k], more) && JsonOf(entries[k], more) == JsonOf(entries[k], m) {
      MeaningExtends(entries[k], m, more);
    }
  }

  lemma OldStillMean(h: Snapshot, m: Meaning, more: Meaning)
    requires Means(h, m) && Extends(m, more)
    ensures forall d :: d in h ==> AllKnown(h[d], more) && more[d] == J.Object(FieldsOf(h[d], more))
  {
    forall d | d in h ensures AllKnown(h[d], more) && more[d] == J.Object(FieldsOf(h[d], more)) {
      FieldsExtend(h[d], m, more);
    }
  }

  /** Walking the objects is walking the value they mean. */
  lemma {:induction false} WalkIsAt(h: Snapshot, m: Meaning, v: Value, p: J.Path)
    requires Means(h, m) && Known(v, m)
    ensures Walk(h, v, p).Some? <==> J.Present(JsonOf(v, m), p)
    ensures Walk(h, v, p).Some? ==> Known(Walk(h, v, p).value, m)
    ensures Walk(h, v, p).Some? ==> JsonOf(Walk(h, v, p).value, m) == J.At(JsonOf(v, m), p)
    decreases |p|
  {
    if p != [] && v.Object? && p[0] in h[v.dict] {
      WalkIsAt(h, m, h[v.dict][p[0]], p[1..]);
    }
  }
}
