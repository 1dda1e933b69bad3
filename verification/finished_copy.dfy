/** What a finished partial copy means: the projection of the source onto the paths that were shared. */
module FinishedCopy {
  import opened Common
  import opened JsonHeap
  import opened PartialCopy
  import opened Trie
  import J = Json

  /** The value of an own dictionary at path `q`. */
  ghost function Copied(shape: Trie, j: J.Json, q: J.Path): J.Json
    requires Fits(shape, j) && !LevelAt(shape, q).Missing?
  {
    SubFits(shape, q, j);
    Eval(Sub(shape, q), J.At(j, q))
  }

  lemma CopiedStep(shape: Trie, j: J.Json, q: J.Path, k: string)
    requires Fits(shape, j) && LevelAt(shape, q).Level? && k in LevelAt(shape, q).shared
    ensures !LevelAt(shape, q + [k]).Missing? && J.Present(j, q + [k])
    ensures var c := Copied(shape, j, q); c.Object? && k in c.fields && c.fields[k] == Copied(shape, j, q + [k])
    ensures LevelAt(shape, q).shared[k] ==> Copied(shape, j, q + [k]) == J.At(j, q + [k])
  {
    SubStep(shape, q, k);
    SubFits(shape, q, j);
    SubFits(shape, q + [k], j);
    SubHasLevel(shape, q);
    J.AtStep(j, q, k);
  }

  lemma CopiedKeys(shape: Trie, j: J.Json, q: J.Path)
    requires Fits(shape, j) && LevelAt(shape, q).Level?
    ensures var c := Copied(shape, j, q); c.Object? && c.fields.Keys == LevelAt(shape, q).shared.Keys
  {
    SubFits(shape, q, j);
    SubHasLevel(shape, q);
  }

  /** Every own dictionary but the result itself, beside the source. */
  ghost function Live(h: Snapshot, b: Build, result: Dict): Snapshot { h + (b.own - {result}) }

  ghost function LiveMeaning(h: Snapshot, m: Meaning, root: Value, b: Build, result: Dict): Meaning
    requires Means(h, m) && Known(root, m) && BuildOk(h, root, b) && Fits(b.shape, JsonOf(root, m))
  {
    m + map f | f in b.own && f != result :: CopyAt(h, m, root, b, f)
  }

  ghost function CopyAt(h: Snapshot, m: Meaning, root: Value, b: Build, f: Dict): J.Json
    requires Means(h, m) && Known(root, m) && BuildOk(h, root, b) && Fits(b.shape, JsonOf(root, m))
    requires f in b.own
  {
    assert DictOk(h, root, b.shape, b.pathOf, b.own[f], b.pathOf[f]);
    Copied(b.shape, JsonOf(root, m), b.pathOf[f])
  }

  lemma EntryMeans(h: Snapshot, m: Meaning, root: Value, b: Build, result: Dict, f: Dict, k: string)
    requires Means(h, m) && Known(root, m) && BuildOk(h, root, b) && Fits(b.shape, JsonOf(root, m))
    requires result in b.own && b.pathOf[result] == [] && f in b.own && k in b.own[f]
    ensures var lm := LiveMeaning(h, m, root, b, result);
      && Known(b.own[f][k], lm) && CopyAt(h, m, root, b, f).Object? && k in CopyAt(h, m, root, b, f).fields
      && JsonOf(b.own[f][k], lm) == CopyAt(h, m, root, b, f).fields[k]
  {
    var q, lm, v, j := b.pathOf[f], LiveMeaning(h, m, root, b, result), b.own[f][k], JsonOf(root, m);
    assert DictOk(h, root, b.shape, b.pathOf, b.own[f], q);
    var shared := LevelAt(b.shape, q).shared[k];
    assert LinkOk(h, root, b.pathOf, v, q + [k], shared);
    CopiedStep(b.shape, j, q, k);
    if shared {
      WalkIsAt(h, m, root, q + [k]);
      MeaningExtends(v, m, lm);
    } else {
      assert v.dict != result && v.dict in lm;
    }
  }

  lemma EntriesMean(h: Snapshot, m: Meaning, root: Value, b: Build, result: Dict, f: Dict)
    requires Means(h, m) && Known(root, m) && BuildOk(h, root, b) && Fits(b.shape, JsonOf(root, m))
    requires result in b.own && b.pathOf[result] == [] && f in b.own
    ensures var lm := LiveMeaning(h, m, root, b, result);
      AllKnown(b.own[f], lm) && CopyAt(h, m, root, b, f) == J.Object(FieldsOf(b.own[f], lm))
  {
    var lm, copy := LiveMeaning(h, m, root, b, result), CopyAt(h, m, root, b, f);
    assert DictOk(h, root, b.shape, b.pathOf, b.own[f], b.pathOf[f]);
    CopiedKeys(b.shape, JsonOf(root, m), b.pathOf[f]);
    forall k | k in b.own[f] ensures Known(b.own[f][k], lm) && JsonOf(b.own[f][k], lm) == copy.fields[k] {
      EntryMeans(h, m, root, b, result, f, k);
    }
    SameMap(FieldsOf(b.own[f], lm), copy.fields);
  }

  lemma CopiesMean(h: Snapshot, m: Meaning, root: Value, b: Build, result: Dict)
    requires Means(h, m) && Known(root, m) && BuildOk(h, root, b) && Fits(b.shape, JsonOf(root, m))
    requires result in b.own && b.pathOf[result] == []
    ensures var lm := LiveMeaning(h, m, root, b, result); Means(Live(h, b, result), lm) && Extends(m, lm)
  {
    var live, lm := Live(h, b, result), LiveMeaning(h, m, root, b, result);
    OldStillMean(h, m, lm);
    forall d | d in live && d !in h ensures AllKnown(live[d], lm) && lm[d] == J.Object(FieldsOf(live[d], lm)) {
      EntriesMean(h, m, root, b, result, d);
    }
  }

  lemma FinishedMeans(
    h: Snapshot, m: Meaning, root: Value, b: Build, result: Dict, paths: set<J.Path>)
    requires Means(h, m) && Known(root, m) && BuildOk(h, root, b) && Fits(b.shape, JsonOf(root, m))
    requires result in b.own && b.pathOf[result] == [] && Represents(b.shape, paths)
    ensures
      var lm := LiveMeaning(h, m, root, b, result);
      && Means(Live(h, b, result), lm) && Extends(m, lm) && AllKnown(b.own[result], lm)
      && J.Object(FieldsOf(b.own[result], lm)) == J.Project(JsonOf(root, m), paths)
  {
    CopiesMean(h, m, root, b, result);
    EntriesMean(h, m, root, b, result, result);
    EvalIsProjection(b.shape, paths, JsonOf(root, m));
  }
}
