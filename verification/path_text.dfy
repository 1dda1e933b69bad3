/** What matching and counting mean for the text of a path. */
module PathText {
  import opened Common
  import opened PathMerge
  import PathTemplate

  /** The cleaned path is the text before the first question mark. */
  lemma CleanIsTextBeforeQuery(path: string)
    ensures Clean(path) <= path && '?' !in Clean(path)
    ensures Clean(path) == path || path[|Clean(path)|] == '?'
  {
    PartsAreFree(path, '?');
    JoinSplitOn(path, '?');
    var parts := SplitOn(path, '?');
    if |parts| > 1 { assert path == parts[0] + (['?'] + JoinOn(parts[1..], '?')); }
  }

  // Matching

  ghost predicate IsBraced(segment: string) { exists name: string :: segment == "{" + name + "}" }

  lemma BracedIsWildcard(segment: string)
    ensures IsBraced(segment) <==> IsWildcard(segment)
  {
    if IsWildcard(segment) {
      var name := segment[1..|segment| - 1];
      assert segment == "{" + name + "}";
    }
  }

  /** Something to put in for each braced segment: text without a slash, and not empty. */
  ghost predicate AreFillers(fillers: seq<string>, segments: seq<string>) {
    && |fillers| == |segments|
    && forall i :: 0 <= i < |segments| && IsBraced(segments[i]) ==> fillers[i] != "" && '/' !in fillers[i]
  }

  /** The segments with the braced ones replaced. */
  ghost function Filled(segments: seq<string>, fillers: seq<string>): (filled: seq<string>)
    requires |fillers| == |segments|
    ensures |filled| == |segments|
    ensures forall i :: 0 <= i < |segments| ==> filled[i] == if IsBraced(segments[i]) then fillers[i] else segments[i]
  {
    seq(|segments|, i requires 0 <= i < |segments| => if IsBraced(segments[i]) then fillers[i] else segments[i])
  }

  ghost predicate IsFilledBy(template: string, path: string, fillers: seq<string>) {
    var segments := SplitOn(Clean(template), '/');
    AreFillers(fillers, segments) && JoinOn(Filled(segments, fillers), '/') == Clean(path)
  }

  /** A template matches a path exactly if filling its braced segments, one by one, can give the path's text. */
  lemma MatchesIffFilled(template: string, path: string)
    ensures Matches(template, path) <==> exists fillers :: IsFilledBy(template, path, fillers)
  {
    var t, s := SplitOn(Clean(template), '/'), SplitOn(Clean(path), '/');
    forall segment ensures IsBraced(segment) <==> IsWildcard(segment) { BracedIsWildcard(segment); }
    if Matches(template, path) {
      PartsAreFree(Clean(path), '/');
      JoinSplitOn(Clean(path), '/');
      forall i | 0 <= i < |t| ensures Filled(t, s)[i] == s[i] && '/' !in s[i] {
        assert SegmentMatches(t[i], s[i]) && s[i] in s;
      }
      assert Filled(t, s) == s;
      assert IsFilledBy(template, path, s);
    }
    if fillers :| IsFilledBy(template, path, fillers) { FilledMatches(template, path, fillers); }
  }

  lemma FilledMatches(template: string, path: string, fillers: seq<string>)
    requires IsFilledBy(template, path, fillers)
    ensures Matches(template, path)
  {
    var t := SplitOn(Clean(template), '/');
    var filled := Filled(t, fillers);
    PartsAreFree(Clean(template), '/');
    forall part | part in filled ensures '/' !in part {
      var i :| 0 <= i < |filled| && filled[i] == part;
      assert t[i] in t;
    }
    SplitJoinOn(filled, '/');
    forall i | 0 <= i < |t| ensures SegmentMatches(t[i], filled[i]) { BracedIsWildcard(t[i]); }
  }

  /** A template without braced segments matches only its own text. */
  lemma PlainMatchesItself(template: string, path: string)
    requires forall segment :: segment in SplitOn(Clean(template), '/') ==> !IsBraced(segment)
    ensures Matches(template, path) <==> Clean(path) == Clean(template)
  {
    var t := SplitOn(Clean(template), '/');
    JoinSplitOn(Clean(template), '/');
    MatchesIffFilled(template, path);
    assert forall fillers: seq<string> :: |fillers| == |t| ==> Filled(t, fillers) == t;
    if Clean(path) == Clean(template) { assert IsFilledBy(template, path, t); }
  }

  // Counting

  /** A path put together from text without braces and named placeholders. */
  function Interleaved(texts: seq<string>, names: seq<string>): string
    requires |texts| == |names| + 1
  {
    if names == [] then texts[0] else texts[0] + ("{" + names[0] + "}" + Interleaved(texts[1..], names[1..]))
  }

  lemma {:induction false} FindsTheNames(texts: seq<string>, names: seq<string>)
    requires |texts| == |names| + 1 && (forall t :: t in texts ==> PathTemplate.BraceFree(t))
    requires forall n :: n in names ==> PathTemplate.IsName(n)
    ensures PathTemplate.FindAll(Interleaved(texts, names)) == names
  {
    assert texts[0] in texts;
    if names == [] {
      PathTemplate.TokenizeText(texts[0]);
    } else {
      assert names[0] in names && names == [names[0]] + names[1..];
      var rest := Interleaved(texts[1..], names[1..]);
      FindsTheNames(texts[1..], names[1..]);
      PathTemplate.FindAllAfterPlain(texts[0], "{" + names[0] + "}" + rest);
      PathTemplate.TokenizeParam(names[0], rest);
      assert ([PathTemplate.Param(names[0])] + PathTemplate.Tokenize(rest))[1..] == PathTemplate.Tokenize(rest);
    }
  }

  /** The count of a path is the number of placeholders before its query, wherever they stand. */
  lemma CountsPlaceholders(path: string, texts: seq<string>, names: seq<string>)
    requires |texts| == |names| + 1 && (forall t :: t in texts ==> PathTemplate.BraceFree(t))
    requires forall n :: n in names ==> PathTemplate.IsName(n)
    requires Interleaved(texts, names) <= path && '?' !in Interleaved(texts, names)
    requires Interleaved(texts, names) == path || path[|Interleaved(texts, names)|] == '?'
    ensures TemplateCount(path) == |names|
  {
    var text := Interleaved(texts, names);
    SplitBefore(text, '?', path[|text|..]);
    assert path == text + path[|text|..];
    FindsTheNames(texts, names);
  }
}
