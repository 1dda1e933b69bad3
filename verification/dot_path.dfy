/** Dot-delimited field paths in which `\.` stands for a literal dot. */
module DotPath {
  import opened Common


  predicate IsEscapedDot(path: string, i: nat) { i + 1 < |path| && path[i] == '\\' && path[i + 1] == '.' }

  /** The segments of a path, read from its front. */
  function Split(path: string): (segments: seq<string>)
    ensures segments != []
  {
    if path == "" then [""]
    else if IsEscapedDot(path, 0) then Prepend('.', Split(path[2..]))
    else if path[0] == '.' then [""] + Split(path[1..])
    else Prepend(path[0], Split(path[1..]))
  }

  function Prepend(c: char, segments: seq<string>): (r: seq<string>)
    requires segments != []
    ensures |r| == |segments|
  {
    [[c] + segments[0]] + segments[1..]
  }

  /** The segments, the first one extended in front by `s`. */
  function Extend(s: string, segments: seq<string>): (r: seq<string>)
    requires segments != []
    ensures |r| == |segments|
  {
    [s + segments[0]] + segments[1..]
  }

  lemma ExtendByNothing(segments: seq<string>)
    requires segments != []
    ensures Extend("", segments) == segments
  {
    assert "" + segments[0] == segments[0];
  }

  lemma ExtendPrepended(s: string, c: char, segments: seq<string>)
    requires segments != []
    ensures Extend(s, Prepend(c, segments)) == Extend(s + [c], segments)
    ensures Prepend(c, Extend(s, segments)) == Extend([c] + s, segments)
  {
    assert s + ([c] + segments[0]) == s + [c] + segments[0];
    assert [c] + (s + segments[0]) == [c] + s + segments[0];
  }

  function Escape(segment: string): string {
    if segment == "" then ""
    else (if segment[0] == '.' then "\\." else [segment[0]]) + Escape(segment[1..])
  }

  function Join(segments: seq<string>): string
    requires segments != []
  {
    if |segments| == 1 then Escape(segments[0]) else Escape(segments[0]) + "." + Join(segments[1..])
  }

  lemma JoinPrepend(c: char, segments: seq<string>)
    requires segments != []
    ensures Join(Prepend(c, segments)) == (if c == '.' then "\\." else [c]) + Join(segments)
  {
    var p := Prepend(c, segments);
    assert p[1..] == segments[1..] && p[0][1..] == segments[0];
  }

  /** Joining undoes splitting, on every path. */
  lemma {:induction false} JoinSplit(path: string)
    ensures Join(Split(path)) == path
  {
    if path == "" {
    } else if IsEscapedDot(path, 0) {
      JoinSplit(path[2..]);
      JoinPrepend('.', Split(path[2..]));
      assert path == "\\." + path[2..];
    } else if path[0] == '.' {
      JoinSplit(path[1..]);
      var rest := Split(path[1..]);
      assert ([""] + rest)[1..] == rest;
      assert path == "." + path[1..];
    } else {
      JoinSplit(path[1..]);
      JoinPrepend(path[0], Split(path[1..]));
      assert path == [path[0]] + path[1..];
    }
  }

  predicate EndsInBackslash(s: string) { s != "" && s[|s| - 1] == '\\' }

  /** What reading back makes of a list: a final backslash swallows the dot that follows it. */
  function ReadBack(segments: seq<string>): (r: seq<string>)
    requires segments != []
    ensures r != []
  {
    var s := segments[0];
    if |segments| == 1 then segments
    else
      var rest := ReadBack(segments[1..]);
      if EndsInBackslash(s) then [s[..|s| - 1] + "." + rest[0]] + rest[1..] else [s] + rest
  }

  /** Splitting an escaped segment followed by anything but a dot it could escape. */
  lemma {:induction false} SplitEscaped(segment: string, rest: string)
    requires EndsInBackslash(segment) ==> rest == "" || rest[0] != '.'
    ensures Split(Escape(segment) + rest) == Extend(segment, Split(rest))
  {
    if segment == "" {
      assert Escape(segment) + rest == rest;
      ExtendByNothing(Split(rest));
    } else {
      var text := Escape(segment) + rest;
      var after := Escape(segment[1..]) + rest;
      SplitEscaped(segment[1..], rest);
      ExtendPrepended(segment[1..], segment[0], Split(rest));
      assert [segment[0]] + segment[1..] == segment;
      if segment[0] == '.' {
        Associate("\\.", Escape(segment[1..]), rest);
        SplitOneMore("\\.", '.', after);
      } else {
        Associate([segment[0]], Escape(segment[1..]), rest);
        EscapeNeverStartsWithDot(segment[1..]);
        assert segment[1..] == "" ==> after == rest;
        SplitOneMore([segment[0]], segment[0], after);
      }
    }
  }

  /** A character in front, a dot only if it is escaped. */
  lemma SplitOneMore(escaped: string, c: char, after: string)
    requires if c == '.' then escaped == "\\." else escaped == [c]
    requires c == '\\' ==> after == "" || after[0] != '.'
    ensures Split(escaped + after) == Prepend(c, Split(after))
  {
    assert (escaped + after)[|escaped|..] == after;
  }

  lemma EscapeNeverStartsWithDot(segment: string)
    ensures segment != "" ==> Escape(segment) != "" && Escape(segment)[0] != '.'
  {
  }

  lemma {:induction false} EscapeAppend(a: string, b: string)
    ensures Escape(a + b) == Escape(a) + Escape(b)
  {
    if a == "" {
      assert a + b == b;
    } else {
      EscapeAppend(a[1..], b);
      var first := if a[0] == '.' then "\\." else [a[0]];
      assert (a + b)[1..] == a[1..] + b && (a + b)[0] == a[0];
      assert Escape(a + b) == first + (Escape(a[1..]) + Escape(b));
    }
  }

  lemma {:induction false} SplitJoin(segments: seq<string>)
    requires segments != []
    ensures Split(Join(segments)) == ReadBack(segments)
  {
    var s := segments[0];
    if |segments| == 1 {
      SplitEscaped(s, "");
      assert Escape(s) + "" == Escape(s);
      assert s + "" == s;
    } else {
      SplitJoin(segments[1..]);
      var joined := Join(segments[1..]);
      var rest := ReadBack(segments[1..]);
      if EndsInBackslash(s) {
        SplitBackslashed(s, joined, rest);
      } else {
        SplitDotted(s, joined);
        assert Join(segments) == Escape(s) + ("." + joined);
      }
    }
  }

  /** A final backslash swallows the separator. */
  lemma SplitBackslashed(segment: string, joined: string, rest: seq<string>)
    requires EndsInBackslash(segment) && rest != [] && Split(joined) == rest
    ensures
      Split(Escape(segment) + "." + joined) == [segment[..|segment| - 1] + "." + rest[0]] + rest[1..]
  {
    var body := segment[..|segment| - 1];
    EscapeBackslashed(segment);
    SplitOneMore("\\.", '.', joined);
    SplitEscaped(body, "\\." + joined);
    GlueBackslash(Escape(body), joined);
    Associate(body, ".", rest[0]);
  }

  lemma EscapeBackslashed(segment: string)
    requires EndsInBackslash(segment)
    ensures Escape(segment) == Escape(segment[..|segment| - 1]) + "\\"
  {
    var body := segment[..|segment| - 1];
    EscapeAppend(body, "\\");
    assert segment == body + "\\" && Escape("\\") == "\\";
  }

  lemma GlueBackslash(body: string, joined: string)
    ensures body + "\\" + "." + joined == body + ("\\." + joined)
  {
  }

  /** A segment that does not end in a backslash ends at the separator. */
  lemma SplitDotted(segment: string, joined: string)
    requires !EndsInBackslash(segment)
    ensures Split(Escape(segment) + ("." + joined)) == [segment] + Split(joined)
  {
    var tail := "." + joined;
    SplitEscaped(segment, tail);
    assert tail[1..] == joined;
    assert Split(tail) == [""] + Split(joined);
    assert segment + "" == segment;
  }

  /** Splitting undoes joining exactly when only the last segment may end in a backslash. */
  lemma SplitJoinRoundTrip(segments: seq<string>)
    requires segments != []
    ensures
      Split(Join(segments)) == segments <==>
      forall i :: 0 <= i < |segments| - 1 ==> !EndsInBackslash(segments[i])
  {
    SplitJoin(segments);
    ReadBackLength(segments);
  }

  lemma {:induction false} ReadBackLength(segments: seq<string>)
    requires segments != []
    ensures |ReadBack(segments)| <= |segments|
    ensures
      if forall i :: 0 <= i < |segments| - 1 ==> !EndsInBackslash(segments[i])
      then ReadBack(segments) == segments else |ReadBack(segments)| < |segments|
  {
    if |segments| > 1 {
      ReadBackLength(segments[1..]);
      if forall i :: 0 <= i < |segments| - 1 ==> !EndsInBackslash(segments[i]) {
        forall i | 0 <= i < |segments[1..]| - 1 ensures !EndsInBackslash(segments[1..][i]) {
          assert segments[1..][i] == segments[i + 1];
        }
        assert [segments[0]] + segments[1..] == segments;
      } else if !EndsInBackslash(segments[0]) {
        var i :| 0 <= i < |segments| - 1 && EndsInBackslash(segments[i]);
        assert segments[1..][i - 1] == segments[i];
      }
    }
  }

  /** Scanning for a dot that no backslash escapes. */
  function HasDotFrom(path: string): (found: bool)
    ensures found <==> |Split(path)| > 1
  {
    if path == "" then false
    else if IsEscapedDot(path, 0) then HasDotFrom(path[2..])
    else if path[0] == '.' then true
    else HasDotFrom(path[1..])
  }

  // The code

  method SplitEscapedDotPath(path: string) returns (segments: seq<string>)
    ensures segments == Split(path)
  {
    segments := [];
    var current := "";
    var i := 0;
    assert path[0..] == path;
    ExtendByNothing(Split(path));
    while i < |path|
      invariant 0 <= i <= |path|
      invariant Split(path) == segments + Extend(current, Split(path[i..]))
    {
      ghost var rest := path[i..];
      if path[i] == '\\' && i + 1 < |path| && path[i + 1] == '.' {
        assert rest[2..] == path[i + 2..];
        ExtendPrepended(current, '.', Split(path[i + 2..]));
        current := current + ".";
        i := i + 2;
      } else if path[i] == '.' {
        assert rest[1..] == path[i + 1..];
        assert current + "" == current;
        assert Split(rest) == [""] + Split(path[i + 1..]);
        assert Extend(current, Split(rest)) == [current] + Split(path[i + 1..]);
        ExtendByNothing(Split(path[i + 1..]));
        segments := segments + [current];
        current := "";
        i := i + 1;
      } else {
        assert rest[1..] == path[i + 1..];
        ExtendPrepended(current, path[i], Split(path[i + 1..]));
        current := current + [path[i]];
        i := i + 1;
      }
    }
    assert current + "" == current;
    assert path[i..] == "" && Extend(current, [""]) == [current];
    segments := segments + [current];
  }

  method HasUnescapedDot(path: string) returns (found: bool)
    ensures found <==> |Split(path)| > 1
  {
    var i := 0;
    while i < |path|
      invariant 0 <= i <= |path|
      invariant HasDotFrom(path) == HasDotFrom(path[i..])
    {
      var rest := path[i..];
      if path[i] == '\\' && i + 1 < |path| && path[i + 1] == '.' {
        assert rest[2..] == path[i + 2..];
        i := i + 2;
      } else if path[i] == '.' {
        return true;
      } else {
        assert rest[1..] == path[i + 1..];
        i := i + 1;
      }
    }
    return false;
  }
}
