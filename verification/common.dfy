/** Datatypes and sequence functions shared by the other modules. */
module Common {

  datatype Option<+T> = None | Some(value: T)

  datatype Result<+T, +E> = Ok(value: T) | Err(error: E)

  type Byte = b: int | 0 <= b < 0x100

  function Elements<T(!new)>(s: seq<T>): set<T> { set x | x in s }

  /** A dictionary's keys in the order an iteration visits them. */
  ghost predicate IsOrderOf(order: seq<string>, keys: set<string>) {
    && (forall i, j :: 0 <= i < j < |order| ==> order[i] != order[j])
    && (forall k :: k in keys <==> k in order)
  }

  ghost function SomeOrder(keys: set<string>): (order: seq<string>)
    ensures IsOrderOf(order, keys)
  {
    if keys == {} then [] else
      var k :| k in keys;
      [k] + SomeOrder(keys - {k})
  }

  predicate IsDigit(c: char) { '0' <= c <= '9' }

  /** Python's `text.split(separator)` for a one-character separator: never empty. */
  function SplitOn(text: string, separator: char): (parts: seq<string>)
    ensures parts != []
  {
    if text == "" then [""]
    else
      var rest := SplitOn(text[1..], separator);
      if text[0] == separator then [""] + rest else [[text[0]] + rest[0]] + rest[1..]
  }

  /** Python's `separator.join(parts)`. */
  function JoinOn(parts: seq<string>, separator: char): string
    requires parts != []
  {
    if |parts| == 1 then parts[0] else parts[0] + [separator] + JoinOn(parts[1..], separator)
  }

  lemma {:induction false} JoinSplitOn(text: string, separator: char)
    ensures JoinOn(SplitOn(text, separator), separator) == text
  {
    if text != "" {
      var rest := SplitOn(text[1..], separator);
      JoinSplitOn(text[1..], separator);
      assert text == [text[0]] + text[1..];
      if text[0] == separator {
        assert ([""] + rest)[1..] == rest;
      } else {
        assert ([[text[0]] + rest[0]] + rest[1..])[1..] == rest[1..];
        if |rest| > 1 { Associate([text[0]], rest[0] + [separator], JoinOn(rest[1..], separator)); }
        assert |rest| > 1 ==> [text[0]] + rest[0] + [separator] == [text[0]] + (rest[0] + [separator]);
      }
    }
  }

  lemma {:induction false} PartsAreFree(text: string, separator: char)
    ensures forall part :: part in SplitOn(text, separator) ==> separator !in part
  {
    if text != "" {
      PartsAreFree(text[1..], separator);
      var rest := SplitOn(text[1..], separator);
      assert rest == [rest[0]] + rest[1..];
    }
  }

  lemma {:induction false} SplitJoinOn(parts: seq<string>, separator: char)
    requires parts != [] && forall part :: part in parts ==> separator !in part
    ensures SplitOn(JoinOn(parts, separator), separator) == parts
  {
    assert parts == [parts[0]] + parts[1..];
    if |parts| == 1 {
      SplitPlain(parts[0], separator);
    } else {
      SplitJoinOn(parts[1..], separator);
      SplitFirst(parts[0], separator, JoinOn(parts[1..], separator));
    }
  }

  /** Text before the first separator is the first part. */
  lemma {:induction false} SplitFirst(part: string, separator: char, more: string)
    requires separator !in part
    ensures SplitOn(part + [separator] + more, separator) == [part] + SplitOn(more, separator)
  {
    var text := part + [separator] + more;
    if part == "" {
      assert text[1..] == more;
    } else {
      SplitFirst(part[1..], separator, more);
      assert text[1..] == part[1..] + [separator] + more && part == [part[0]] + part[1..];
    }
  }

  lemma SplitBefore(s: string, separator: char, rest: string)
    requires separator !in s && (rest == "" || rest[0] == separator)
    ensures SplitOn(s + rest, separator)[0] == s
  {
    if rest == "" {
      SplitPlain(s, separator);
      assert s + rest == s;
    } else {
      SplitFirst(s, separator, rest[1..]);
      assert s + rest == s + [separator] + rest[1..];
    }
  }

  lemma SameMap<K, V>(a: map<K, V>, b: map<K, V>)
    requires (forall k :: k in a ==> k in b && a[k] == b[k]) && (forall k :: k in b ==> k in a)
    ensures a == b
  {
  }

  lemma Associate<T>(a: seq<T>, b: seq<T>, c: seq<T>)
    ensures a + (b + c) == a + b + c
  {
  }

  lemma FrontAndRest<T>(s: seq<T>, more: seq<T>)
    requires s != []
    ensures s == [s[0]] + s[1..] && (s + more)[1..] == s[1..] + more && (s + more)[0] == s[0]
  {
  }

  lemma WholePrefix<T>(s: seq<T>)
    ensures s[..|s|] == s
  {
  }

  lemma PrefixStep<T>(s: seq<T>, i: nat)
    requires i < |s|
    ensures s[..i + 1] == s[..i] + [s[i]]
  {
  }

  lemma {:induction false} SplitPlain(text: string, separator: char)
    requires separator !in text
    ensures SplitOn(text, separator) == [text]
  {
    if text != "" {
      SplitPlain(text[1..], separator);
      assert [text[0]] + text[1..] == text;
    }
  }
}
