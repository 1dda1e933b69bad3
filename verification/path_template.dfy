/**
 The placeholder syntax `{name}` of path templates, as the regular expression
 `{([^{}]+)}` finds it: scanning left to right, without overlaps.
 */
module PathTemplate {

  datatype Token = Text(c: char) | Param(name: string)

  predicate IsBrace(c: char) { c == '{' || c == '}' }

  predicate BraceFree(s: string) { forall i :: 0 <= i < |s| ==> !IsBrace(s[i]) }

  /** A name that `[^{}]+` can match. */
  predicate IsName(s: string) { s != "" && BraceFree(s) }

  /** The length of the longest prefix without a brace. */
  function PlainRun(s: string): (n: nat)
    ensures n <= |s| && BraceFree(s[..n])
    ensures n < |s| ==> IsBrace(s[n])
  {
    if s == "" || IsBrace(s[0]) then 0 else 1 + PlainRun(s[1..])
  }

  function Tokenize(s: string): (tokens: seq<Token>) {
    if s == "" then []
    else
      var n := if s[0] == '{' then PlainRun(s[1..]) else 0;
      if n > 0 && 1 + n < |s| && s[1 + n] == '}'
      then [Param(s[1..1 + n])] + Tokenize(s[n + 2..])
      else [Text(s[0])] + Tokenize(s[1..])
  }

  function Names(tokens: seq<Token>): seq<string> {
    if tokens == [] then []
    else (if tokens[0].Param? then [tokens[0].name] else []) + Names(tokens[1..])
  }

  /** What `findall` returns for a path. */
  function FindAll(s: string): seq<string> { Names(Tokenize(s)) }

  lemma {:induction false} PlainRunOf(name: string, rest: string)
    requires BraceFree(name)
    ensures PlainRun(name + rest) == |name| + PlainRun(rest)
  {
    if name == "" {
      assert name + rest == rest;
    } else {
      PlainRunOf(name[1..], rest);
      assert (name + rest)[1..] == name[1..] + rest;
    }
  }

  lemma TokenizeParam(name: string, rest: string)
    requires IsName(name)
    ensures Tokenize("{" + name + "}" + rest) == [Param(name)] + Tokenize(rest)
  {
    BracedParts(name, rest);
    PlainRunOf(name, "}" + rest);
    assert PlainRun("}" + rest) == 0;
  }

  lemma BracedParts(name: string, rest: string)
    ensures
      var s := "{" + name + "}" + rest;
      && |s| == |name| + 2 + |rest| && s[0] == '{' && s[1 + |name|] == '}'
      && s[1..] == name + ("}" + rest) && s[1..1 + |name|] == name && s[|name| + 2..] == rest
  {
  }

  /** Brace-free text in front of a path adds no placeholder. */
  lemma {:induction false} FindAllAfterPlain(plain: string, rest: string)
    requires BraceFree(plain)
    ensures FindAll(plain + rest) == FindAll(rest)
  {
    if plain == "" {
      assert plain + rest == rest;
    } else {
      var s := plain + rest;
      assert s[1..] == plain[1..] + rest;
      FindAllAfterPlain(plain[1..], rest);
      assert ([Text(s[0])] + Tokenize(s[1..]))[1..] == Tokenize(s[1..]);
    }
  }

  lemma TokenizeText(s: string)
    requires BraceFree(s)
    ensures FindAll(s) == []
  {
    FindAllAfterPlain(s, "");
    assert s + "" == s;
  }

  /** A path without placeholders has none in any of its suffixes. */
  lemma {:induction false} NoneInSuffix(s: string, i: nat)
    requires FindAll(s) == [] && i <= |s|
    ensures FindAll(s[i..]) == []
  {
    if i > 0 {
      assert Tokenize(s)[1..] == Tokenize(s[1..]);
      NoneInSuffix(s[1..], i - 1);
      assert s[1..][i - 1..] == s[i..];
    }
  }

  lemma {:induction false} TokenNamesAreNames(s: string)
    ensures forall t :: t in Tokenize(s) && t.Param? ==> IsName(t.name)
    ensures forall n :: n in FindAll(s) <==> Param(n) in Tokenize(s)
  {
    NamesAreParams(Tokenize(s));
    if s != "" {
      var n := if s[0] == '{' then PlainRun(s[1..]) else 0;
      if n > 0 && 1 + n < |s| && s[1 + n] == '}' {
        TokenNamesAreNames(s[n + 2..]);
        assert s[1..1 + n] == s[1..][..n];
      } else {
        TokenNamesAreNames(s[1..]);
      }
    }
  }

  lemma {:induction false} NamesAreParams(tokens: seq<Token>)
    ensures forall n :: n in Names(tokens) <==> Param(n) in tokens
  {
    if tokens != [] {
      NamesAreParams(tokens[1..]);
      assert tokens == [tokens[0]] + tokens[1..];
    }
  }
}
