/** Filling the placeholders of a URL path with percent-encoded arguments. */
module UrlTemplate {
  import opened Common
  import opened PathTemplate

  // Percent-encoding with an empty safe set (section 2.1 of RFC 3986)

  predicate IsUnreserved(c: char) {
    'A' <= c <= 'Z' || 'a' <= c <= 'z' || '0' <= c <= '9' || c in "_.-~"
  }

  function HexDigit(n: nat): char
    requires n < 16
  {
    if n < 10 then '0' + n as char else 'A' + (n - 10) as char
  }

  /** `quote(text, safe="")` on the UTF-8 bytes of the text. */
  function Quote(bytes: seq<Byte>): (s: string)
    ensures forall c :: c in s ==> IsUnreserved(c) || c == '%'
    ensures bytes != [] ==> s != ""
  {
    if bytes == [] then ""
    else
      var b := bytes[0];
      var first := if b < 128 && IsUnreserved(b as char) then [b as char] else ['%', HexDigit(b / 16), HexDigit(b % 16)];
      first + Quote(bytes[1..])
  }

  // Simultaneous substitution

  /** The text of the tokens, with the placeholders that have a value filled in. */
  function Render(tokens: seq<Token>, values: map<string, string>): string {
    if tokens == [] then ""
    else
      var first := match tokens[0]
        case Text(c) => [c]
        case Param(name) => if name in values then values[name] else "{" + name + "}";
      first + Render(tokens[1..], values)
  }

  ghost predicate Encoded(values: map<string, string>) {
    forall n :: n in values ==> BraceFree(values[n])
  }

  lemma {:induction false} RenderNothing(template: string)
    ensures Render(Tokenize(template), map[]) == template
  {
    if template != "" {
      var n := if template[0] == '{' then PlainRun(template[1..]) else 0;
      if n > 0 && 1 + n < |template| && template[1 + n] == '}' {
        RenderNothing(template[n + 2..]);
        RenderFront(Param(template[1..1 + n]), Tokenize(template[n + 2..]), map[]);
        FrontIsPattern(template, n);
      } else {
        RenderNothing(template[1..]);
        RenderFront(Text(template[0]), Tokenize(template[1..]), map[]);
        assert template == [template[0]] + template[1..];
      }
    }
  }

  lemma RenderFront(token: Token, tokens: seq<Token>, values: map<string, string>)
    ensures Render([token] + tokens, values) == First(token, values) + Render(tokens, values)
  {
    assert ([token] + tokens)[1..] == tokens;
  }

  lemma FrontIsPattern(s: string, n: nat)
    requires 1 + n < |s| && s[0] == '{' && s[1 + n] == '}'
    ensures s == Pattern(s[1..1 + n]) + s[n + 2..]
  {
  }

  // What stands between braces

  /** The text up to the next brace, if that is a closing one. */
  function Run(s: string): Option<string> {
    var n := PlainRun(s);
    if n < |s| && s[n] == '}' then Some(s[..n]) else None
  }

  function Prefixed(plain: string, text: Option<string>): Option<string> {
    if text.Some? then Some(plain + text.value) else None
  }

  lemma RunAfter(plain: string, rest: string)
    requires BraceFree(plain)
    ensures Run(plain + rest) == Prefixed(plain, Run(rest))
  {
    PlainRunOf(plain, rest);
    var n := PlainRun(rest);
    assert (plain + rest)[..|plain| + n] == plain + rest[..n];
    assert n < |rest| ==> (plain + rest)[|plain| + n] == rest[n];
  }

  /** What the tokens spell up to a literal closing brace, if all of it is known. */
  function Spelled(tokens: seq<Token>, values: map<string, string>): Option<string> {
    if tokens == [] then None
    else
      match tokens[0]
      case Param(name) => if name in values then Prefixed(values[name], Spelled(tokens[1..], values)) else None
      case Text(c) =>
        if c == '}' then Some("")
        else if c == '{' then None
        else Prefixed([c], Spelled(tokens[1..], values))
  }

  /** No text between braces can begin in the tokens and end in the rest. */
  predicate IsSealed(tokens: seq<Token>, rest: string) {
    || rest == "" || rest[0] == '{'
    || (tokens != [] && tokens[|tokens| - 1] == Text('}'))
  }

  /** Up to the next brace, the rendered text reads as the tokens spell it. */
  lemma {:induction false} RunIsSpelled(tokens: seq<Token>, values: map<string, string>, rest: string)
    requires Encoded(values) && IsSealed(tokens, rest)
    ensures Run(Render(tokens, values) + rest) == Spelled(tokens, values)
  {
    if tokens == [] {
      assert Render(tokens, values) + rest == rest;
    } else {
      var after := Render(tokens[1..], values) + rest;
      RenderFirst(tokens, values, rest);
      match tokens[0]
      case Param(name) =>
        if name in values {
          RunIsSpelled(tokens[1..], values, rest);
          RunAfter(values[name], after);
        }
      case Text(c) =>
        if !IsBrace(c) {
          RunIsSpelled(tokens[1..], values, rest);
          RunAfter([c], after);
        }
    }
  }

  function First(token: Token, values: map<string, string>): string {
    match token
    case Text(c) => [c]
    case Param(name) => if name in values then values[name] else Pattern(name)
  }

  lemma RenderFirst(tokens: seq<Token>, values: map<string, string>, rest: string)
    requires tokens != []
    ensures
      Render(tokens, values) + rest == First(tokens[0], values) + (Render(tokens[1..], values) + rest)
    ensures tokens[0].Param? && tokens[0].name !in values ==> (Render(tokens, values) + rest)[0] == '{'
  {
    Associate(First(tokens[0], values), Render(tokens[1..], values), rest);
  }

  /** Some literal opening brace has this text up to its closing brace. */
  predicate Spells(tokens: seq<Token>, values: map<string, string>, name: string) {
    tokens != [] &&
      ((tokens[0] == Text('{') && Spelled(tokens[1..], values) == Some(name)) || Spells(tokens[1..], values, name))
  }

  /** Some literal brace pair has a text that the pattern finds. */
  predicate SpellsSomething(tokens: seq<Token>, values: map<string, string>) {
    tokens != [] &&
      ((tokens[0] == Text('{') && Spelled(tokens[1..], values).Some? && Spelled(tokens[1..], values) != Some(""))
       || SpellsSomething(tokens[1..], values))
  }

  // Sequential replacement

  /** Python's `s.replace(pattern, filler)`. */
  function Replace(s: string, pattern: string, filler: string): string
    requires pattern != ""
  {
    if |s| < |pattern| then s
    else if s[..|pattern|] == pattern then filler + Replace(s[|pattern|..], pattern, filler)
    else [s[0]] + Replace(s[1..], pattern, filler)
  }

  lemma {:induction false} ReplaceSkips(plain: string, rest: string, pattern: string, filler: string)
    requires pattern != "" && pattern[0] !in plain
    ensures Replace(plain + rest, pattern, filler) == plain + Replace(rest, pattern, filler)
  {
    if plain == "" {
      assert plain + rest == rest;
    } else {
      var s := plain + rest;
      ReplaceSkips(plain[1..], rest, pattern, filler);
      assert s[1..] == plain[1..] + rest && s[0] == plain[0];
      if |s| < |pattern| {
        assert Replace(rest, pattern, filler) == rest;
      } else {
        assert s[..|pattern|][0] != pattern[0];
      }
    }
  }

  /** At a position where the pattern does not match, replacement moves on by one character. */
  lemma ReplaceMovesOn(s: string, pattern: string, filler: string)
    requires s != "" && pattern != "" && !(pattern <= s)
    ensures Replace(s, pattern, filler) == [s[0]] + Replace(s[1..], pattern, filler)
  {
    if |s| < |pattern| {
      assert Replace(s[1..], pattern, filler) == s[1..];
      assert s == [s[0]] + s[1..];
    }
  }

  function Pattern(name: string): string { "{" + name + "}" }

  lemma PatternIsRun(name: string, s: string)
    requires IsName(name)
    ensures Pattern(name) <= "{" + s <==> Run(s) == Some(name)
  {
    if Pattern(name) <= "{" + s {
      var rest := s[|name| + 1..];
      assert s == name + ("}" + rest) by {
        assert ("{" + s)[1..|name| + 2] == s[..|name| + 1] == (name + "}");
      }
      RunAfter(name, "}" + rest);
      assert Run("}" + rest) == Some("");
    }
    if Run(s) == Some(name) {
      assert s[..|name| + 1] == name + "}";
      assert ("{" + s)[..|name| + 2] == Pattern(name);
    }
  }

  lemma ReplaceAtText(c: char, rest: string, name: string, value: string)
    requires IsName(name)
    requires c == '{' ==> Run(rest) != Some(name)
    ensures Replace([c] + rest, Pattern(name), value) == [c] + Replace(rest, Pattern(name), value)
  {
    var s := [c] + rest;
    assert s[1..] == rest;
    PatternIsRun(name, rest);
    assert Pattern(name)[0] == '{' && !(Pattern(name) <= s);
    ReplaceMovesOn(s, Pattern(name), value);
  }

  lemma ReplaceAtName(name: string, rest: string, value: string)
    ensures Replace(Pattern(name) + rest, Pattern(name), value) == value + Replace(rest, Pattern(name), value)
  {
    var s := Pattern(name) + rest;
    assert s[..|Pattern(name)|] == Pattern(name) && s[|Pattern(name)|..] == rest;
  }

  lemma PatternParts(name: string, rest: string)
    ensures Pattern(name) + rest == "{" + (name + ("}" + rest)) && name + ("}" + rest) == (name + "}") + rest
  {
  }

  lemma RunOfPattern(name: string, rest: string)
    requires IsName(name)
    ensures Run(name + ("}" + rest)) == Some(name)
  {
    RunAfter(name, "}" + rest);
    assert Run("}" + rest) == Some("") && name + "" == name;
  }

  lemma ReplaceAtOther(other: string, name: string, rest: string, value: string)
    requires IsName(name) && IsName(other) && other != name
    ensures Replace(Pattern(other) + rest, Pattern(name), value) == Pattern(other) + Replace(rest, Pattern(name), value)
  {
    PatternParts(other, rest);
    RunOfPattern(other, rest);
    ReplaceAtText('{', other + ("}" + rest), name, value);
    ReplaceSkips(other + "}", rest, Pattern(name), value);
    PatternParts(other, Replace(rest, Pattern(name), value));
  }

  /** One replacement fills exactly the placeholders of that name, unless some brace pair spells it. */
  lemma {:induction false} ReplaceFillsOneName(
    tokens: seq<Token>, values: map<string, string>, name: string, value: string, rest: string)
    requires IsName(name) && name !in values && Encoded(values) && !Spells(tokens, values, name)
    requires (forall t :: t in tokens && t.Param? ==> IsName(t.name)) && (tokens == [] || IsSealed(tokens, rest))
    ensures
      Replace(Render(tokens, values) + rest, Pattern(name), value) ==
      Render(tokens, values[name := value]) + Replace(rest, Pattern(name), value)
  {
    if tokens == [] {
      assert Render(tokens, values) + rest == rest;
    } else {
      var after := Render(tokens[1..], values) + rest;
      ReplaceFillsOneName(tokens[1..], values, name, value, rest);
      RenderFirst(tokens, values, rest);
      RenderFirst(tokens, values[name := value], Replace(rest, Pattern(name), value));
      match tokens[0]
      case Text(c) =>
        if c == '{' { RunIsSpelled(tokens[1..], values, rest); }
        ReplaceAtText(c, after, name, value);
      case Param(other) =>
        assert tokens[0] in tokens && IsName(other);
        if other in values {
          ReplaceSkips(values[other], after, Pattern(name), value);
        } else if other == name {
          ReplaceAtName(name, after, value);
        } else {
          ReplaceAtOther(other, name, after, value);
        }
    }
  }

  // The code

  datatype UrlError = MissingPathParameter(name: string)

  /** The values substituted for the named arguments. */
  function Quoted(arguments: map<string, seq<Byte>>, names: set<string>): map<string, string> {
    map n | n in names && n in arguments :: Quote(arguments[n])
  }

  lemma QuotedIsEncoded(arguments: map<string, seq<Byte>>, names: set<string>)
    ensures Encoded(Quoted(arguments, names))
  {
    forall n | n in names && n in arguments ensures BraceFree(Quote(arguments[n])) {
      var q := Quote(arguments[n]);
      forall i | 0 <= i < |q| ensures !IsBrace(q[i]) {
        assert q[i] in q;
      }
    }
  }

  function Simultaneous(template: string, values: map<string, string>): string { Render(Tokenize(template), values) }

  /** The replacements one after the other. */
  function ReplaceAll(s: string, order: seq<string>, values: map<string, string>): string
    requires forall n :: n in order ==> n in values
  {
    if order == [] then s
    else
      var init, last := order[..|order| - 1], order[|order| - 1];
      assert forall n :: n in init ==> n in order;
      Replace(ReplaceAll(s, init, values), Pattern(last), values[last])
  }

  /**
   The loop over the set of placeholder names, in whatever order the set yields them.
   An absent key stands for an argument that is missing or None.
   */
  method ResolvePath(template: string, arguments: map<string, seq<Byte>>)
    returns (r: Result<string, UrlError>, names: set<string>, ghost order: seq<string>)
    ensures names == Elements(FindAll(template))
    ensures r.Err? <==> exists n :: n in names && n !in arguments
    ensures r.Err? ==> r.error.name in names && r.error.name !in arguments
    ensures r.Ok? ==> IsOrderOf(order, names) && r.value == ReplaceAll(template, order, Quoted(arguments, names))
  {
    names := set n | n in FindAll(template);
    var left := names;
    var resolved := template;
    order := [];
    while left != {}
      invariant left <= names && (forall n :: n in order ==> n in arguments)
      invariant IsOrderOf(order, names - left)
      invariant resolved == ReplaceAll(template, order, Quoted(arguments, names))
    {
      var name :| name in left;
      if name !in arguments {
        return Err(MissingPathParameter(name)), names, order;
      }
      resolved := Replace(resolved, "{" + name + "}", Quote(arguments[name]));
      OneMoreInOrder(order, names, left, name);
      assert (order + [name])[..|order|] == order;
      order := order + [name];
      left := left - {name};
    }
    assert names - left == names;
    return Ok(resolved), names, order;
  }

  lemma OneMoreInOrder(order: seq<string>, names: set<string>, left: set<string>, name: string)
    requires IsOrderOf(order, names - left) && left <= names && name in left
    ensures IsOrderOf(order + [name], names - (left - {name}))
  {
    var more := order + [name];
    forall i, j | 0 <= i < j < |more| ensures more[i] != more[j] {
      assert more[i] in order;
    }
  }

  // What is left in the path

  lemma FindAllAtText(c: char, rest: string)
    ensures
      var run := Run(rest);
      if c == '{' && run.Some? && run.value != "" then FindAll([c] + rest) != []
      else FindAll([c] + rest) == FindAll(rest)
  {
    var s := [c] + rest;
    assert s[1..] == rest;
    var n := if c == '{' then PlainRun(rest) else 0;
    if n > 0 && n < |rest| && rest[n] == '}' {
      assert Tokenize(s)[0] == Param(s[1..1 + n]);
    } else {
      assert Tokenize(s)[0] == Text(c) && Tokenize(s)[1..] == Tokenize(rest);
    }
  }

  lemma {:induction false} LeftIsSpelled(tokens: seq<Token>, values: map<string, string>)
    requires Encoded(values) && forall t :: t in tokens && t.Param? ==> t.name in values
    ensures FindAll(Render(tokens, values)) == [] <==> !SpellsSomething(tokens, values)
  {
    if tokens != [] {
      var rest := Render(tokens[1..], values);
      LeftIsSpelled(tokens[1..], values);
      match tokens[0]
      case Param(name) =>
        assert tokens[0] in tokens;
        FindAllAfterPlain(values[name], rest);
      case Text(c) =>
        FindAllAtText(c, rest);
        RunIsSpelled(tokens[1..], values, "");
        assert rest + "" == rest;
    }
  }

  /** The filled path has no placeholder exactly when no literal brace pair encloses anything, values filled in. */
  lemma NoPlaceholderLeftIff(template: string, values: map<string, string>)
    requires Encoded(values) && forall n :: n in FindAll(template) ==> n in values
    ensures FindAll(Simultaneous(template, values)) == [] <==> !SpellsSomething(Tokenize(template), values)
  {
    TokenNamesAreNames(template);
    ParamsAreFound(template);
    LeftIsSpelled(Tokenize(template), values);
  }

  lemma ParamsAreFound(template: string)
    ensures forall t :: t in Tokenize(template) && t.Param? ==> t.name in FindAll(template) && IsName(t.name)
  {
    TokenNamesAreNames(template);
    forall t | t in Tokenize(template) && t.Param? ensures t.name in FindAll(template) {
      assert t == Param(t.name);
    }
  }

  // Nested braces

  /** The next literal brace is a closing one. */
  predicate Closes(tokens: seq<Token>) {
    tokens != [] &&
      match tokens[0]
      case Param(_) => Closes(tokens[1..])
      case Text(c) => c == '}' || (c != '{' && Closes(tokens[1..]))
  }

  /** The placeholders before the next literal brace. */
  function Inside(tokens: seq<Token>): set<string> {
    if tokens == [] then {}
    else
      match tokens[0]
      case Param(name) => {name} + Inside(tokens[1..])
      case Text(c) => if IsBrace(c) then {} else Inside(tokens[1..])
  }

  /** Some literal brace pair encloses a placeholder, as in `{a{b}c}`. */
  predicate Nested(tokens: seq<Token>) {
    tokens != [] &&
      ((tokens[0] == Text('{') && Closes(tokens[1..]) && Inside(tokens[1..]) != {}) || Nested(tokens[1..]))
  }

  lemma {:induction false} SpelledWhenFilled(tokens: seq<Token>, values: map<string, string>)
    ensures Spelled(tokens, values).Some? <==> Closes(tokens) && Inside(tokens) <= values.Keys
    ensures
      Spelled(tokens, values).Some? && (forall n :: n in Inside(tokens) ==> values[n] != "") && Inside(tokens) != {}
      ==> Spelled(tokens, values) != Some("")
    ensures Inside(tokens) == {} ==> Spelled(tokens, values) == Spelled(tokens, map[])
  {
    if tokens != [] { SpelledWhenFilled(tokens[1..], values); }
  }

  /** The pattern would have found a brace pair around plain text. */
  lemma {:induction false} TokenizeExhausts(s: string)
    ensures !SpellsSomething(Tokenize(s), map[])
  {
    if s != "" {
      var n := if s[0] == '{' then PlainRun(s[1..]) else 0;
      if n > 0 && 1 + n < |s| && s[1 + n] == '}' {
        TokenizeExhausts(s[n + 2..]);
        assert Tokenize(s)[1..] == Tokenize(s[n + 2..]);
      } else {
        TokenizeExhausts(s[1..]);
        assert Tokenize(s)[1..] == Tokenize(s[1..]);
        RenderNothing(s[1..]);
        RunIsSpelled(Tokenize(s[1..]), map[], "");
        assert s[1..] + "" == s[1..];
      }
    }
  }

  lemma {:induction false} NestedIsSpelled(tokens: seq<Token>, values: map<string, string>)
    requires !SpellsSomething(tokens, map[])
    requires forall t :: t in tokens && t.Param? ==> t.name in values && values[t.name] != ""
    ensures SpellsSomething(tokens, values) <==> Nested(tokens)
  {
    if tokens != [] {
      NestedIsSpelled(tokens[1..], values);
      SpelledWhenFilled(tokens[1..], values);
      InsideIsThere(tokens[1..]);
    }
  }

  lemma {:induction false} InsideIsThere(tokens: seq<Token>)
    ensures forall n :: n in Inside(tokens) ==> Param(n) in tokens
  {
    if tokens != [] {
      InsideIsThere(tokens[1..]);
      assert tokens == [tokens[0]] + tokens[1..];
    }
  }

  /** Where no value is empty, that is when no literal brace pair encloses a placeholder. */
  lemma NoPlaceholderLeftIffUnnested(template: string, values: map<string, string>)
    requires Encoded(values) && forall n :: n in FindAll(template) ==> n in values && values[n] != ""
    ensures FindAll(Simultaneous(template, values)) == [] <==> !Nested(Tokenize(template))
  {
    ParamsAreFound(template);
    TokenizeExhausts(template);
    NestedIsSpelled(Tokenize(template), values);
    NoPlaceholderLeftIff(template, values);
  }

  function LiteralSlashes(tokens: seq<Token>): nat {
    if tokens == [] then 0 else (if tokens[0] == Text('/') then 1 else 0) + LiteralSlashes(tokens[1..])
  }

  lemma {:induction false} SplitAfterPlain(plain: string, rest: string)
    requires '/' !in plain
    ensures |SplitOn(plain + rest, '/')| == |SplitOn(rest, '/')|
  {
    if plain == "" {
      assert plain + rest == rest;
    } else {
      SplitAfterPlain(plain[1..], rest);
      assert (plain + rest)[1..] == plain[1..] + rest;
    }
  }

  /** An argument never adds a path segment, whatever its bytes. */
  lemma {:induction false} ArgumentsAddNoSegment(tokens: seq<Token>, arguments: map<string, seq<Byte>>, names: set<string>)
    requires forall t :: t in tokens && t.Param? ==> t.name in names && t.name in arguments
    ensures |SplitOn(Render(tokens, Quoted(arguments, names)), '/')| == 1 + LiteralSlashes(tokens)
  {
    if tokens != [] {
      var rest := Render(tokens[1..], Quoted(arguments, names));
      ArgumentsAddNoSegment(tokens[1..], arguments, names);
      match tokens[0]
      case Param(name) =>
        assert tokens[0] in tokens;
        assert '/' !in Quote(arguments[name]);
        SplitAfterPlain(Quote(arguments[name]), rest);
      case Text(c) =>
        assert ([c] + rest)[1..] == rest;
    }
  }

  function NestedExample(a: string, b: string, c: string, m: string): string {
    "{" + (a + (Pattern(b) + (c + "}/" + Pattern(m))))
  }

  /** Replacing an inner placeholder of the example leaves the outer braces in place. */
  lemma ReplaceInner(a: string, b: string, c: string, m: string, tail: string, x: string)
    requires IsName(a) && IsName(b) && BraceFree(c)
    ensures
      Replace("{" + (a + (Pattern(b) + (c + "}/" + tail))), Pattern(b), x) ==
      "{" + (a + (x + (c + "}/" + Replace(tail, Pattern(b), x))))
  {
    var rest := Pattern(b) + (c + "}/" + tail);
    PlainRunOf(a, rest);
    ReplaceAtText('{', a + rest, b, x);
    ReplaceSkips(a, rest, Pattern(b), x);
    ReplaceAtName(b, c + "}/" + tail, x);
    ReplaceSkips(c + "}/", tail, Pattern(b), x);
  }

  /**
   With nested braces the order matters. In `{a{b}c}/{axc}`, with `x` for `b` and `v` for
   `axc`, replacing `b` first gives `v/v`; replacing `axc` first leaves `{axc}/v`.
   */
  lemma NestingMakesOrderMatter(a: string, b: string, c: string, x: string, v: string)
    requires IsName(a) && IsName(b) && BraceFree(c) && BraceFree(x) && BraceFree(v) && b != a + x + c
    ensures
      var m := a + x + c;
      var t := NestedExample(a, b, c, m);
      && Replace(Replace(t, Pattern(b), x), Pattern(m), v) == v + "/" + v
      && Replace(Replace(t, Pattern(m), v), Pattern(b), x) == Pattern(m) + "/" + v
  {
    InnerFirst(a, b, c, x, v);
    OuterFirst(a, b, c, x, v);
  }

  lemma InnerFirst(a: string, b: string, c: string, x: string, v: string)
    requires IsName(a) && IsName(b) && BraceFree(c) && BraceFree(x) && b != a + x + c
    ensures
      var m := a + x + c;
      Replace(Replace(NestedExample(a, b, c, m), Pattern(b), x), Pattern(m), v) == v + "/" + v
  {
    InnerReplaced(a, b, c, x);
    BothReplaced(a + x + c, v);
  }

  lemma InnerReplaced(a: string, b: string, c: string, x: string)
    requires IsName(a) && IsName(b) && BraceFree(c) && BraceFree(x) && b != a + x + c
    ensures
      var m := a + x + c;
      Replace(NestedExample(a, b, c, m), Pattern(b), x) == Pattern(m) + ("/" + Pattern(m))
  {
    var m := a + x + c;
    ReplaceInner(a, b, c, m, Pattern(m), x);
    ReplaceNothing(m, b, x);
    Regroup(a, x, c, Pattern(m));
  }

  lemma ReplaceNothing(other: string, name: string, value: string)
    requires IsName(name) && IsName(other) && other != name
    ensures Replace(Pattern(other), Pattern(name), value) == Pattern(other)
  {
    ReplaceAtOther(other, name, "", value);
    assert Pattern(other) + "" == Pattern(other);
  }

  lemma BothReplaced(m: string, v: string)
    requires IsName(m)
    ensures Replace(Pattern(m) + ("/" + Pattern(m)), Pattern(m), v) == v + "/" + v
  {
    ReplaceAtName(m, "/" + Pattern(m), v);
    ReplaceSkips("/", Pattern(m), Pattern(m), v);
    ReplaceAtName(m, "", v);
    assert Pattern(m) + "" == Pattern(m) && v + "" == v;
  }

  lemma OuterFirst(a: string, b: string, c: string, x: string, v: string)
    requires IsName(a) && IsName(b) && BraceFree(c) && BraceFree(x) && BraceFree(v) && b != a + x + c
    ensures
      var m := a + x + c;
      Replace(Replace(NestedExample(a, b, c, m), Pattern(m), v), Pattern(b), x) == Pattern(m) + "/" + v
  {
    var m := a + x + c;
    var once := "{" + (a + (Pattern(b) + (c + "}/" + v)));
    assert Replace(NestedExample(a, b, c, m), Pattern(m), v) == once by {
      OuterIsNotReplaced(a, b, c, m, v);
    }
    assert Replace(v, Pattern(b), x) == v by {
      ReplaceSkips(v, "", Pattern(b), x);
      assert v + "" == v;
    }
    assert Replace(once, Pattern(b), x) == "{" + (a + (x + (c + "}/" + v))) by {
      ReplaceInner(a, b, c, m, v, x);
    }
    Regroup(a, x, c, v);
  }

  lemma Regroup(a: string, x: string, c: string, v: string)
    ensures "{" + (a + (x + (c + "}/" + v))) == Pattern(a + x + c) + "/" + v == Pattern(a + x + c) + ("/" + v)
  {
  }

  lemma OuterIsNotReplaced(a: string, b: string, c: string, m: string, v: string)
    requires IsName(a) && IsName(b) && BraceFree(c) && IsName(m) && b != m
    ensures
      Replace(NestedExample(a, b, c, m), Pattern(m), v) ==
      "{" + (a + (Pattern(b) + (c + "}/" + v)))
  {
    var rest := Pattern(b) + (c + "}/" + Pattern(m));
    PlainRunOf(a, rest);
    ReplaceAtText('{', a + rest, m, v);
    ReplaceSkips(a, rest, Pattern(m), v);
    ReplaceAtOther(b, m, c + "}/" + Pattern(m), v);
    ReplaceSkips(c + "}/", Pattern(m), Pattern(m), v);
    assert Pattern(m) + "" == Pattern(m) && v + "" == v;
    ReplaceAtName(m, "", v);
  }
}
