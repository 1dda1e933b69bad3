/** When the order of the replacements that fill a URL path matters. */
module UrlOrder {
  import opened Common
  import opened PathTemplate
  import opened UrlTemplate

  /** The values of some names. */
  function Only(values: map<string, string>, names: set<string>): map<string, string> {
    map n | n in names && n in values :: values[n]
  }

  /**
   Some literal brace pair, once filled, spells a name of the template that does not stand between
   these braces itself.
   */
  predicate Escapes(tokens: seq<Token>, values: map<string, string>, names: set<string>) {
    tokens != [] && (EscapesFirst(tokens, values, names) || Escapes(tokens[1..], values, names))
  }

  predicate EscapesFirst(tokens: seq<Token>, values: map<string, string>, names: set<string>)
    requires tokens != []
  {
    var text := Spelled(tokens[1..], values);
    tokens[0] == Text('{') && text.Some? && text.value in names && text.value !in Inside(tokens[1..])
  }

  // Without such a pair, every order is simultaneous substitution

  lemma {:induction false} SpelledWithFewer(tokens: seq<Token>, values: map<string, string>, done: set<string>)
    ensures
      var few := Spelled(tokens, Only(values, done));
      few.Some? ==> few == Spelled(tokens, values) && Inside(tokens) <= done
  {
    if tokens != [] { SpelledWithFewer(tokens[1..], values, done); }
  }

  /** A pair that spells a name before its turn would escape. */
  lemma {:induction false} SpellsOnlyIfEscapes(
    tokens: seq<Token>, values: map<string, string>, names: set<string>, done: set<string>, name: string)
    requires name in names && name !in done && Spells(tokens, Only(values, done), name)
    ensures Escapes(tokens, values, names)
  {
    SpelledWithFewer(tokens[1..], values, done);
    if Spells(tokens[1..], Only(values, done), name) {
      SpellsOnlyIfEscapes(tokens[1..], values, names, done, name);
    }
  }

  ghost predicate IsFillable(tokens: seq<Token>, values: map<string, string>, order: seq<string>) {
    && Encoded(values)
    && (forall t :: t in tokens && t.Param? ==> IsName(t.name))
    && (forall n :: n in order ==> n in values && IsName(n))
    && forall i, j :: 0 <= i < j < |order| ==> order[i] != order[j]
  }

  /** Nothing that follows the tokens can close a brace of theirs. */
  ghost predicate IsCut(tokens: seq<Token>, rest: string) {
    tokens == [] || rest == "" || tokens[|tokens| - 1] == Text('}')
  }

  /** Replacing name by name fills the tokens, if none of the names is spelled when its turn comes. */
  lemma {:induction false} FillsInTurn(
    tokens: seq<Token>, values: map<string, string>, order: seq<string>, rest: string)
    requires IsFillable(tokens, values, order) && IsCut(tokens, rest)
    requires forall k :: 0 <= k < |order| ==> !Spells(tokens, Only(values, Elements(order[..k])), order[k])
    ensures
      ReplaceAll(Render(tokens, map[]) + rest, order, values) ==
      Render(tokens, Only(values, Elements(order))) + ReplaceAll(rest, order, values)
  {
    if order == [] {
      assert Only(values, Elements(order)) == map[];
    } else {
      var n := |order| - 1;
      var init, last := order[..n], order[n];
      assert order == init + [last];
      forall k | 0 <= k < n ensures !Spells(tokens, Only(values, Elements(init[..k])), init[k]) {
        assert init[..k] == order[..k];
      }
      FillsInTurn(tokens, values, init, rest);
      if rest == "" { NothingFromNothing(init, values); }
      OneTurn(tokens, values, init, last, ReplaceAll(rest, init, values));
    }
  }

  lemma OneTurn(
    tokens: seq<Token>, values: map<string, string>, init: seq<string>, last: string, rest: string)
    requires IsFillable(tokens, values, init + [last]) && IsCut(tokens, rest)
    requires !Spells(tokens, Only(values, Elements(init)), last)
    ensures last in values
    ensures
      Replace(Render(tokens, Only(values, Elements(init))) + rest, Pattern(last), values[last]) ==
      Render(tokens, Only(values, Elements(init + [last]))) + Replace(rest, Pattern(last), values[last])
  {
    forall i | 0 <= i < |init| ensures init[i] != last { assert (init + [last])[i] != (init + [last])[|init|]; }
    OnlyOneMore(values, init, last);
    ReplaceFillsOneName(tokens, Only(values, Elements(init)), last, values[last], rest);
  }

  lemma {:induction false} NothingFromNothing(order: seq<string>, values: map<string, string>)
    requires forall n :: n in order ==> n in values
    ensures ReplaceAll("", order, values) == ""
  {
    if order != [] {
      assert forall n :: n in order[..|order| - 1] ==> n in order;
      NothingFromNothing(order[..|order| - 1], values);
    }
  }

  lemma OnlyOneMore(values: map<string, string>, init: seq<string>, last: string)
    requires last in values && last !in init
    ensures last !in Only(values, Elements(init))
    ensures Only(values, Elements(init + [last])) == Only(values, Elements(init))[last := values[last]]
  {
  }

  lemma {:induction false} RenderNeedsOnly(tokens: seq<Token>, values: map<string, string>, names: set<string>)
    requires forall t :: t in tokens && t.Param? ==> t.name in names
    ensures Render(tokens, Only(values, names)) == Render(tokens, values)
  {
    if tokens != [] {
      assert tokens[0] in tokens;
      RenderNeedsOnly(tokens[1..], values, names);
    }
  }

  /** The values for a template: one for each of its names, percent-encoded. */
  ghost predicate Serves(values: map<string, string>, template: string) {
    Encoded(values) && forall n :: n in FindAll(template) ==> n in values
  }

  /** The arguments of a call that misses none serve, whatever their bytes: percent-encoding leaves no brace. */
  lemma ArgumentsServe(template: string, arguments: map<string, seq<Byte>>)
    requires forall n :: n in FindAll(template) ==> n in arguments
    ensures Serves(Quoted(arguments, Elements(FindAll(template))), template)
  {
    QuotedIsEncoded(arguments, Elements(FindAll(template)));
  }

  lemma TemplateIsFillable(template: string, values: map<string, string>, order: seq<string>, names: set<string>)
    requires Serves(values, template) && names == Elements(FindAll(template)) && IsOrderOf(order, names)
    ensures IsFillable(Tokenize(template), values, order)
    ensures forall t :: t in Tokenize(template) && t.Param? ==> t.name in names
    ensures Render(Tokenize(template), map[]) == template
  {
    ParamsAreFound(template);
    TokenNamesAreNames(template);
    RenderNothing(template);
    forall n | n in order ensures n in values && IsName(n) {
      assert n in FindAll(template) && Param(n) in Tokenize(template);
    }
  }

  /** Unless a brace pair escapes, replacing the names in any order fills them all at once. */
  lemma AnyOrderIsSimultaneous(template: string, values: map<string, string>, order: seq<string>)
    requires Serves(values, template) && IsOrderOf(order, Elements(FindAll(template)))
    requires !Escapes(Tokenize(template), values, Elements(FindAll(template)))
    ensures ReplaceAll(template, order, values) == Simultaneous(template, values)
  {
    var tokens, names := Tokenize(template), Elements(FindAll(template));
    TemplateIsFillable(template, values, order, names);
    forall k | 0 <= k < |order| ensures !Spells(tokens, Only(values, Elements(order[..k])), order[k]) {
      assert order[k] !in order[..k];
      if Spells(tokens, Only(values, Elements(order[..k])), order[k]) {
        SpellsOnlyIfEscapes(tokens, values, names, Elements(order[..k]), order[k]);
      }
    }
    FillsInTurn(tokens, values, order, "");
    NothingFromNothing(order, values);
    assert template + "" == template && Elements(order) == names;
    RenderNeedsOnly(tokens, values, names);
    assert Render(tokens, values) + "" == Render(tokens, values);
  }

  // The first pair that escapes

  datatype Pair = Pair(before: seq<Token>, body: seq<Token>, after: seq<Token>)

  predicate IsPlain(body: seq<Token>) { forall t :: t in body && t.Text? ==> !IsBrace(t.c) }

  function Opened(p: Pair): seq<Token> { p.before + [Text('{')] + p.body + [Text('}')] }

  ghost predicate IsFirstEscape(p: Pair, tokens: seq<Token>, values: map<string, string>, names: set<string>) {
    && tokens == Opened(p) + p.after
    && IsPlain(p.body) && (forall t :: t in p.body && t.Param? ==> t.name in values)
    && Render(p.body, values) in names && Param(Render(p.body, values)) !in p.body
    && !Escapes(p.before, values, names)
  }

  lemma {:induction false} SpelledBody(tokens: seq<Token>, values: map<string, string>) returns (body: seq<Token>, after: seq<Token>)
    requires Spelled(tokens, values).Some?
    ensures tokens == body + [Text('}')] + after && IsPlain(body)
    ensures forall t :: t in body && t.Param? ==> t.name in values && t.name in Inside(tokens)
    ensures forall n :: n in Inside(tokens) ==> Param(n) in body
    ensures Render(body, values) == Spelled(tokens, values).value
  {
    if tokens[0] == Text('}') {
      body, after := [], tokens[1..];
    } else {
      body, after := SpelledBody(tokens[1..], values);
      body := [tokens[0]] + body;
      assert body[1..] == tokens[1..][..|body| - 1];
    }
  }

  lemma {:induction false} FirstEscape(tokens: seq<Token>, values: map<string, string>, names: set<string>) returns (p: Pair)
    requires Escapes(tokens, values, names)
    ensures IsFirstEscape(p, tokens, values, names)
  {
    if EscapesFirst(tokens, values, names) {
      var body, after := SpelledBody(tokens[1..], values);
      p := Pair([], body, after);
      assert Opened(p) + after == [Text('{')] + tokens[1..];
    } else {
      var q := FirstEscape(tokens[1..], values, names);
      p := Pair([tokens[0]] + q.before, q.body, q.after);
      assert Opened(p) + p.after == [tokens[0]] + (Opened(q) + q.after);
      assert p.before[1..] == q.before;
      assert tokens[1..] == q.before + ([Text('{')] + q.body + [Text('}')] + q.after);
      SpelledBeforeBrace(q.before, [Text('{')] + q.body + [Text('}')] + q.after, values);
      InsideBeforeBrace(q.before, [Text('{')] + q.body + [Text('}')] + q.after);
    }
  }

  /** What comes from an opening brace on is not spelled. */
  lemma {:induction false} SpelledBeforeBrace(before: seq<Token>, more: seq<Token>, values: map<string, string>)
    requires more != [] && more[0] == Text('{')
    ensures Spelled(before + more, values) == Spelled(before, values)
  {
    if before == [] {
      assert before + more == more;
    } else {
      assert (before + more)[1..] == before[1..] + more;
      SpelledBeforeBrace(before[1..], more, values);
    }
  }

  lemma {:induction false} InsideBeforeBrace(before: seq<Token>, more: seq<Token>)
    requires more != [] && more[0] == Text('{')
    ensures Inside(before + more) == Inside(before)
  {
    if before == [] {
      assert before + more == more;
    } else {
      assert (before + more)[1..] == before[1..] + more;
      InsideBeforeBrace(before[1..], more);
    }
  }

  lemma {:induction false} SpelledPlain(body: seq<Token>, values: map<string, string>)
    requires IsPlain(body)
    ensures
      Spelled(body + [Text('}')], values) ==
      if forall t :: t in body && t.Param? ==> t.name in values then Some(Render(body, values)) else None
    ensures forall more, n :: !Spells(body + [Text('}')], more, n)
  {
    if body == [] {
      assert body + [Text('}')] == [Text('}')];
    } else {
      assert (body + [Text('}')])[1..] == body[1..] + [Text('}')];
      assert body == [body[0]] + body[1..];
      SpelledPlain(body[1..], values);
    }
  }

  /** Only the pairs before the first one that escapes, and this one, spell anything up to its end. */
  lemma {:induction false} SpellsUpToPair(before: seq<Token>, body: seq<Token>, values: map<string, string>, name: string)
    requires IsPlain(body) && Spells(before + ([Text('{')] + body + [Text('}')]), values, name)
    ensures Spells(before, values, name) || Spelled(body + [Text('}')], values) == Some(name)
    decreases before
  {
    var more := [Text('{')] + body + [Text('}')];
    if before == [] {
      assert before + more == more && more[1..] == body + [Text('}')];
      SpelledPlain(body, values);
    } else {
      assert (before + more)[1..] == before[1..] + more;
      SpelledBeforeBrace(before[1..], more, values);
      if Spells(before[1..] + more, values, name) { SpellsUpToPair(before[1..], body, values, name); }
    }
  }

  // One order that replaces the pair, and one that does not

  ghost predicate IsEscapeOf(p: Pair, template: string, values: map<string, string>, name: string) {
    && Serves(values, template)
    && IsFirstEscape(p, Tokenize(template), values, Elements(FindAll(template)))
    && name == Render(p.body, values)
  }

  /** The text of the pair comes after that of the tokens before it. */
  lemma RenderPair(p: Pair, values: map<string, string>)
    ensures
      Render(Opened(p) + p.after, values) ==
      Render(p.before, values) + (Pattern(Render(p.body, values)) + Render(p.after, values))
    ensures Render(Opened(p), values) == Render(p.before, values) + Pattern(Render(p.body, values))
  {
    RenderOpened(p, values);
    RenderSum(Opened(p), p.after, values);
    Associate(Render(p.before, values), Pattern(Render(p.body, values)), Render(p.after, values));
  }

  lemma RenderOpened(p: Pair, values: map<string, string>)
    ensures Render(Opened(p), values) == Render(p.before, values) + Pattern(Render(p.body, values))
  {
    var open, close := [Text('{')], [Text('}')];
    RenderSum(p.before + open + p.body, close, values);
    RenderSum(p.before + open, p.body, values);
    RenderSum(p.before, open, values);
    assert Render(open, values) == "{" && Render(close, values) == "}";
    Associate(Render(p.before, values) + "{", Render(p.body, values), "}");
    Glue(Render(p.before, values), Render(p.body, values));
  }

  lemma Glue(before: string, text: string)
    ensures before + "{" + text + "}" == before + Pattern(text)
  {
  }

  lemma {:induction false} RenderSum(a: seq<Token>, b: seq<Token>, values: map<string, string>)
    ensures Render(a + b, values) == Render(a, values) + Render(b, values)
  {
    if a == [] {
      assert a + b == b;
    } else {
      assert (a + b)[1..] == a[1..] + b;
      RenderSum(a[1..], b, values);
    }
  }

  /** Before the turn of its own name, the pair is spelled by none; nor at that turn while it is not filled. */
  lemma NoTurnForPair(
    p: Pair, template: string, values: map<string, string>, name: string, done: set<string>, next: string)
    requires IsEscapeOf(p, template, values, name) && next in Elements(FindAll(template)) && next !in done
    requires next != name || exists t :: t in p.body && t.Param? && t.name !in done
    ensures !Spells(Opened(p), Only(values, done), next)
  {
    if Spells(Opened(p), Only(values, done), next) {
      assert Opened(p) == p.before + ([Text('{')] + p.body + [Text('}')]);
      SpellsUpToPair(p.before, p.body, Only(values, done), next);
      if Spells(p.before, Only(values, done), next) {
        SpellsOnlyIfEscapes(p.before, values, Elements(FindAll(template)), done, next);
      }
      SpelledPlain(p.body, Only(values, done));
      RenderNeedsOnly(p.body, values, done);
    }
  }

  lemma PairIsFillable(p: Pair, template: string, values: map<string, string>, name: string, order: seq<string>)
    requires IsEscapeOf(p, template, values, name)
    requires (forall n :: n in order ==> n in Elements(FindAll(template)))
    requires forall i, j :: 0 <= i < j < |order| ==> order[i] != order[j]
    ensures IsFillable(Opened(p), values, order) && IsFillable(p.before, values, order) && IsName(name) && name in values
    ensures forall t :: t in p.before + p.body + p.after && t.Param? ==> t.name in FindAll(template)
  {
    TokenNamesAreNames(template);
    ParamsAreFound(template);
    var tokens := Tokenize(template);
    forall t | t in p.before + p.body + p.after || t in Opened(p) ensures t in tokens || t.Text? {
      assert tokens == Opened(p) + p.after;
    }
    forall n | n in Elements(FindAll(template)) ensures IsName(n) && n in values {
      assert Param(n) in tokens;
    }
  }

  /** Replacing the names fills everything up to the end of the pair, as long as the pair is not at its turn. */
  lemma PairInTurn(p: Pair, template: string, values: map<string, string>, name: string, order: seq<string>)
    requires IsEscapeOf(p, template, values, name) && IsFillable(Opened(p), values, order)
    requires forall n :: n in order ==> n in Elements(FindAll(template))
    requires
      forall k :: 0 <= k < |order| && order[k] == name ==>
        exists t :: t in p.body && t.Param? && t.name !in Elements(order[..k])
    ensures
      ReplaceAll(template, order, values) ==
      Render(Opened(p), Only(values, Elements(order))) + ReplaceAll(Render(p.after, map[]), order, values)
  {
    RenderNothing(template);
    RenderSum(Opened(p), p.after, map[]);
    forall k | 0 <= k < |order| ensures !Spells(Opened(p), Only(values, Elements(order[..k])), order[k]) {
      assert order[k] !in order[..k] && order[k] in order;
      NoTurnForPair(p, template, values, name, Elements(order[..k]), order[k]);
    }
    FillsInTurn(Opened(p), values, order, Render(p.after, map[]));
  }

  lemma OthersFirst(p: Pair, template: string, values: map<string, string>, name: string, others: seq<string>)
    requires IsEscapeOf(p, template, values, name) && IsOrderOf(others, Elements(FindAll(template)) - {name})
    ensures forall n :: n in others ==> n in values
    ensures
      ReplaceAll(template, others, values) ==
      Render(p.before, Only(values, Elements(others))) +
      (Pattern(name) + ReplaceAll(Render(p.after, map[]), others, values))
  {
    var some, rest := Only(values, Elements(others)), Render(p.after, map[]);
    PairIsFillable(p, template, values, name, others);
    PairInTurn(p, template, values, name, others);
    assert Elements(others) == Elements(FindAll(template)) - {name};
    BodyIsFilled(p, template, values, name, Elements(others));
    RenderPair(p, some);
    Associate(Render(p.before, some), Pattern(name), ReplaceAll(rest, others, values));
  }

  /** Some order has the name of the pair at the end. */
  lemma NameLast(p: Pair, template: string, values: map<string, string>, name: string, others: seq<string>)
    requires IsEscapeOf(p, template, values, name) && IsOrderOf(others, Elements(FindAll(template)) - {name})
    ensures forall n :: n in others + [name] ==> n in values
    ensures
      ReplaceAll(template, others + [name], values) ==
      Render(p.before, values) + (values[name] + ReplaceAll(Render(p.after, map[]), others + [name], values))
  {
    OthersFirst(p, template, values, name, others);
    NameAtItsTurn(p, template, values, name, others, ReplaceAll(Render(p.after, map[]), others, values));
    assert (others + [name])[..|others|] == others;
  }

  lemma BodyIsFilled(p: Pair, template: string, values: map<string, string>, name: string, done: set<string>)
    requires IsEscapeOf(p, template, values, name) && done == Elements(FindAll(template)) - {name}
    ensures Render(p.body, Only(values, done)) == name
  {
    PairIsFillable(p, template, values, name, []);
    forall t | t in p.body && t.Param? ensures t.name in done {
      assert t in p.before + p.body + p.after && t == Param(t.name);
    }
    RenderNeedsOnly(p.body, values, done);
  }

  lemma NameAtItsTurn(
    p: Pair, template: string, values: map<string, string>, name: string, others: seq<string>, rest: string)
    requires IsEscapeOf(p, template, values, name) && IsOrderOf(others, Elements(FindAll(template)) - {name})
    ensures name in values
    ensures
      var some := Only(values, Elements(others));
      Replace(Render(p.before, some) + (Pattern(name) + rest), Pattern(name), values[name]) ==
      Render(p.before, values) + (values[name] + Replace(rest, Pattern(name), values[name]))
  {
    var names, done := Elements(FindAll(template)), Elements(others);
    PairIsFillable(p, template, values, name, []);
    if Spells(p.before, Only(values, done), name) { SpellsOnlyIfEscapes(p.before, values, names, done, name); }
    ReplaceFillsOneName(p.before, Only(values, done), name, values[name], Pattern(name) + rest);
    ReplaceAtName(name, rest, values[name]);
    OnlyOneMore(values, others, name);
    assert Elements(others + [name]) == names;
    forall t | t in p.before && t.Param? ensures t.name in names { assert t in p.before + p.body + p.after; }
    RenderNeedsOnly(p.before, values, names);
  }

  /** Some order has the name of the pair at the front. */
  lemma NameFirst(p: Pair, template: string, values: map<string, string>, name: string, others: seq<string>)
    requires IsEscapeOf(p, template, values, name) && IsOrderOf(others, Elements(FindAll(template)) - {name})
    ensures forall n :: n in [name] + others ==> n in values
    ensures
      ReplaceAll(template, [name] + others, values) ==
      Render(p.before, values) + (Pattern(name) + ReplaceAll(Render(p.after, map[]), [name] + others, values))
  {
    var names, order, rest := Elements(FindAll(template)), [name] + others, Render(p.after, map[]);
    PairIsFillable(p, template, values, name, []);
    NameIsFirst(order, name, others, names);
    PairIsFillable(p, template, values, name, order);
    PairHasParam(p, template, values, name);
    assert forall k :: 0 <= k < |order| && order[k] == name ==> order[..k] == [];
    PairInTurn(p, template, values, name, order);
    assert Elements(order) == names;
    forall t | t in Opened(p) && t.Param? ensures t.name in names { assert t in p.before + p.body + p.after; }
    RenderNeedsOnly(Opened(p), values, names);
    RenderPair(p, values);
    Associate(Render(p.before, values), Pattern(name), ReplaceAll(rest, order, values));
  }

  lemma NameIsFirst(order: seq<string>, name: string, others: seq<string>, names: set<string>)
    requires order == [name] + others && IsOrderOf(others, names - {name}) && name in names
    ensures IsOrderOf(order, names)
  {
    forall i, j | 0 <= i < j < |order| ensures order[i] != order[j] {
      assert order[j] in others;
    }
  }

  /** Around plain text alone there is no pair, so the first one that escapes has a placeholder inside. */
  lemma PairHasParam(p: Pair, template: string, values: map<string, string>, name: string)
    requires IsEscapeOf(p, template, values, name)
    ensures exists t :: t in p.body && t.Param?
  {
    TokenizeExhausts(template);
    if forall t :: t in p.body ==> t.Text? { PlainPairIsFound(p, template, values, name); }
  }

  lemma PlainPairIsFound(p: Pair, template: string, values: map<string, string>, name: string)
    requires IsEscapeOf(p, template, values, name) && forall t :: t in p.body ==> t.Text?
    ensures SpellsSomething(Tokenize(template), map[])
  {
    var more := p.body + [Text('}')] + p.after;
    PairIsFillable(p, template, values, name, []);
    TextNeedsNoValues(p.body, values);
    SpelledPlain(p.body, map[]);
    SpelledMore(p.body + [Text('}')], p.after, map[]);
    SomethingAt(p.before, more, map[]);
    AroundBrace(p);
  }

  lemma {:induction false} TextNeedsNoValues(body: seq<Token>, values: map<string, string>)
    requires forall t :: t in body ==> t.Text?
    ensures Render(body, map[]) == Render(body, values)
  {
    if body != [] {
      assert body[0] in body;
      TextNeedsNoValues(body[1..], values);
    }
  }

  lemma AroundBrace(p: Pair)
    ensures Opened(p) + p.after == p.before + ([Text('{')] + (p.body + [Text('}')] + p.after))
  {
  }

  lemma {:induction false} SpelledMore(tokens: seq<Token>, more: seq<Token>, values: map<string, string>)
    requires Spelled(tokens, values).Some?
    ensures Spelled(tokens + more, values) == Spelled(tokens, values)
  {
    assert (tokens + more)[1..] == tokens[1..] + more;
    if tokens[0] != Text('}') { SpelledMore(tokens[1..], more, values); }
  }

  lemma {:induction false} SomethingAt(before: seq<Token>, more: seq<Token>, values: map<string, string>)
    requires Spelled(more, values).Some? && Spelled(more, values) != Some("")
    ensures SpellsSomething(before + ([Text('{')] + more), values)
  {
    if before == [] {
      assert before + ([Text('{')] + more) == [Text('{')] + more && ([Text('{')] + more)[1..] == more;
    } else {
      assert (before + ([Text('{')] + more))[1..] == before[1..] + ([Text('{')] + more);
      SomethingAt(before[1..], more, values);
    }
  }

  // Counting braces

  function Braces(s: string): nat {
    if s == "" then 0 else (if IsBrace(s[0]) then 1 else 0) + Braces(s[1..])
  }

  /** How often a replacement of the name replaces something. */
  function Count(s: string, name: string): nat {
    if |s| < |Pattern(name)| then 0
    else if s[..|Pattern(name)|] == Pattern(name) then 1 + Count(s[|Pattern(name)|..], name)
    else Count(s[1..], name)
  }

  function Total(s: string, order: seq<string>): nat {
    if order == [] then 0 else Total(s, order[..|order| - 1]) + Count(s, order[|order| - 1])
  }

  lemma {:induction false} BracesSum(a: string, b: string)
    ensures Braces(a + b) == Braces(a) + Braces(b)
  {
    if a == "" {
      assert a + b == b;
    } else {
      assert (a + b)[1..] == a[1..] + b;
      BracesSum(a[1..], b);
    }
  }

  lemma {:induction false} NoBraces(plain: string)
    requires BraceFree(plain)
    ensures Braces(plain) == 0
  {
    if plain != "" { NoBraces(plain[1..]); }
  }

  lemma BracesOfPattern(name: string, rest: string)
    requires BraceFree(name)
    ensures Braces(Pattern(name) + rest) == 2 + Braces(rest)
  {
    NoBraces(name);
    BracesSum(Pattern(name), rest);
    BracesSum("{" + name, "}");
    BracesSum("{", name);
  }

  lemma CountAtName(name: string, rest: string)
    ensures Count(Pattern(name) + rest, name) == 1 + Count(rest, name)
  {
    var s := Pattern(name) + rest;
    assert s[..|Pattern(name)|] == Pattern(name) && s[|Pattern(name)|..] == rest;
  }

  lemma {:induction false} CountSkips(plain: string, rest: string, name: string)
    requires '{' !in plain
    ensures Count(plain + rest, name) == Count(rest, name)
  {
    if plain == "" {
      assert plain + rest == rest;
    } else {
      var s := plain + rest;
      CountSkips(plain[1..], rest, name);
      assert s[1..] == plain[1..] + rest && s[0] == plain[0] != '{';
      if |s| >= |Pattern(name)| { assert s[..|Pattern(name)|][0] != Pattern(name)[0]; }
    }
  }

  /** The text from the next character on has no more occurrences. */
  lemma CountDrops(s: string, name: string)
    requires s != "" && IsName(name)
    ensures Count(s[1..], name) <= Count(s, name)
  {
    if |s| >= |Pattern(name)| && s[..|Pattern(name)|] == Pattern(name) {
      var rest := s[|Pattern(name)|..];
      assert s == Pattern(name) + rest;
      PatternParts(name, rest);
      assert s[1..] == (name + "}") + rest;
      CountSkips(name + "}", rest, name);
    }
  }

  lemma CountAtOther(other: string, name: string, rest: string)
    requires IsName(name) && IsName(other) && other != name
    ensures Count(Pattern(other) + rest, name) == Count(rest, name)
  {
    var s := Pattern(other) + rest;
    PatternParts(other, rest);
    RunOfPattern(other, rest);
    PatternIsRun(name, other + ("}" + rest));
    CountSkips(other + "}", rest, name);
    assert s[1..] == (other + "}") + rest && !(Pattern(name) <= s);
  }

  /** Each occurrence takes two braces with it. */
  lemma {:induction false} ReplaceTakesBraces(s: string, name: string, value: string)
    requires IsName(name) && BraceFree(value)
    ensures Braces(Replace(s, Pattern(name), value)) == Braces(s) - 2 * Count(s, name)
    decreases |s|
  {
    var p := Pattern(name);
    if |s| < |p| {
    } else if s[..|p|] == p {
      var rest := s[|p|..];
      assert s == p + rest;
      ReplaceTakesBraces(rest, name, value);
      BracesOfPattern(name, rest);
      NoBraces(value);
      BracesSum(value, Replace(rest, p, value));
    } else {
      ReplaceTakesBraces(s[1..], name, value);
      assert ([s[0]] + Replace(s[1..], p, value))[1..] == Replace(s[1..], p, value);
    }
  }

  /** Replacing one name leaves the occurrences of the others. */
  lemma {:induction false} ReplaceKeepsOthers(s: string, name: string, value: string, other: string)
    requires IsName(name) && IsName(other) && name != other && BraceFree(value)
    ensures Count(Replace(s, Pattern(name), value), other) >= Count(s, other)
    decreases |s|
  {
    var p, q := Pattern(name), Pattern(other);
    if |s| < |p| {
    } else if s[..|p|] == p {
      var rest := s[|p|..];
      assert s == p + rest;
      ReplaceKeepsOthers(rest, name, value, other);
      CountAtOther(name, other, rest);
      CountSkips(value, Replace(rest, p, value), other);
    } else if |s| >= |q| && s[..|q|] == q {
      var rest := s[|q|..];
      assert s == q + rest;
      ReplaceKeepsOthers(rest, name, value, other);
      ReplaceAtOther(other, name, rest, value);
      CountAtName(other, rest);
      CountAtName(other, Replace(rest, p, value));
    } else {
      var r := [s[0]] + Replace(s[1..], p, value);
      ReplaceKeepsOthers(s[1..], name, value, other);
      assert r[1..] == Replace(s[1..], p, value);
      CountDrops(r, other);
    }
  }

  ghost predicate IsNaming(order: seq<string>, values: map<string, string>) {
    && Encoded(values) && (forall n :: n in order ==> n in values && IsName(n))
    && forall i, j :: 0 <= i < j < |order| ==> order[i] != order[j]
  }

  lemma InitIsNaming(order: seq<string>, values: map<string, string>)
    requires IsNaming(order, values) && order != []
    ensures
      var n := |order| - 1;
      IsNaming(order[..n], values) && order[n] !in order[..n] && order[n] in values && IsName(order[n])
  {
    var n := |order| - 1;
    assert order[n] in order;
    assert forall x :: x in order[..n] ==> x in order;
  }

  lemma {:induction false} OthersStay(s: string, order: seq<string>, values: map<string, string>, other: string)
    requires IsNaming(order, values) && other !in order && IsName(other)
    ensures Count(ReplaceAll(s, order, values), other) >= Count(s, other)
  {
    if order != [] {
      var n := |order| - 1;
      InitIsNaming(order, values);
      OthersStay(s, order[..n], values, other);
      ReplaceKeepsOthers(ReplaceAll(s, order[..n], values), order[n], values[order[n]], other);
    }
  }

  /** Every order takes at least the braces of the placeholders that were there. */
  lemma {:induction false} ReplaceAllTakesBraces(s: string, order: seq<string>, values: map<string, string>)
    requires IsNaming(order, values)
    ensures Braces(ReplaceAll(s, order, values)) <= Braces(s) - 2 * Total(s, order)
  {
    if order != [] {
      var n := |order| - 1;
      InitIsNaming(order, values);
      ReplaceAllTakesBraces(s, order[..n], values);
      OthersStay(s, order[..n], values, order[n]);
      ReplaceTakesBraces(ReplaceAll(s, order[..n], values), order[n], values[order[n]]);
    }
  }

  lemma {:induction false} TotalGrows(c: char, s: string, order: seq<string>)
    requires forall n :: n in order ==> IsName(n)
    ensures Total([c] + s, order) >= Total(s, order)
  {
    if order != [] {
      var n := |order| - 1;
      assert order[n] in order && forall x :: x in order[..n] ==> x in order;
      TotalGrows(c, s, order[..n]);
      CountDrops([c] + s, order[n]);
      assert ([c] + s)[1..] == s;
    }
  }

  lemma {:induction false} TotalAtName(name: string, s: string, order: seq<string>)
    requires IsName(name) && forall n :: n in order ==> IsName(n)
    ensures Total(Pattern(name) + s, order) >= Total(s, order) + if name in order then 1 else 0
  {
    if order != [] {
      var n := |order| - 1;
      assert order == order[..n] + [order[n]];
      TotalAtName(name, s, order[..n]);
      if order[n] == name { CountAtName(name, s); } else { CountAtOther(name, order[n], s); }
    }
  }

  /** Filling all placeholders at once takes no more than their own braces. */
  lemma {:induction false} FillingTakesBraces(tokens: seq<Token>, order: seq<string>, values: map<string, string>)
    requires Encoded(values) && forall n :: n in order ==> IsName(n)
    requires forall t :: t in tokens && t.Param? ==> IsName(t.name) && t.name in order && t.name in values
    ensures
      Braces(Render(tokens, map[])) - 2 * Total(Render(tokens, map[]), order) <= Braces(Render(tokens, values))
  {
    if tokens != [] {
      var rest, filled := Render(tokens[1..], map[]), Render(tokens[1..], values);
      assert tokens[0] in tokens;
      FillingTakesBraces(tokens[1..], order, values);
      match tokens[0]
      case Text(c) =>
        TotalGrows(c, rest, order);
        BracesSum([c], rest);
        BracesSum([c], filled);
      case Param(name) =>
        TotalAtName(name, rest, order);
        BracesOfPattern(name, rest);
        NoBraces(values[name]);
        BracesSum(values[name], filled);
    }
  }

  // The exact conditions

  /** With its own name last, the pair is replaced: fewer braces are left than by filling all at once. */
  lemma NameLastIsNotSimultaneous(
    p: Pair, template: string, values: map<string, string>, name: string, others: seq<string>)
    requires IsEscapeOf(p, template, values, name) && IsOrderOf(others, Elements(FindAll(template)) - {name})
    ensures forall n :: n in others + [name] ==> n in values
    ensures ReplaceAll(template, others + [name], values) != Simultaneous(template, values)
  {
    var names, order, rest := Elements(FindAll(template)), others + [name], Render(p.after, map[]);
    PairIsFillable(p, template, values, name, []);
    NameIsLast(order, name, others, names);
    PairIsFillable(p, template, values, name, order);
    NameLast(p, template, values, name, others);
    ReplaceAllTakesBraces(rest, order, values);
    forall t | t in p.after && t.Param? ensures IsName(t.name) && t.name in order && t.name in values {
      assert t in p.before + p.body + p.after && t.name in names;
    }
    FillingTakesBraces(p.after, order, values);
    RenderPair(p, values);
    BracesSum(Render(p.before, values), values[name] + ReplaceAll(rest, order, values));
    BracesSum(values[name], ReplaceAll(rest, order, values));
    NoBraces(values[name]);
    BracesSum(Render(p.before, values), Pattern(name) + Render(p.after, values));
    BracesOfPattern(name, Render(p.after, values));
  }

  lemma NameIsLast(order: seq<string>, name: string, others: seq<string>, names: set<string>)
    requires order == others + [name] && IsOrderOf(others, names - {name}) && name in names
    ensures IsOrderOf(order, names)
  {
    forall i, j | 0 <= i < j < |order| ensures order[i] != order[j] {
      assert order[i] in others;
    }
  }

  ghost predicate EveryOrderIsSimultaneous(template: string, values: map<string, string>)
    requires Serves(values, template)
  {
    forall order :: IsOrderOf(order, Elements(FindAll(template))) ==>
      ReplaceAll(template, order, values) == Simultaneous(template, values)
  }

  /** Every order of replacements is simultaneous substitution exactly when no brace pair escapes. */
  lemma SimultaneousIffNothingEscapes(template: string, values: map<string, string>)
    requires Serves(values, template)
    ensures
      EveryOrderIsSimultaneous(template, values) <==>
      !Escapes(Tokenize(template), values, Elements(FindAll(template)))
  {
    var names := Elements(FindAll(template));
    if Escapes(Tokenize(template), values, names) {
      var p := FirstEscape(Tokenize(template), values, names);
      var name := Render(p.body, values);
      var others := SomeOrder(names - {name});
      NameIsLast(others + [name], name, others, names);
      NameLastIsNotSimultaneous(p, template, values, name, others);
    } else {
      forall order | IsOrderOf(order, names)
        ensures ReplaceAll(template, order, values) == Simultaneous(template, values)
      {
        AnyOrderIsSimultaneous(template, values, order);
      }
    }
  }

  ghost predicate OrderIsIrrelevant(template: string, values: map<string, string>)
    requires Serves(values, template)
  {
    forall o1, o2 :: IsOrderOf(o1, Elements(FindAll(template))) && IsOrderOf(o2, Elements(FindAll(template))) ==>
      ReplaceAll(template, o1, values) == ReplaceAll(template, o2, values)
  }

  /** The names of the template with an empty value. */
  function EmptyNames(template: string, values: map<string, string>): set<string> {
    set n | n in FindAll(template) && n in values && values[n] == ""
  }

  lemma {:induction false} InsidePlain(body: seq<Token>, after: seq<Token>)
    requires IsPlain(body)
    ensures forall n :: n in Inside(body + [Text('}')] + after) ==> Param(n) in body
  {
    if body == [] {
      assert body + [Text('}')] + after == [Text('}')] + after;
    } else {
      assert (body + [Text('}')] + after)[1..] == body[1..] + [Text('}')] + after;
      assert body == [body[0]] + body[1..];
      InsidePlain(body[1..], after);
    }
  }

  lemma {:induction false} EscapesIn(before: seq<Token>, more: seq<Token>, values: map<string, string>, names: set<string>)
    requires Escapes(more, values, names)
    ensures Escapes(before + more, values, names)
  {
    if before == [] {
      assert before + more == more;
    } else {
      assert (before + more)[1..] == before[1..] + more;
      EscapesIn(before[1..], more, values, names);
    }
  }

  lemma PairEscapes(p: Pair, template: string, values: map<string, string>, name: string, names: set<string>)
    requires IsEscapeOf(p, template, values, name) && name in names
    ensures Escapes(Tokenize(template), values, names)
  {
    var more := p.body + [Text('}')] + p.after;
    SpelledPlain(p.body, values);
    SpelledMore(p.body + [Text('}')], p.after, values);
    InsidePlain(p.body, p.after);
    assert ([Text('{')] + more)[1..] == more && Escapes([Text('{')] + more, values, names);
    EscapesIn(p.before, [Text('{')] + more, values, names);
    AroundBrace(p);
  }

  lemma FirstAndLastDiffer(
    p: Pair, template: string, values: map<string, string>, name: string, others: seq<string>)
    requires IsEscapeOf(p, template, values, name) && IsOrderOf(others, Elements(FindAll(template)) - {name})
    requires name in values && values[name] != ""
    ensures forall n :: n in [name] + others || n in others + [name] ==> n in values
    ensures ReplaceAll(template, [name] + others, values) != ReplaceAll(template, others + [name], values)
  {
    NameLast(p, template, values, name, others);
    NameFirst(p, template, values, name, others);
    PairIsFillable(p, template, values, name, []);
    var rest := Render(p.after, map[]);
    DifferAfter(
      Render(p.before, values), name, ReplaceAll(rest, [name] + others, values), values[name],
      ReplaceAll(rest, others + [name], values));
  }

  lemma DifferAfter(before: string, name: string, rest1: string, value: string, rest2: string)
    requires value != "" && BraceFree(value)
    ensures before + (Pattern(name) + rest1) != before + (value + rest2)
  {
    assert (before + (Pattern(name) + rest1))[|before|] == '{';
    assert (before + (value + rest2))[|before|] == value[0];
  }

  lemma EscapeMakesOrdersDiffer(template: string, values: map<string, string>)
    requires Serves(values, template) && !Escapes(Tokenize(template), values, EmptyNames(template, values))
    requires Escapes(Tokenize(template), values, Elements(FindAll(template)))
    ensures !OrderIsIrrelevant(template, values)
  {
    var names := Elements(FindAll(template));
    var p := FirstEscape(Tokenize(template), values, names);
    var name := Render(p.body, values);
    PairIsFillable(p, template, values, name, []);
    if name in EmptyNames(template, values) { PairEscapes(p, template, values, name, EmptyNames(template, values)); }
    PairMakesOrdersDiffer(p, template, values, name);
  }

  lemma PairMakesOrdersDiffer(p: Pair, template: string, values: map<string, string>, name: string)
    requires IsEscapeOf(p, template, values, name) && name in values && values[name] != ""
    ensures !OrderIsIrrelevant(template, values)
  {
    var names := Elements(FindAll(template));
    var others := SomeOrder(names - {name});
    NameIsLast(others + [name], name, others, names);
    NameIsFirst([name] + others, name, others, names);
    FirstAndLastDiffer(p, template, values, name, others);
  }

  /** Unless some pair escapes to a name whose value is empty, all orders agree exactly when no brace pair escapes. */
  lemma OrderIsIrrelevantIffNothingEscapes(template: string, values: map<string, string>)
    requires Serves(values, template) && !Escapes(Tokenize(template), values, EmptyNames(template, values))
    ensures
      OrderIsIrrelevant(template, values) <==> !Escapes(Tokenize(template), values, Elements(FindAll(template)))
  {
    if Escapes(Tokenize(template), values, Elements(FindAll(template))) {
      EscapeMakesOrdersDiffer(template, values);
    } else {
      SimultaneousIffNothingEscapes(template, values);
    }
  }

  /** A pair that escapes spells something. */
  lemma {:induction false} EscapesSpell(tokens: seq<Token>, values: map<string, string>, names: set<string>)
    requires Escapes(tokens, values, names) && "" !in names
    ensures SpellsSomething(tokens, values)
  {
    if !EscapesFirst(tokens, values, names) { EscapesSpell(tokens[1..], values, names); }
  }

  ghost predicate EveryOrderIsClean(template: string, values: map<string, string>)
    requires Serves(values, template)
  {
    forall order :: IsOrderOf(order, Elements(FindAll(template))) ==>
      var r := ReplaceAll(template, order, values);
      r == Simultaneous(template, values) && FindAll(r) == []
  }

  /**
   Every order is simultaneous substitution and leaves no placeholder exactly when no brace pair, once
   filled, spells anything; where no value is empty, when no brace pair encloses a placeholder.
   */
  lemma CleanIffUnnested(template: string, values: map<string, string>)
    requires Serves(values, template)
    ensures EveryOrderIsClean(template, values) <==> !SpellsSomething(Tokenize(template), values)
    ensures
      (forall n :: n in FindAll(template) ==> values[n] != "") ==>
        (EveryOrderIsClean(template, values) <==> !Nested(Tokenize(template)))
  {
    var names := Elements(FindAll(template));
    TokenNamesAreNames(template);
    NoPlaceholderLeftIff(template, values);
    SimultaneousIffNothingEscapes(template, values);
    if Escapes(Tokenize(template), values, names) {
      EscapesSpell(Tokenize(template), values, names);
    }
    var order := SomeOrder(names);
    if forall n :: n in FindAll(template) ==> values[n] != "" { NoPlaceholderLeftIffUnnested(template, values); }
  }
}
