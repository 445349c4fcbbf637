/**
 The statement builder the repository writes its dynamic SQL with: a buffer of text and numbered
 placeholders, and beside it the list of values bound so far. F is the kind of text fragment, V the
 kind of value.
 */
module QueryBuilders {
  import opened Numbers

  // Facts about sequences.

  lemma {:induction false} Associate<T>(a: seq<T>, b: seq<T>, c: seq<T>)
    ensures a + (b + c) == a + b + c
  {
  }

  lemma {:induction false} HeadAndTail<T>(a: seq<T>, b: seq<T>)
    requires a != []
    ensures a == [a[0]] + a[1..] && a + b == [a[0]] + (a[1..] + b)
  {
  }

  datatype Token<+F> = Text(fragment: F) | Placeholder(number: nat)

  /** The placeholder numbers of a statement, in the order they occur. */
  function Placeholders<F>(tokens: seq<Token<F>>): seq<nat> {
    if tokens == [] then []
    else if tokens[0].Placeholder? then [tokens[0].number] + Placeholders(tokens[1..])
    else Placeholders(tokens[1..])
  }

  lemma {:induction false} PlaceholdersConcat<F>(a: seq<Token<F>>, b: seq<Token<F>>)
    ensures Placeholders(a + b) == Placeholders(a) + Placeholders(b)
  {
    if a == [] {
      assert a + b == b;
    } else {
      PlaceholdersConcat(a[1..], b);
      assert (a + b)[1..] == a[1..] + b;
    }
  }

  function RenderToken<F>(token: Token<F>, text: F -> string): string {
    match token
    case Text(fragment) => text(fragment)
    case Placeholder(number) => "$" + Decimal(number)
  }

  /** The string that is sent: fragments by their text, placeholders as $1, $2 and so on. */
  function Render<F>(tokens: seq<Token<F>>, text: F -> string): string {
    if tokens == [] then "" else RenderToken(tokens[0], text) + Render(tokens[1..], text)
  }

  lemma {:induction false} RenderOne<F>(token: Token<F>, text: F -> string)
    ensures Render([token], text) == RenderToken(token, text)
  {
    assert Render([token][1..], text) == "";
  }

  lemma {:induction false} RenderTwo<F>(a: Token<F>, b: Token<F>, text: F -> string)
    ensures Render([a, b], text) == RenderToken(a, text) + RenderToken(b, text)
  {
    assert [a, b][1..] == [b];
    RenderOne(b, text);
  }

  lemma {:induction false} RenderCons<F>(token: Token<F>, rest: seq<Token<F>>, text: F -> string)
    ensures Render([token] + rest, text) == RenderToken(token, text) + Render(rest, text)
  {
    assert ([token] + rest)[1..] == rest;
  }

  lemma {:induction false} RenderConcat<F>(a: seq<Token<F>>, b: seq<Token<F>>, text: F -> string)
    ensures Render(a + b, text) == Render(a, text) + Render(b, text)
  {
    if a == [] {
      assert a + b == b;
    } else {
      RenderConcat(a[1..], b, text);
      HeadAndTail(a, b);
      RenderCons(a[0], a[1..] + b, text);
      Associate(RenderToken(a[0], text), Render(a[1..], text), Render(b, text));
    }
  }

  lemma {:induction false} Unfold(head: string, piece: string, more: string, tail: string)
    ensures (head + (piece + more)) + tail == head + (piece + (more + tail))
  {
  }

  lemma {:induction false} CutPrefix(p: string, a: string, b: string)
    requires p + a == p + b
    ensures a == b
  {
    assert (p + a)[|p|..] == a && (p + b)[|p|..] == b;
  }

  /** Placeholders 1..n, in order, each once: one for each of the n bound values. */
  ghost predicate NumberedInOrder<F>(tokens: seq<Token<F>>, n: nat) {
    Placeholders(tokens) == seq(n, i => i + 1)
  }

  class QueryBuilder<F, V> {
    var tokens: seq<Token<F>>
    var args: seq<V>

    ghost predicate Valid()
      reads this
    {
      NumberedInOrder(tokens, |args|)
    }

    constructor (fragment: F)
      ensures Valid() && tokens == [Text(fragment)] && args == []
    {
      tokens := [Text(fragment)];
      args := [];
    }

    method Push(fragment: F)
      requires Valid()
      modifies this`tokens
      ensures Valid() && tokens == old(tokens) + [Text(fragment)]
    {
      PlaceholdersConcat(tokens, [Text(fragment)]);
      tokens := tokens + [Text(fragment)];
    }

    method PushBind(value: V)
      requires Valid()
      modifies this
      ensures Valid() && args == old(args) + [value]
      ensures tokens == old(tokens) + [Placeholder(|old(args)| + 1)]
    {
      args := args + [value];
      PlaceholdersConcat(tokens, [Placeholder(|args|)]);
      tokens := tokens + [Placeholder(|args|)];
    }
  }

  /** Writes its separator before every pushed fragment but the first. */
  class Separated<F, V> {
    const builder: QueryBuilder<F, V>
    const separator: F
    var pushSeparator: bool

    constructor (builder: QueryBuilder<F, V>, separator: F)
      ensures this.builder == builder && this.separator == separator && !pushSeparator
    {
      this.builder := builder;
      this.separator := separator;
      this.pushSeparator := false;
    }

    method Push(fragment: F)
      requires builder.Valid()
      modifies this, builder`tokens
      ensures builder.Valid() && pushSeparator
      ensures builder.tokens ==
              old(builder.tokens) + (if old(pushSeparator) then [Text(separator)] else []) + [Text(fragment)]
    {
      if pushSeparator {
        builder.Push(separator);
      }
      pushSeparator := true;
      builder.Push(fragment);
    }

    method PushBindUnseparated(value: V)
      requires builder.Valid()
      modifies builder
      ensures builder.Valid() && builder.args == old(builder.args) + [value]
      ensures builder.tokens == old(builder.tokens) + [Placeholder(|old(builder.args)| + 1)]
    {
      builder.PushBind(value);
    }
  }
}
