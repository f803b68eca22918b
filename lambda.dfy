/**
 * fn/lambda.c: the macro `lambda`. The invocation site becomes a generated name and the
 * case's `toplevel` output defines a function of that name.
 */
module Lambda {
  import opened Tokens
  import opened Shapes

  const Name := "lambda"

  /** What both cases' pattern `$(args) -> $(ret) $(body)` binds. */
  datatype Binding = Binding(args: Frag, ret: Frag, body: Frag)

  /** The argument fragments the pattern describes, for a binding. */
  function Args(b: Binding): seq<Frag> {
    [b.args, Arrow, b.ret, b.body]
  }

  /** The first case: `$(args) -> $(ret list) $(body)`. */
  function MatchList(s: seq<Frag>): (r: Option<Binding>)
    ensures r.Some? ==> IsList(r.value.ret) && |s| >= 4 && s[..4] == Args(r.value)
  {
    if |s| >= 4 && s[1] == Arrow && IsList(s[2]) then
      assert s[..4] == [s[0], s[1], s[2], s[3]];
      Some(Binding(s[0], s[2], s[3]))
    else None
  }

  /** The second case: `$(args) -> $(ret) $(body)`, any single fragment as `ret`. */
  function MatchPlain(s: seq<Frag>): (r: Option<Binding>)
    ensures r.Some? ==> |s| >= 4 && s[..4] == Args(r.value)
  {
    if |s| >= 4 && s[1] == Arrow then
      assert s[..4] == [s[0], s[1], s[2], s[3]];
      Some(Binding(s[0], s[2], s[3]))
    else None
  }

  /** The second pattern accepts every argument list the pattern describes; the first
      accepts exactly those whose return type is a list. */
  lemma MatchComplete(b: Binding, rest: seq<Frag>)
    ensures MatchPlain(Args(b) + rest) == Some(b)
    ensures MatchList(Args(b) + rest) == if IsList(b.ret) then Some(b) else None
  {
    var s := Args(b) + rest;
    assert s[0] == b.args && s[1] == Arrow && s[2] == b.ret && s[3] == b.body;
  }

  /** The first case's `toplevel`: `$(@splice ret) $(@gensym lambda) $(args) $(body)`. */
  function ListDefinition(b: Binding, g: Frag): seq<Frag>
    requires IsList(b.ret)
  {
    Splice(b.ret) + [g, b.args, b.body]
  }

  /** The second case's `toplevel`: `$(ret) $(@gensym lambda) $(args) $(body)`. */
  function PlainDefinition(b: Binding, g: Frag): seq<Frag> {
    [b.ret, g, b.args, b.body]
  }

  /**
   * Expands `lambda` followed by `s`. Both cases' `template` is `$(@getsym lambda 0)`,
   * the first symbol this invocation generated, which is the one its `toplevel` defines.
   */
  function Expand(s: seq<Frag>, c: nat): (r: Result<Expansion>)
    ensures r.Ok? <==> |s| >= 4 && s[1] == Arrow
    ensures r.Err? ==> r.error == NoMatchingCase(Name)
    ensures r.Ok? ==> r.value.used == 4 && r.value.counter == c + 1
    ensures r.Ok? ==>
      var f := ReadFunction(r.value.toplevel);
      && f.Some? && f.value.name == Gensym(Name, c) && r.value.site == [f.value.name]
      && f.value.params == s[0] && f.value.body == s[3]
  {
    // `@gensym lambda` makes `g`; `@getsym lambda 0` in the template is that same symbol.
    var g := Gensym(Name, c);
    match MatchList(s)
    case Some(b) =>
      assert ListDefinition(b, g)[..|b.ret.items|] == Splice(b.ret);
      Ok(Expansion([g], ListDefinition(b, g), 4, c + 1))
    case None =>
      match MatchPlain(s)
      case Some(b) => Ok(Expansion([g], PlainDefinition(b, g), 4, c + 1))
      case None => Err(NoMatchingCase(Name))
  }

  /**
   * A list return type selects the first case, although the second would match too, and
   * the list is spliced in without its parentheses: the definition reads
   * `ret-items name args body`.
   */
  lemma ListReturnType(b: Binding, rest: seq<Frag>, c: nat)
    requires IsList(b.ret)
    ensures MatchPlain(Args(b) + rest).Some?
    ensures var e := Expand(Args(b) + rest, c);
      && e.Ok?
      && ReadFunction(e.value.toplevel)
         == Some(Function(b.ret.items, Gensym(Name, c), b.args, b.body))
      && e.value.site == [Gensym(Name, c)]
  {
    MatchComplete(b, rest);
    var g := Gensym(Name, c);
    var d := ListDefinition(b, g);
    assert d[..|d| - 3] == b.ret.items;
  }

  /** Any other return type falls to the second case and is emitted unchanged. */
  lemma PlainReturnType(b: Binding, rest: seq<Frag>, c: nat)
    requires !IsList(b.ret)
    ensures var e := Expand(Args(b) + rest, c);
      && e.Ok?
      && ReadFunction(e.value.toplevel) == Some(Function([b.ret], Gensym(Name, c), b.args, b.body))
      && e.value.site == [Gensym(Name, c)]
  {
    MatchComplete(b, rest);
    var d := PlainDefinition(b, Gensym(Name, c));
    assert d[..1] == [b.ret];
  }

  /** Two invocations, one after the other, never share a generated name. */
  lemma DistinctNames(s1: seq<Frag>, s2: seq<Frag>, c: nat)
    requires Expand(s1, c).Ok?
    requires Expand(s2, Expand(s1, c).value.counter).Ok?
    ensures Expand(s1, c).value.site != Expand(s2, Expand(s1, c).value.counter).value.site
  {
  }

  /** The generated name is the only generated symbol the output adds to the input. */
  lemma KeepsBelow(s: seq<Frag>, c: nat)
    requires AllBelow(s, c) && Expand(s, c).Ok?
    ensures var e := Expand(s, c).value;
      c <= e.counter && AllBelow(e.site, e.counter) && AllBelow(e.toplevel, e.counter)
  {
    var c' := c + 1;
    var g := Gensym(Name, c);
    AllBelowMono(s, c, c');
    assert Below(s[0], c') && Below(s[2], c') && Below(s[3], c') && Below(g, c');
    match MatchList(s)
    case Some(b) =>
      assert AllBelow(b.ret.items, c');
      assert AllBelow(ListDefinition(b, g), c');
    case None =>
      assert AllBelow(PlainDefinition(MatchPlain(s).value, g), c');
  }
}
