/**
 * fn/lazy.c: the macros `delay`, which wraps an expression in a thunk by leaving a nested
 * `lambda` invocation for a later pass, and `force`, which calls a thunk. The file's
 * `cmacro_import "lambda.c"` is modelled by the `lambda` rules being in the macro table.
 */
module Lazy {
  import opened Tokens
  import opened Shapes
  import Lambda

  const DelayName := "delay"
  const ForceName := "force"

  const Typeof := Atom("typeof")
  const Return := Atom("return")

  /** `()`: the thunk's parameter list and `force`'s argument list. */
  const NoArgs := Group(Paren, [])

  /** The tokens of `delay`'s template other than the expression. */
  predicate IsDelayLiteral(f: Frag) {
    f == Atom(Lambda.Name) || f == NoArgs || f == Arrow || f == Typeof || f == Return || f == Semi
  }

  /** `{ return e; }`, the thunk's body. */
  function ReturnBlock(e: Frag): Frag {
    Group(Brace, [Return, e, Semi])
  }

  /** The template as written: `lambda () -> typeof(e) { return e; }`. */
  function DelayWrittenTemplate(e: Frag): seq<Frag> {
    [Atom(Lambda.Name), NoArgs, Arrow, Typeof, Group(Paren, [e]), ReturnBlock(e)]
  }

  /** The template with its return type in parentheses: `lambda () -> (typeof(e)) { return e; }`. */
  function DelayTemplate(e: Frag): seq<Frag> {
    [Atom(Lambda.Name), NoArgs, Arrow, Group(Paren, [Typeof, Group(Paren, [e])]), ReturnBlock(e)]
  }

  /** `delay` as written: its one case takes any single fragment. */
  function DelayAsWritten(s: seq<Frag>, c: nat): (r: Result<Expansion>)
    ensures r.Ok? <==> |s| >= 1
    ensures r.Err? ==> r.error == NoMatchingCase(DelayName)
    ensures r.Ok? ==> r.value.used == 1 && r.value.toplevel == [] && r.value.counter == c
    ensures r.Ok? ==> |r.value.site| >= 1 && r.value.site[0] == Atom(Lambda.Name)
  {
    if |s| >= 1 then Ok(Expansion(DelayWrittenTemplate(s[0]), [], 1, c)) else Err(NoMatchingCase(DelayName))
  }

  /**
   * `delay` with the corrected template, the one the macro table uses. Its output is a
   * `lambda` invocation left for the driver's next pass.
   */
  function Delay(s: seq<Frag>, c: nat): (r: Result<Expansion>)
    ensures r.Ok? <==> |s| >= 1
    ensures r.Err? ==> r.error == NoMatchingCase(DelayName)
    ensures r.Ok? ==> r.value.used == 1 && r.value.toplevel == [] && r.value.counter == c
    ensures r.Ok? ==> |r.value.site| >= 1 && r.value.site[0] == Atom(Lambda.Name)
  {
    if |s| >= 1 then Ok(Expansion(DelayTemplate(s[0]), [], 1, c)) else Err(NoMatchingCase(DelayName))
  }

  /** `force e`: a call of `e` with an empty argument list. */
  function Force(s: seq<Frag>, c: nat): (r: Result<Expansion>)
    ensures r.Ok? <==> |s| >= 1
    ensures r.Err? ==> r.error == NoMatchingCase(ForceName)
    ensures r.Ok? ==> r.value.used == 1 && r.value.toplevel == [] && r.value.counter == c
    ensures r.Ok? ==> ReadCall(r.value.site) == Some(Call(s[0], [[]]))
  {
    if |s| >= 1 then Ok(Expansion([s[0], NoArgs], [], 1, c)) else Err(NoMatchingCase(ForceName))
  }

  /** `{ return e; }` holds `e` once. */
  lemma ReturnBlockOnce(e: Frag)
    requires !IsDelayLiteral(e)
    ensures Occurrences(e, ReturnBlock(e)) == 1
  {
    OccurrencesIn3(e, Return, e, Semi);
    OccursOnceInItself(e);
    NotInsideMember(e, Brace, [Return, e, Semi], 1);
  }

  /** As written, the expression occurs exactly twice in `delay`'s output. */
  lemma WrittenExprTwice(s: seq<Frag>, c: nat)
    requires |s| >= 1 && !IsDelayLiteral(s[0])
    ensures OccurrencesIn(s[0], DelayAsWritten(s, c).value.site) == 2
  {
    var e := s[0];
    var t := DelayWrittenTemplate(e);
    ReturnBlockOnce(e);
    assert Occurrences(e, Group(Paren, [e])) == 1 by {
      OccurrencesInSingle(e, e);
      OccursOnceInItself(e);
      NotInsideMember(e, Paren, [e], 0);
    }
    assert t == [Atom(Lambda.Name), NoArgs, Arrow] + [Typeof, Group(Paren, [e]), ReturnBlock(e)];
    OccurrencesInAppend(e, [Atom(Lambda.Name), NoArgs, Arrow], [Typeof, Group(Paren, [e]), ReturnBlock(e)]);
    OccurrencesIn3(e, Atom(Lambda.Name), NoArgs, Arrow);
    OccurrencesIn3(e, Typeof, Group(Paren, [e]), ReturnBlock(e));
  }

  /** With the corrected template the expression occurs exactly twice as well. */
  lemma ExprTwice(s: seq<Frag>, c: nat)
    requires |s| >= 1 && !IsDelayLiteral(s[0])
    ensures OccurrencesIn(s[0], Delay(s, c).value.site) == 2
  {
    var e := s[0];
    var ty := Group(Paren, [Typeof, Group(Paren, [e])]);
    ReturnBlockOnce(e);
    assert Occurrences(e, Group(Paren, [e])) == 1 by {
      OccurrencesInSingle(e, e);
      OccursOnceInItself(e);
      NotInsideMember(e, Paren, [e], 0);
    }
    assert Occurrences(e, ty) == 1 by {
      OccurrencesIn2(e, Typeof, Group(Paren, [e]));
      SizeInMember([e], 0);
      SizeInMember([Typeof, Group(Paren, [e])], 1);
    }
    assert DelayTemplate(e) == [Atom(Lambda.Name), NoArgs] + [Arrow, ty, ReturnBlock(e)];
    OccurrencesInAppend(e, [Atom(Lambda.Name), NoArgs], [Arrow, ty, ReturnBlock(e)]);
    OccurrencesIn2(e, Atom(Lambda.Name), NoArgs);
    OccurrencesIn3(e, Arrow, ty, ReturnBlock(e));
  }

  /**
   * As written, the nested `lambda` reads `typeof` as the return type and `(e)` as the
   * body: its pattern consumes four of the five fragments after its name, the function it
   * defines has a parenthesised expression and not a block as its body, and the block
   * `{ return e; }` is left behind in the output.
   */
  lemma WrittenMisparses(e: Frag, rest: seq<Frag>, c: nat, c': nat)
    ensures var t := DelayAsWritten([e] + rest, c).value.site;
      && var l := Lambda.Expand(t[1..] + rest, c');
      && l.Ok? && l.value.used == 4 && |t| - 1 == 5
      && (t[1..] + rest)[l.value.used] == ReturnBlock(e)
      && ReadFunction(l.value.toplevel)
         == Some(Function([Typeof], Gensym(Lambda.Name, c'), NoArgs, Group(Paren, [e])))
      && !IsBlock(ReadFunction(l.value.toplevel).value.body)
  {
    var t := DelayAsWritten([e] + rest, c).value.site;
    var b := Lambda.Binding(NoArgs, Typeof, Group(Paren, [e]));
    assert t[1..] + rest == Lambda.Args(b) + ([ReturnBlock(e)] + rest);
    Lambda.PlainReturnType(b, [ReturnBlock(e)] + rest, c');
  }

  /**
   * With the corrected template the nested `lambda` takes its list case and consumes the
   * whole template: the thunk it defines takes no parameters, returns `typeof(e)` and has
   * the body `{ return e; }`, and the invocation site becomes the thunk's name.
   */
  lemma DelayThunk(e: Frag, rest: seq<Frag>, c: nat, c': nat)
    ensures var t := Delay([e] + rest, c).value.site;
      && var l := Lambda.Expand(t[1..] + rest, c');
      && l.Ok? && l.value.used == |t| - 1
      && l.value.site == [Gensym(Lambda.Name, c')]
      && ReadFunction(l.value.toplevel)
         == Some(Function([Typeof, Group(Paren, [e])], Gensym(Lambda.Name, c'), NoArgs, ReturnBlock(e)))
  {
    var t := Delay([e] + rest, c).value.site;
    var b := Lambda.Binding(NoArgs, Group(Paren, [Typeof, Group(Paren, [e])]), ReturnBlock(e));
    assert t[1..] + rest == Lambda.Args(b) + rest;
    Lambda.ListReturnType(b, rest, c');
  }

  /**
   * Forcing the thunk that the corrected `delay` defines calls it by its name with
   * argument pieces that are exactly its parameter pieces: none.
   */
  lemma ForceFitsThunk(e: Frag, rest: seq<Frag>, more: seq<Frag>, c: nat, c': nat, c'': nat)
    ensures var t := Delay([e] + rest, c).value.site;
      && var f := ReadFunction(Lambda.Expand(t[1..] + rest, c').value.toplevel).value;
      && var call := ReadCall(Force([f.name] + more, c'').value.site).value;
      && call.callee == f.name && call.args == SplitAt(f.params.items, Comma)
  {
    DelayThunk(e, rest, c, c');
  }

  /** Neither macro generates a name: both keep the program's symbols as they were. */
  lemma KeepsBelow(s: seq<Frag>, c: nat)
    requires AllBelow(s, c) && |s| >= 1
    ensures var d := Delay(s, c).value; AllBelow(d.site, d.counter) && AllBelow(d.toplevel, d.counter)
    ensures var f := Force(s, c).value; AllBelow(f.site, f.counter) && AllBelow(f.toplevel, f.counter)
  {
    var e := s[0];
    assert Below(e, c);
    assert Below(Group(Paren, [e]), c);
    assert Below(Group(Paren, [Typeof, Group(Paren, [e])]), c);
    assert Below(ReturnBlock(e), c);
  }
}
