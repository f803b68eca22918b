/**
 * util/with_open_file.c: the macro `with_open_file`, a scope that opens a file, runs its
 * body only when the open succeeded and closes the stream afterwards.
 */
module WithOpenFile {
  import opened Tokens
  import opened Shapes

  const Name := "with_open_file"

  /** What `($(stream-name ident), $(pathname string), $(direction string)) $(body block)` binds. */
  datatype Binding = Binding(stream: Frag, path: Frag, direction: Frag, body: Frag)

  /** The argument fragments the pattern describes, for a binding. */
  function Args(b: Binding): seq<Frag> {
    [Group(Paren, [b.stream, Comma, b.path, Comma, b.direction]), b.body]
  }

  predicate Kinds(b: Binding) {
    IsIdent(b.stream) && IsString(b.path) && IsString(b.direction) && IsBlock(b.body)
  }

  function Match(s: seq<Frag>): (r: Option<Binding>)
    ensures r.Some? ==> Kinds(r.value) && |s| >= 2 && s[..2] == Args(r.value)
  {
    if |s| >= 2 && IsList(s[0]) && |s[0].items| == 5 && s[0].items[1] == Comma && s[0].items[3] == Comma
       && IsIdent(s[0].items[0]) && IsString(s[0].items[2]) && IsString(s[0].items[4]) && IsBlock(s[1])
    then
      var it := s[0].items;
      assert it == [it[0], it[1], it[2], it[3], it[4]];
      assert s[..2] == [s[0], s[1]];
      Some(Binding(it[0], it[2], it[4], s[1]))
    else None
  }

  /** The pattern accepts every well-kinded argument list it describes. */
  lemma MatchComplete(b: Binding, rest: seq<Frag>)
    requires Kinds(b)
    ensures Match(Args(b) + rest) == Some(b)
  {
    var s := Args(b) + rest;
    assert s[0] == Group(Paren, [b.stream, Comma, b.path, Comma, b.direction]) && s[1] == b.body;
  }

  /** The template: open, run the body if that worked, close. */
  function Scoped(b: Binding): Frag {
    Group(Brace, [Atom("FILE"), Atom("*"), b.stream, Equals, Atom("fopen"),
                  Group(Paren, [b.path, Comma, b.direction]), Semi,
                  Atom("if"), Group(Paren, [b.stream]), b.body,
                  Atom("fclose"), Group(Paren, [b.stream]), Semi])
  }

  /** Expands `with_open_file` followed by `s`. */
  function Expand(s: seq<Frag>, c: nat): (r: Result<Expansion>)
    ensures r.Ok? <==> Match(s).Some?
    ensures r.Err? ==> r.error == NoMatchingCase(Name)
    ensures r.Ok? ==> r.value.used == 2 <= |s| && r.value.toplevel == [] && r.value.counter == c
  {
    match Match(s)
    case Some(b) => Ok(Expansion([Scoped(b)], [], 2, c))
    case None => Err(NoMatchingCase(Name))
  }

  lemma WellKindedCall(b: Binding, rest: seq<Frag>, c: nat)
    requires Kinds(b)
    ensures Expand(Args(b) + rest, c) == Ok(Expansion([Scoped(b)], [], 2, c))
  {
    MatchComplete(b, rest);
  }

  /**
   * A stream name that is not an identifier, a pathname or direction that is not a string
   * literal, or a body that is not a block: no case matches.
   */
  lemma KindsRequired(s: seq<Frag>, c: nat)
    requires |s| >= 2 && IsList(s[0]) && |s[0].items| == 5
    requires !IsIdent(s[0].items[0]) || !IsString(s[0].items[2]) || !IsString(s[0].items[4])
          || !IsBlock(s[1])
    ensures Expand(s, c) == Err(NoMatchingCase(Name))
  {
  }

  /**
   * Read as C, the output declares `FILE* stream = fopen(path, direction)` with the two
   * string literals unchanged and in that order, guards the body with `if(stream)` and
   * closes the very stream it opened and tested.
   */
  lemma ScopeShape(b: Binding)
    requires Kinds(b)
    ensures var sc := ReadScope(Scoped(b));
      && sc.Some?
      && sc.value.guard == b.stream && sc.value.guarded == b.body
      && sc.value.release == Atom("fclose") && sc.value.released == b.stream
      && ReadPointerDecl(sc.value.decl).Some?
      && var d := ReadPointerDecl(sc.value.decl).value;
      && d.ty == Atom("FILE") && d.name == b.stream
      && ReadCall(d.init) == Some(Call(Atom("fopen"), [[b.path], [b.direction]]))
  {
    var items := Scoped(b).items;
    var init := [Atom("fopen"), Group(Paren, [b.path, Comma, b.direction])];
    var decl := items[..6];
    assert decl == [Atom("FILE"), Atom("*"), b.stream, Equals] + init;
    assert decl[4..] == init;
    assert ReadPointerDecl(decl) == Some(PointerDecl(Atom("FILE"), b.stream, init));
    SplitAfter([b.path], Comma, [b.direction]);
    SplitWithout([b.direction], Comma);
    assert [b.path] + [Comma] + [b.direction] == [b.path, Comma, b.direction];
    assert SplitAt(init[1].items, Comma) == [[b.path], [b.direction]];
  }

  /** The body occurs in the output exactly once, and that is as the guarded statement. */
  lemma BodyOnce(b: Binding)
    requires Kinds(b)
    ensures OccurrencesIn(b.body, [Scoped(b)]) == 1
  {
    var x := b.body;
    var args := Group(Paren, [b.path, Comma, b.direction]);
    var stream := Group(Paren, [b.stream]);
    var decl1 := [Atom("FILE"), Atom("*"), b.stream];
    var decl2 := [Equals, Atom("fopen"), args, Semi];
    var guard := [Atom("if"), stream, b.body];
    var release := [Atom("fclose"), stream, Semi];
    assert Occurrences(x, b.stream) == 0;
    assert Occurrences(x, stream) == 0 by { OccurrencesInSingle(x, b.stream); }
    assert Occurrences(x, args) == 0 by { OccurrencesIn3(x, b.path, Comma, b.direction); }
    assert OccurrencesIn(x, decl1) == 0 by { OccurrencesIn3(x, Atom("FILE"), Atom("*"), b.stream); }
    assert OccurrencesIn(x, decl2) == 0 by { OccurrencesIn4(x, Equals, Atom("fopen"), args, Semi); }
    assert OccurrencesIn(x, guard) == 1 by {
      OccurrencesIn3(x, Atom("if"), stream, b.body);
      OccursOnceInItself(x);
    }
    assert OccurrencesIn(x, release) == 0 by { OccurrencesIn3(x, Atom("fclose"), stream, Semi); }
    var items := Scoped(b).items;
    assert OccurrencesIn(x, items) == 1 by {
      assert items == decl1 + decl2 + guard + release;
      OccurrencesInAppend(x, decl1 + decl2 + guard, release);
      OccurrencesInAppend(x, decl1 + decl2, guard);
      OccurrencesInAppend(x, decl1, decl2);
    }
    NotInsideMember(x, Brace, items, 9);
    OccurrencesInSingle(x, Scoped(b));
  }

  /** No generated symbol appears in the output that was not in the input. */
  lemma KeepsBelow(s: seq<Frag>, c: nat)
    requires AllBelow(s, c) && Expand(s, c).Ok?
    ensures var e := Expand(s, c).value;
      c <= e.counter && AllBelow(e.site, e.counter) && AllBelow(e.toplevel, e.counter)
  {
    assert Below(s[0], c) && Below(s[1], c);
    var it := s[0].items;
    assert AllBelow(it, c);
    var b := Match(s).value;
    assert Below(b.stream, c) && Below(b.path, c) && Below(b.direction, c) && Below(b.body, c);
    assert Below(Group(Paren, [b.path, Comma, b.direction]), c);
    assert Below(Group(Paren, [b.stream]), c);
    assert Below(Scoped(b), c);
  }
}
