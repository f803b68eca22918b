/**
 * util/with_allocation.c: the macro `with_allocation`, a scope that allocates a buffer,
 * runs its body only when the allocation succeeded and frees the buffer afterwards.
 */
module WithAllocation {
  import opened Tokens
  import opened Shapes

  const Name := "with_allocation"

  /** What the first case, `($(ptr-name ident), $(type), $(size)) $(body block)`, binds. */
  datatype Sized = Sized(ptr: Frag, ty: Frag, size: Frag, body: Frag)

  /** What the second case, `($(ptr-name ident), $(type)) $(body block)`, binds. */
  datatype Unsized = Unsized(ptr: Frag, ty: Frag, body: Frag)

  /** The argument fragments the first pattern describes, for a binding. */
  function SizedArgs(b: Sized): seq<Frag> {
    [Group(Paren, [b.ptr, Comma, b.ty, Comma, b.size]), b.body]
  }

  function UnsizedArgs(b: Unsized): seq<Frag> {
    [Group(Paren, [b.ptr, Comma, b.ty]), b.body]
  }

  /** The capture kinds both patterns demand: `ptr-name ident` and `body block`. */
  predicate SizedKinds(b: Sized) {
    IsIdent(b.ptr) && IsBlock(b.body)
  }

  predicate UnsizedKinds(b: Unsized) {
    IsIdent(b.ptr) && IsBlock(b.body)
  }

  function MatchSized(s: seq<Frag>): (r: Option<Sized>)
    ensures r.Some? ==> SizedKinds(r.value) && |s| >= 2 && s[..2] == SizedArgs(r.value)
  {
    if |s| >= 2 && IsList(s[0]) && |s[0].items| == 5 && s[0].items[1] == Comma && s[0].items[3] == Comma
       && IsIdent(s[0].items[0]) && IsBlock(s[1])
    then
      var it := s[0].items;
      assert it == [it[0], it[1], it[2], it[3], it[4]];
      assert s[..2] == [s[0], s[1]];
      Some(Sized(it[0], it[2], it[4], s[1]))
    else None
  }

  function MatchUnsized(s: seq<Frag>): (r: Option<Unsized>)
    ensures r.Some? ==> UnsizedKinds(r.value) && |s| >= 2 && s[..2] == UnsizedArgs(r.value)
  {
    if |s| >= 2 && IsList(s[0]) && |s[0].items| == 3 && s[0].items[1] == Comma
       && IsIdent(s[0].items[0]) && IsBlock(s[1])
    then
      var it := s[0].items;
      assert it == [it[0], it[1], it[2]];
      assert s[..2] == [s[0], s[1]];
      Some(Unsized(it[0], it[2], s[1]))
    else None
  }

  /** The first pattern accepts every well-kinded argument list it describes. */
  lemma MatchSizedComplete(b: Sized, rest: seq<Frag>)
    requires SizedKinds(b)
    ensures MatchSized(SizedArgs(b) + rest) == Some(b)
  {
    var s := SizedArgs(b) + rest;
    assert s[0] == Group(Paren, [b.ptr, Comma, b.ty, Comma, b.size]) && s[1] == b.body;
  }

  lemma MatchUnsizedComplete(b: Unsized, rest: seq<Frag>)
    requires UnsizedKinds(b)
    ensures MatchUnsized(UnsizedArgs(b) + rest) == Some(b)
  {
    var s := UnsizedArgs(b) + rest;
    assert s[0] == Group(Paren, [b.ptr, Comma, b.ty]) && s[1] == b.body;
  }

  /** The first case's template: allocate, run the body if that worked, free. */
  function Scoped(b: Sized): Frag {
    Group(Brace, [b.ty, Atom("*"), b.ptr, Equals, Atom("malloc"),
                  Group(Paren, [Atom("sizeof"), Group(Paren, [b.ty]), Atom("*"), b.size]), Semi,
                  Atom("if"), Group(Paren, [b.ptr]), b.body,
                  Atom("free"), Group(Paren, [b.ptr]), Semi])
  }

  /** The second case's template: the same macro again, with size `1`. */
  function Delegate(b: Unsized): seq<Frag> {
    [Atom(Name)] + SizedArgs(Sized(b.ptr, b.ty, Atom("1"), b.body))
  }

  /** Expands `with_allocation` followed by `s`: the first case that matches wins. */
  function Expand(s: seq<Frag>, c: nat): (r: Result<Expansion>)
    ensures r.Ok? <==> MatchSized(s).Some? || MatchUnsized(s).Some?
    ensures r.Err? ==> r.error == NoMatchingCase(Name)
    ensures r.Ok? ==> r.value.used == 2 <= |s| && r.value.toplevel == [] && r.value.counter == c
  {
    match MatchSized(s)
    case Some(b) => Ok(Expansion([Scoped(b)], [], 2, c))
    case None =>
      match MatchUnsized(s)
      case Some(b) => Ok(Expansion(Delegate(b), [], 2, c))
      case None => Err(NoMatchingCase(Name))
  }

  /** A three-argument call expands, in one step, to the allocation scope. */
  lemma SizedCall(b: Sized, rest: seq<Frag>, c: nat)
    requires SizedKinds(b)
    ensures Expand(SizedArgs(b) + rest, c) == Ok(Expansion([Scoped(b)], [], 2, c))
  {
    MatchSizedComplete(b, rest);
  }

  /**
   * A two-argument call expands to a three-argument call with size `1`, which expands
   * exactly as writing that three-argument call directly would.
   */
  lemma UnsizedCallDelegates(b: Unsized, rest: seq<Frag>, c: nat)
    requires UnsizedKinds(b)
    ensures var e := Expand(UnsizedArgs(b) + rest, c);
      && e.Ok? && e.value.site == Delegate(b) && e.value.site[0] == Atom(Name)
      && Expand(e.value.site[1..], c) == Expand(SizedArgs(Sized(b.ptr, b.ty, Atom("1"), b.body)), c)
      && Expand(e.value.site[1..], c) == Ok(Expansion([Scoped(Sized(b.ptr, b.ty, Atom("1"), b.body))], [], 2, c))
  {
    var s := UnsizedArgs(b) + rest;
    MatchUnsizedComplete(b, rest);
    assert MatchSized(s).None? by {
      assert |s[0].items| == 3;
    }
    var sb := Sized(b.ptr, b.ty, Atom("1"), b.body);
    assert Delegate(b)[1..] == SizedArgs(sb) + [];
    SizedCall(sb, [], c);
  }

  /** The two cases are told apart by the number of arguments: never both match. */
  lemma CasesDisjoint(s: seq<Frag>)
    ensures MatchSized(s).Some? ==> MatchUnsized(s).None?
    ensures MatchUnsized(s).Some? ==> MatchSized(s).None?
  {
  }

  /** A pointer name that is not an identifier, or a body that is not a block, matches neither case. */
  lemma KindsRequired(s: seq<Frag>, c: nat)
    requires |s| >= 2 && IsList(s[0]) && |s[0].items| >= 1
    requires !IsIdent(s[0].items[0]) || !IsBlock(s[1])
    ensures Expand(s, c) == Err(NoMatchingCase(Name))
  {
  }

  /**
   * Read as C, the first case's output declares `type* ptr = malloc(sizeof(type) * size)`,
   * guards the body with `if(ptr)` and then frees the very name it declared and tested.
   */
  lemma ScopeShape(b: Sized)
    ensures var sc := ReadScope(Scoped(b));
      && sc.Some?
      && sc.value.guard == b.ptr && sc.value.guarded == b.body
      && sc.value.release == Atom("free") && sc.value.released == b.ptr
      && ReadPointerDecl(sc.value.decl) == Some(PointerDecl(b.ty, b.ptr,
           [Atom("malloc"), Group(Paren, [Atom("sizeof"), Group(Paren, [b.ty]), Atom("*"), b.size])]))
  {
    var items := Scoped(b).items;
    assert items[..6] == [b.ty, Atom("*"), b.ptr, Equals, Atom("malloc"),
                          Group(Paren, [Atom("sizeof"), Group(Paren, [b.ty]), Atom("*"), b.size])];
  }

  /**
   * The body is placed once, as the guarded statement; any further copies can only come
   * from the type (written twice) or the size argument containing it.
   */
  lemma BodyOnce(b: Sized)
    requires SizedKinds(b)
    ensures OccurrencesIn(b.body, [Scoped(b)])
         == 1 + 2 * Occurrences(b.body, b.ty) + Occurrences(b.body, b.size)
  {
    var x := b.body;
    var ot, os := Occurrences(x, b.ty), Occurrences(x, b.size);
    var ty := Group(Paren, [b.ty]);
    var call := Group(Paren, [Atom("sizeof"), ty, Atom("*"), b.size]);
    var ptr := Group(Paren, [b.ptr]);
    var decl1 := [b.ty, Atom("*"), b.ptr];
    var decl2 := [Equals, Atom("malloc"), call, Semi];
    var guard := [Atom("if"), ptr, b.body];
    var release := [Atom("free"), ptr, Semi];
    assert Occurrences(x, b.ptr) == 0;
    assert Occurrences(x, ty) == ot by { OccurrencesInSingle(x, b.ty); }
    assert Occurrences(x, ptr) == 0 by { OccurrencesInSingle(x, b.ptr); }
    assert Occurrences(x, call) == ot + os by { OccurrencesIn4(x, Atom("sizeof"), ty, Atom("*"), b.size); }
    assert OccurrencesIn(x, decl1) == ot by { OccurrencesIn3(x, b.ty, Atom("*"), b.ptr); }
    assert OccurrencesIn(x, decl2) == ot + os by { OccurrencesIn4(x, Equals, Atom("malloc"), call, Semi); }
    assert OccurrencesIn(x, guard) == 1 by {
      OccurrencesIn3(x, Atom("if"), ptr, b.body);
      OccursOnceInItself(x);
    }
    assert OccurrencesIn(x, release) == 0 by { OccurrencesIn3(x, Atom("free"), ptr, Semi); }
    var items := Scoped(b).items;
    assert OccurrencesIn(x, items) == 1 + 2 * ot + os by {
      assert items == decl1 + decl2 + guard + release;
      OccurrencesInAppend(x, decl1 + decl2 + guard, release);
      OccurrencesInAppend(x, decl1 + decl2, guard);
      OccurrencesInAppend(x, decl1, decl2);
    }
    NotInsideMember(x, Brace, items, 9);
    OccurrencesInSingle(x, Scoped(b));
  }

  /** No generated symbol appears in the output that was not in the input. */
  lemma KeepsBelow(s: seq<Frag>, c: nat)
    requires AllBelow(s, c) && Expand(s, c).Ok?
    ensures var e := Expand(s, c).value;
      c <= e.counter && AllBelow(e.site, e.counter) && AllBelow(e.toplevel, e.counter)
  {
    assert Below(s[0], c) && Below(s[1], c);
    var it := s[0].items;
    assert AllBelow(it, c);
    if MatchSized(s).Some? {
      var b := MatchSized(s).value;
      assert Below(b.ptr, c) && Below(b.ty, c) && Below(b.size, c) && Below(b.body, c);
      assert Below(Group(Paren, [b.ty]), c);
      assert Below(Group(Paren, [Atom("sizeof"), Group(Paren, [b.ty]), Atom("*"), b.size]), c);
      assert Below(Group(Paren, [b.ptr]), c);
      assert Below(Scoped(b), c);
    } else {
      var b := MatchUnsized(s).value;
      assert Below(b.ptr, c) && Below(b.ty, c) && Below(b.body, c);
      assert Below(Group(Paren, [b.ptr, Comma, b.ty, Comma, Atom("1")]), c);
    }
  }
}
