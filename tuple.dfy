/** type/tuple.c: the macro `tup`, an anonymous struct with the fields `first` and `second`. */
module Tuple {
  import opened Tokens
  import opened Shapes

  const Name := "tup"

  const First := Atom("first")
  const Second := Atom("second")
  const Struct := Atom("struct")

  /** What the pattern `($(a), $(b))` binds. */
  datatype Binding = Binding(a: Frag, b: Frag)

  function Args(b: Binding): seq<Frag> {
    [Group(Paren, [b.a, Comma, b.b])]
  }

  function Match(s: seq<Frag>): (r: Option<Binding>)
    ensures r.Some? ==> |s| >= 1 && s[..1] == Args(r.value)
  {
    if |s| >= 1 && IsList(s[0]) && |s[0].items| == 3 && s[0].items[1] == Comma then
      var it := s[0].items;
      assert it == [it[0], it[1], it[2]];
      Some(Binding(it[0], it[2]))
    else None
  }

  lemma MatchComplete(b: Binding, rest: seq<Frag>)
    ensures Match(Args(b) + rest) == Some(b)
  {
    assert (Args(b) + rest)[0] == Group(Paren, [b.a, Comma, b.b]);
  }

  /** The body of the template's struct: `a first; b second;`. */
  function Fields(b: Binding): seq<Frag> {
    [b.a, First, Semi, b.b, Second, Semi]
  }

  /** Expands `tup` followed by `s` to `struct { a first; b second; }`. */
  function Expand(s: seq<Frag>, c: nat): (r: Result<Expansion>)
    ensures r.Ok? <==> Match(s).Some?
    ensures r.Err? ==> r.error == NoMatchingCase(Name)
    ensures r.Ok? ==> r.value.used == 1 <= |s| && r.value.toplevel == [] && r.value.counter == c
  {
    match Match(s)
    case Some(b) => Ok(Expansion([Struct, Group(Brace, Fields(b))], [], 1, c))
    case None => Err(NoMatchingCase(Name))
  }

  /**
   * The output is one anonymous struct (no name between `struct` and its body) whose
   * members are, in this order, `a first` and `b second`, so that the field `first` has
   * type `a` and the field `second` type `b`.
   */
  lemma StructShape(b: Binding, rest: seq<Frag>, c: nat)
    requires b.a != Semi && b.b != Semi
    ensures var e := Expand(Args(b) + rest, c);
      && e.Ok? && |e.value.site| == 2 && e.value.site[0] == Struct && IsBlock(e.value.site[1])
      && Statements(e.value.site[1].items) == [[b.a, First], [b.b, Second], []]
      && FieldType(e.value.site[1].items, First) == Some([b.a])
      && FieldType(e.value.site[1].items, Second) == Some([b.b])
  {
    MatchComplete(b, rest);
    FieldsStatements(b);
    var ds := [[b.a, First], [b.b, Second], []];
    assert ds[1..] == [[b.b, Second], []];
    assert [b.a, First][..1] == [b.a];
    assert [b.b, Second][..1] == [b.b];
    assert FindField(ds[1..], Second) == Some([b.b]);
  }

  /** The struct body reads as the statements `a first` and `b second`. */
  lemma FieldsStatements(b: Binding)
    requires b.a != Semi && b.b != Semi
    ensures Statements(Fields(b)) == [[b.a, First], [b.b, Second], []]
  {
    assert Fields(b) == [b.a, First] + [Semi] + ([b.b, Second] + [Semi] + []);
    SplitAfter([b.a, First], Semi, [b.b, Second] + [Semi] + []);
    SplitAfter([b.b, Second], Semi, []);
  }

  /**
   * Exactly two arguments: when no argument is empty, the call matches if and only if the
   * parenthesised group splits at its commas into two pieces of one fragment each.
   */
  lemma TwoArguments(s: seq<Frag>, c: nat)
    requires |s| >= 1 && IsList(s[0])
    requires var p := SplitAt(s[0].items, Comma); forall i | 0 <= i < |p| :: p[i] != []
    ensures var p := SplitAt(s[0].items, Comma);
      Expand(s, c).Ok? <==> |p| == 2 && |p[0]| == 1 && |p[1]| == 1
  {
    var it := s[0].items;
    var p := SplitAt(it, Comma);
    if Match(s).Some? {
      assert it == [it[0]] + [Comma] + [it[2]];
      assert it[0] != Comma;
      SplitAfter([it[0]], Comma, [it[2]]);
      assert p[1] == SplitAt([it[2]], Comma)[0];
      assert it[2] != Comma;
      SplitWithout([it[2]], Comma);
    }
    if |p| == 2 && |p[0]| == 1 && |p[1]| == 1 {
      SplitJoin(it, Comma);
      assert p[1..] == [p[1]];
      assert it == p[0] + [Comma] + p[1];
    }
  }

  /** Each argument is placed once, plus however often it occurs inside the other one. */
  lemma EachOnce(b: Binding)
    requires b.a !in [First, Second, Semi] && b.b !in [First, Second, Semi]
    ensures OccurrencesIn(b.a, Fields(b)) == 1 + Occurrences(b.a, b.b)
    ensures OccurrencesIn(b.b, Fields(b)) == 1 + Occurrences(b.b, b.a)
  {
    var f := Fields(b);
    assert f == [b.a, First, Semi] + [b.b, Second, Semi];
    OccurrencesInAppend(b.a, [b.a, First, Semi], [b.b, Second, Semi]);
    OccurrencesInAppend(b.b, [b.a, First, Semi], [b.b, Second, Semi]);
    OccurrencesIn3(b.a, b.a, First, Semi);
    OccurrencesIn3(b.a, b.b, Second, Semi);
    OccurrencesIn3(b.b, b.a, First, Semi);
    OccurrencesIn3(b.b, b.b, Second, Semi);
    OccursOnceInItself(b.a);
    OccursOnceInItself(b.b);
  }

  /** No generated name: the output depends on the two arguments only, not on the counter. */
  lemma Determined(s1: seq<Frag>, s2: seq<Frag>, c1: nat, c2: nat)
    requires Match(s1).Some? && Match(s1) == Match(s2)
    ensures Expand(s1, c1).value.site == Expand(s2, c2).value.site
  {
  }

  lemma KeepsBelow(s: seq<Frag>, c: nat)
    requires AllBelow(s, c) && Expand(s, c).Ok?
    ensures var e := Expand(s, c).value;
      c <= e.counter && AllBelow(e.site, e.counter) && AllBelow(e.toplevel, e.counter)
  {
    assert Below(s[0], c);
    assert AllBelow(s[0].items, c);
    var b := Match(s).value;
    assert Below(b.a, c) && Below(b.b, c);
    assert Below(Group(Brace, Fields(b)), c);
  }
}
