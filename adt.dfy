/**
 * type/adt.c: algebraic data types. `data` declares an enum of tags and a tagged union;
 * `recur_name` and `recur_def` walk the list of definitions one at a time to produce the
 * tags and the union members; `construct` sets a value's tag and member.
 */
module Adt {
  import opened Tokens
  import opened Shapes

  const RecurName := "recur_name"
  const RecurDef := "recur_def"
  const DataName := "data"
  const ConstructName := "construct"

  const StructKw := Atom("struct")
  const TypedefKw := Atom("typedef")
  const EnumKw := Atom("enum")
  const UnionKw := Atom("union")
  const TypeField := Atom("type")
  const Dot := Atom(".")

  // ---------------------------------------------------------------------------------
  // The definitions list, as the lemmas describe it

  /** One definition `name { body };` inside `data`. */
  datatype Def = Def(name: string, body: seq<Frag>)

  function DefTokens(ds: seq<Def>): (r: seq<Frag>)
    ensures |r| == 3 * |ds|
  {
    if ds == [] then [] else [Atom(ds[0].name), Group(Brace, ds[0].body), Semi] + DefTokens(ds[1..])
  }

  lemma DefTokensCons(d: Def, ds: seq<Def>)
    ensures DefTokens([d] + ds) == [Atom(d.name), Group(Brace, d.body), Semi] + DefTokens(ds)
  {
    assert ([d] + ds)[0] == d && ([d] + ds)[1..] == ds;
  }

  /** The enum's tags: `T` pasted to each definition's name, each followed by a comma. */
  function Tags(t: string, ds: seq<Def>): (r: seq<Frag>)
    ensures |r| == 2 * |ds|
  {
    if ds == [] then [] else [Atom(t + ds[0].name), Comma] + Tags(t, ds[1..])
  }

  /** The union member a definition becomes: `struct N { body } N`. */
  function MemberDecl(d: Def): seq<Frag> {
    [StructKw, Atom(d.name), Group(Brace, d.body), Atom(d.name)]
  }

  /** The union's members, each closed by `;`. */
  function Members(ds: seq<Def>): seq<Frag> {
    if ds == [] then [] else MemberDecl(ds[0]) + [Semi] + Members(ds[1..])
  }

  /** The i-th tag is `T` pasted to the i-th definition's name: exactly one tag per definition, in order. */
  lemma {:induction false} TagsAt(t: string, ds: seq<Def>, i: nat)
    requires i < |ds|
    ensures Tags(t, ds)[2 * i] == Atom(t + ds[i].name) && Tags(t, ds)[2 * i + 1] == Comma
  {
    if i > 0 {
      TagsAt(t, ds[1..], i - 1);
    }
  }

  predicate NamesAreIdents(ds: seq<Def>) {
    forall i | 0 <= i < |ds| :: IsIdentText(ds[i].name)
  }

  /** An identifier is never the `;` that closes a statement. */
  lemma IdentNotSemi(n: string)
    requires IsIdentText(n)
    ensures Atom(n) != Semi && Atom(n) != Equals
  {
    assert n[0] != ';' && n[0] != '=';
  }

  /** Read as C, the union holds one member declaration per definition, in order. */
  lemma {:induction false} MembersStatements(ds: seq<Def>)
    requires NamesAreIdents(ds)
    ensures var st := Statements(Members(ds));
      && |st| == |ds| + 1 && st[|ds|] == []
      && forall i | 0 <= i < |ds| :: st[i] == MemberDecl(ds[i])
  {
    if ds != [] {
      IdentNotSemi(ds[0].name);
      assert NamesAreIdents(ds[1..]) by {
        forall i | 0 <= i < |ds| - 1 ensures IsIdentText(ds[1..][i].name) {
          assert ds[1..][i] == ds[i + 1];
        }
      }
      MembersStatements(ds[1..]);
      SplitAfter(MemberDecl(ds[0]), Semi, Members(ds[1..]));
      var st := Statements(Members(ds));
      forall i | 0 <= i < |ds| ensures st[i] == MemberDecl(ds[i]) {
        if i > 0 {
          assert ds[i] == ds[1..][i - 1];
        }
      }
    }
  }

  /** `FindField` returns the first declaration whose last token is the field. */
  lemma {:induction false} FindFieldAt(decls: seq<seq<Frag>>, field: Frag, i: nat)
    requires i < |decls| && |decls[i]| >= 2 && decls[i][|decls[i]| - 1] == field
    requires forall j | 0 <= j < i :: |decls[j]| < 2 || decls[j][|decls[j]| - 1] != field
    ensures FindField(decls, field) == Some(decls[i][..|decls[i]| - 1])
  {
    if i > 0 {
      forall j | 0 <= j < i - 1 ensures |decls[1..][j]| < 2 || decls[1..][j][|decls[1..][j]| - 1] != field {
        assert decls[1..][j] == decls[j + 1];
      }
      FindFieldAt(decls[1..], field, i - 1);
    }
  }

  /**
   * The member named after the i-th definition, when no earlier definition has that name,
   * has the type `struct N { body }`, so `N` names both the member and its struct.
   */
  lemma {:induction false} MemberTypeAt(ds: seq<Def>, i: nat)
    requires NamesAreIdents(ds) && i < |ds|
    requires forall j | 0 <= j < i :: ds[j].name != ds[i].name
    ensures FieldType(Members(ds), Atom(ds[i].name)) == Some([StructKw, Atom(ds[i].name), Group(Brace, ds[i].body)])
  {
    MembersStatements(ds);
    var st := Statements(Members(ds));
    forall j | 0 <= j < i ensures |st[j]| < 2 || st[j][|st[j]| - 1] != Atom(ds[i].name) {
      assert st[j] == MemberDecl(ds[j]);
    }
    FindFieldAt(st, Atom(ds[i].name), i);
    assert MemberDecl(ds[i])[..3] == [StructKw, Atom(ds[i].name), Group(Brace, ds[i].body)];
  }

  // ---------------------------------------------------------------------------------
  // recur_name

  /** What `($(type-name) $(name) $(def block); $(others rest))` binds; the first case is `others == []`. */
  datatype NameHead = NameHead(ty: Frag, name: Frag, def: Frag, others: seq<Frag>)

  function NameArgs(b: NameHead): seq<Frag> {
    [Group(Paren, [b.ty, b.name, b.def, Semi] + b.others)]
  }

  /** The first case: `($(type-name) $(name) $(def block);)`. */
  function MatchNameOne(s: seq<Frag>): (r: Option<NameHead>)
    ensures r.Some? ==> IsBlock(r.value.def) && r.value.others == [] && |s| >= 1 && s[..1] == NameArgs(r.value)
  {
    if |s| >= 1 && IsList(s[0]) && |s[0].items| == 4 && IsBlock(s[0].items[2]) && s[0].items[3] == Semi then
      var it := s[0].items;
      assert it == [it[0], it[1], it[2], Semi] + [];
      Some(NameHead(it[0], it[1], it[2], []))
    else None
  }

  /** The second case: the same head followed by any remaining items. */
  function MatchNameMore(s: seq<Frag>): (r: Option<NameHead>)
    ensures r.Some? ==> IsBlock(r.value.def) && |s| >= 1 && s[..1] == NameArgs(r.value)
  {
    if |s| >= 1 && IsList(s[0]) && |s[0].items| >= 4 && IsBlock(s[0].items[2]) && s[0].items[3] == Semi then
      var it := s[0].items;
      assert it == [it[0], it[1], it[2], Semi] + it[4..];
      Some(NameHead(it[0], it[1], it[2], it[4..]))
    else None
  }

  lemma MatchNameComplete(b: NameHead, rest: seq<Frag>)
    requires IsBlock(b.def)
    ensures MatchNameMore(NameArgs(b) + rest) == Some(b)
    ensures MatchNameOne(NameArgs(b) + rest) == if b.others == [] then Some(b) else None
  {
    var g := (NameArgs(b) + rest)[0];
    assert g.items == [b.ty, b.name, b.def, Semi] + b.others;
    assert g.items[4..] == b.others;
  }

  /** The second case's template: the first definition alone, then the type with the others. */
  function NameSplit(b: NameHead): seq<Frag> {
    [Atom(RecurName), Group(Paren, [b.ty, b.name, b.def, Semi]), Atom(RecurName), Group(Paren, [b.ty] + b.others)]
  }

  /**
   * Expands `recur_name` followed by `s`. A single definition belongs to the first case,
   * although the second would match it too; the first case's `@conc` needs two atoms.
   */
  function NameExpand(s: seq<Frag>, c: nat): (r: Result<Expansion>)
    ensures MatchNameMore(s).None? ==> r == Err(NoMatchingCase(RecurName))
    ensures MatchNameMore(s).Some? && MatchNameMore(s).value.others == [] ==>
      var b := MatchNameMore(s).value;
      && (r.Ok? <==> b.ty.Atom? && b.name.Atom?)
      && (r.Err? ==> r.error == BadConcatenation(RecurName))
    ensures MatchNameMore(s).Some? && MatchNameMore(s).value.others != [] ==> r.Ok?
    ensures r.Ok? ==> r.value.used == 1 <= |s| && r.value.toplevel == [] && r.value.counter == c
  {
    match MatchNameOne(s)
    case Some(b) =>
      (match Conc(b.ty, b.name)
       case Some(tag) => Ok(Expansion([tag, Comma], [], 1, c))
       case None => Err(BadConcatenation(RecurName)))
    case None =>
      match MatchNameMore(s)
      case Some(b) => Ok(Expansion(NameSplit(b), [], 1, c))
      case None => Err(NoMatchingCase(RecurName))
  }

  /** The argument group `(T d1 ... dk)` of a `recur_name` call over a definitions list. */
  function NameGroup(t: string, ds: seq<Def>): Frag {
    Group(Paren, [Atom(t)] + DefTokens(ds))
  }

  /** One definition: the first case, which yields that definition's tag followed by a comma. */
  lemma NameLast(t: string, d: Def, rest: seq<Frag>, c: nat)
    ensures MatchNameMore([NameGroup(t, [d])] + rest).Some?
    ensures NameExpand([NameGroup(t, [d])] + rest, c) == Ok(Expansion(Tags(t, [d]), [], 1, c))
  {
    DefTokensCons(d, []);
    var b := NameHead(Atom(t), Atom(d.name), Group(Brace, d.body), []);
    assert [Atom(t)] + DefTokens([d]) == [Atom(t), Atom(d.name), Group(Brace, d.body), Semi] + [];
    assert [NameGroup(t, [d])] + rest == NameArgs(b) + rest;
    MatchNameComplete(b, rest);
    assert [d][1..] == [];
    assert Tags(t, [d]) == [Atom(t + d.name), Comma];
  }

  /** More definitions: the second case splits off the first one. */
  lemma NameStep(t: string, d: Def, ds: seq<Def>, rest: seq<Frag>, c: nat)
    requires ds != []
    ensures NameExpand([NameGroup(t, [d] + ds)] + rest, c)
         == Ok(Expansion([Atom(RecurName), NameGroup(t, [d]), Atom(RecurName), NameGroup(t, ds)], [], 1, c))
  {
    DefTokensCons(d, ds);
    DefTokensCons(d, []);
    var b := NameHead(Atom(t), Atom(d.name), Group(Brace, d.body), DefTokens(ds));
    assert [Atom(t)] + DefTokens([d] + ds) == [Atom(t), Atom(d.name), Group(Brace, d.body), Semi] + DefTokens(ds);
    assert [NameGroup(t, [d] + ds)] + rest == NameArgs(b) + rest;
    MatchNameComplete(b, rest);
    assert [Atom(t)] + DefTokens([d]) == [Atom(t), Atom(d.name), Group(Brace, d.body), Semi];
    assert NameSplit(b) == [Atom(RecurName), NameGroup(t, [d]), Atom(RecurName), NameGroup(t, ds)];
  }

  /** Both calls the second case leaves behind have argument groups strictly smaller than its own. */
  lemma NameShrinks(s: seq<Frag>, c: nat)
    requires MatchNameOne(s).None? && MatchNameMore(s).Some?
    ensures var o := NameExpand(s, c).value.site;
      |o| == 4 && o[0] == o[2] == Atom(RecurName) && Size(o[1]) < Size(s[0]) && Size(o[3]) < Size(s[0])
  {
    var b := MatchNameMore(s).value;
    var head := [b.ty, b.name, b.def, Semi];
    assert s[0] == NameArgs(b)[0];
    SizeInAppend(head, b.others);
    SizeInAppend([b.ty], b.others);
    assert head == [b.ty] + [b.name, b.def, Semi];
    SizeInAppend([b.ty], [b.name, b.def, Semi]);
    assert b.others != [];
    assert SizeIn(b.others) >= 1;
  }

  // ---------------------------------------------------------------------------------
  // recur_def

  /** What `($(name) $(def block); $(others rest))` binds; the first case is `others == []`. */
  datatype DefHead = DefHead(name: Frag, def: Frag, others: seq<Frag>)

  function DefArgs(b: DefHead): seq<Frag> {
    [Group(Paren, [b.name, b.def, Semi] + b.others)]
  }

  /** The first case: `($(name) $(def block);)`. */
  function MatchDefOne(s: seq<Frag>): (r: Option<DefHead>)
    ensures r.Some? ==> IsBlock(r.value.def) && r.value.others == [] && |s| >= 1 && s[..1] == DefArgs(r.value)
  {
    if |s| >= 1 && IsList(s[0]) && |s[0].items| == 3 && IsBlock(s[0].items[1]) && s[0].items[2] == Semi then
      var it := s[0].items;
      assert it == [it[0], it[1], Semi] + [];
      Some(DefHead(it[0], it[1], []))
    else None
  }

  /** The second case: the same head followed by any remaining items. */
  function MatchDefMore(s: seq<Frag>): (r: Option<DefHead>)
    ensures r.Some? ==> IsBlock(r.value.def) && |s| >= 1 && s[..1] == DefArgs(r.value)
  {
    if |s| >= 1 && IsList(s[0]) && |s[0].items| >= 3 && IsBlock(s[0].items[1]) && s[0].items[2] == Semi then
      var it := s[0].items;
      assert it == [it[0], it[1], Semi] + it[3..];
      Some(DefHead(it[0], it[1], it[3..]))
    else None
  }

  lemma MatchDefComplete(b: DefHead, rest: seq<Frag>)
    requires IsBlock(b.def)
    ensures MatchDefMore(DefArgs(b) + rest) == Some(b)
    ensures MatchDefOne(DefArgs(b) + rest) == if b.others == [] then Some(b) else None
  {
    var g := (DefArgs(b) + rest)[0];
    assert g.items == [b.name, b.def, Semi] + b.others;
    assert g.items[3..] == b.others;
  }

  /** The second case's template. */
  function DefSplit(b: DefHead): seq<Frag> {
    [Atom(RecurDef), Group(Paren, [b.name, b.def, Semi]), Atom(RecurDef), Group(Paren, b.others)]
  }

  /** Expands `recur_def` followed by `s`; a single definition belongs to the first case. */
  function DefExpand(s: seq<Frag>, c: nat): (r: Result<Expansion>)
    ensures r.Ok? <==> MatchDefMore(s).Some?
    ensures r.Err? ==> r.error == NoMatchingCase(RecurDef)
    ensures r.Ok? ==> r.value.used == 1 <= |s| && r.value.toplevel == [] && r.value.counter == c
    ensures r.Ok? && MatchDefMore(s).value.others == [] && MatchDefMore(s).value.name != Semi ==>
      var b := MatchDefMore(s).value;
      Statements(r.value.site) == [[StructKw, b.name, b.def, b.name], []]
  {
    match MatchDefOne(s)
    case Some(b) =>
      var o := [StructKw, b.name, b.def, b.name, Semi];
      assert o == [StructKw, b.name, b.def, b.name] + [Semi] + [];
      assert b.name != Semi ==> SplitAt(o, Semi) == [[StructKw, b.name, b.def, b.name]] + SplitAt([], Semi) by {
        if b.name != Semi {
          SplitAfter([StructKw, b.name, b.def, b.name], Semi, []);
        }
      }
      Ok(Expansion(o, [], 1, c))
    case None =>
      match MatchDefMore(s)
      case Some(b) => Ok(Expansion(DefSplit(b), [], 1, c))
      case None => Err(NoMatchingCase(RecurDef))
  }

  /** The argument group `(d1 ... dk)` of a `recur_def` call over a definitions list. */
  function DefGroup(ds: seq<Def>): Frag {
    Group(Paren, DefTokens(ds))
  }

  /** One definition: the first case, which yields that definition's member. */
  lemma DefLast(d: Def, rest: seq<Frag>, c: nat)
    ensures MatchDefMore([DefGroup([d])] + rest).Some?
    ensures DefExpand([DefGroup([d])] + rest, c) == Ok(Expansion(Members([d]), [], 1, c))
  {
    DefTokensCons(d, []);
    var b := DefHead(Atom(d.name), Group(Brace, d.body), []);
    assert DefTokens([d]) == [Atom(d.name), Group(Brace, d.body), Semi] + [];
    assert [DefGroup([d])] + rest == DefArgs(b) + rest;
    MatchDefComplete(b, rest);
    assert [d][1..] == [];
    assert Members([d]) == [StructKw, Atom(d.name), Group(Brace, d.body), Atom(d.name), Semi];
  }

  /** More definitions: the second case splits off the first one. */
  lemma DefStep(d: Def, ds: seq<Def>, rest: seq<Frag>, c: nat)
    requires ds != []
    ensures DefExpand([DefGroup([d] + ds)] + rest, c)
         == Ok(Expansion([Atom(RecurDef), DefGroup([d]), Atom(RecurDef), DefGroup(ds)], [], 1, c))
  {
    DefTokensCons(d, ds);
    DefTokensCons(d, []);
    var b := DefHead(Atom(d.name), Group(Brace, d.body), DefTokens(ds));
    assert [DefGroup([d] + ds)] + rest == DefArgs(b) + rest;
    MatchDefComplete(b, rest);
    assert DefTokens([d]) == [Atom(d.name), Group(Brace, d.body), Semi];
    assert DefSplit(b) == [Atom(RecurDef), DefGroup([d]), Atom(RecurDef), DefGroup(ds)];
  }

  /** Both calls the second case leaves behind have argument groups strictly smaller than its own. */
  lemma DefShrinks(s: seq<Frag>, c: nat)
    requires MatchDefOne(s).None? && MatchDefMore(s).Some?
    ensures var o := DefExpand(s, c).value.site;
      |o| == 4 && o[0] == o[2] == Atom(RecurDef) && Size(o[1]) < Size(s[0]) && Size(o[3]) < Size(s[0])
  {
    var b := MatchDefMore(s).value;
    var head := [b.name, b.def, Semi];
    assert s[0] == DefArgs(b)[0];
    SizeInAppend(head, b.others);
    assert b.others != [];
    assert SizeIn(b.others) >= 1;
    assert SizeIn(head) >= 1;
  }

  // ---------------------------------------------------------------------------------
  // data

  /** The `toplevel` output of `data`: an enum of tags named `g`, and the tagged union. */
  function DataDecls(name: Frag, defs: seq<Frag>, g: Frag): seq<Frag> {
    [TypedefKw, EnumKw, Group(Brace, [Atom(RecurName), Group(Paren, [name] + defs)]), g, Semi,
     TypedefKw, StructKw, UnionBody(defs, g), name, Semi]
  }

  /** `{ g type; union { recur_def (defs) }; }` */
  function UnionBody(defs: seq<Frag>, g: Frag): Frag {
    Group(Brace, [g, TypeField, Semi, UnionKw, Group(Brace, [Atom(RecurDef), Group(Paren, defs)]), Semi])
  }

  /**
   * Expands `data` followed by `s`. The template is empty, so in nested context the
   * invocation expands to nothing; the declarations are the `toplevel` output.
   */
  function DataExpand(s: seq<Frag>, c: nat): (r: Result<Expansion>)
    ensures r.Ok? <==> |s| >= 2 && IsBlock(s[1])
    ensures r.Err? ==> r.error == NoMatchingCase(DataName)
    ensures r.Ok? ==> r.value.used == 2 && r.value.site == [] && r.value.counter == c + 1
  {
    if |s| >= 2 && IsBlock(s[1]) then
      // `@gensym data` makes `g`, and `@getsym data` in the same case names it again.
      var g := Gensym(DataName, c);
      Ok(Expansion([], DataDecls(s[0], s[1].items, g), 2, c + 1))
    else Err(NoMatchingCase(DataName))
  }

  /**
   * Read as C, the declarations are two typedefs: an enum named by the fresh symbol, whose
   * body is the `recur_name` call over the definitions, and a struct named as the data type
   * whose `type` field has exactly that enum as its type.
   */
  lemma DataShape(s: seq<Frag>, c: nat)
    requires |s| >= 2 && IsBlock(s[1]) && s[0] != Semi
    ensures var st := Statements(DataExpand(s, c).value.toplevel);
      && |st| == 3 && st[2] == []
      && ReadTypedef(st[0]) == Some(Typedef(EnumKw, [Atom(RecurName), Group(Paren, [s[0]] + s[1].items)], Gensym(DataName, c)))
      && ReadTypedef(st[1]).Some?
      && var u := ReadTypedef(st[1]).value;
      && u.kind == StructKw && u.name == s[0]
      && FieldType(u.body, TypeField) == Some([ReadTypedef(st[0]).value.name])
  {
    var g := Gensym(DataName, c);
    var defs := s[1].items;
    var e := [TypedefKw, EnumKw, Group(Brace, [Atom(RecurName), Group(Paren, [s[0]] + defs)]), g];
    var t := [TypedefKw, StructKw, UnionBody(defs, g), s[0]];
    assert DataDecls(s[0], defs, g) == e + [Semi] + (t + [Semi] + []);
    SplitAfter(e, Semi, t + [Semi] + []);
    SplitAfter(t, Semi, []);
    var body := UnionBody(defs, g).items;
    assert body == [g, TypeField] + [Semi] + ([UnionKw, Group(Brace, [Atom(RecurDef), Group(Paren, defs)])] + [Semi] + []);
    SplitAfter([g, TypeField], Semi, [UnionKw, Group(Brace, [Atom(RecurDef), Group(Paren, defs)])] + [Semi] + []);
    assert [g, TypeField][..1] == [g];
  }

  // ---------------------------------------------------------------------------------
  // construct

  /** What `($(name), $(type) -> $(subtype)) $(assignments);` binds. */
  datatype Construction = Construction(name: Frag, ty: Frag, sub: Frag, assignments: Frag)

  function ConstructArgs(b: Construction): seq<Frag> {
    [Group(Paren, [b.name, Comma, b.ty, Arrow, b.sub]), b.assignments, Semi]
  }

  function MatchConstruct(s: seq<Frag>): (r: Option<Construction>)
    ensures r.Some? ==> |s| >= 3 && s[..3] == ConstructArgs(r.value)
  {
    if |s| >= 3 && IsList(s[0]) && |s[0].items| == 5 && s[0].items[1] == Comma && s[0].items[3] == Arrow
       && s[2] == Semi
    then
      var it := s[0].items;
      assert it == [it[0], Comma, it[2], Arrow, it[4]];
      assert s[..3] == [s[0], s[1], s[2]];
      Some(Construction(it[0], it[2], it[4], s[1]))
    else None
  }

  lemma MatchConstructComplete(b: Construction, rest: seq<Frag>)
    ensures MatchConstruct(ConstructArgs(b) + rest) == Some(b)
  {
    var s := ConstructArgs(b) + rest;
    assert s[0] == Group(Paren, [b.name, Comma, b.ty, Arrow, b.sub]) && s[1] == b.assignments && s[2] == Semi;
  }

  /** The template once the tag is known: set `name.type` to the tag, then the member `name.subtype`. */
  function Assignments(b: Construction, tag: Frag): seq<Frag> {
    [b.name, Dot, TypeField, Equals, tag, Semi,
     b.name, Dot, b.sub, Equals, Group(Paren, [StructKw, b.sub]), b.assignments, Semi]
  }

  /** Expands `construct` followed by `s`; the tag is `@conc type subtype`. */
  function ConstructExpand(s: seq<Frag>, c: nat): (r: Result<Expansion>)
    ensures MatchConstruct(s).None? ==> r == Err(NoMatchingCase(ConstructName))
    ensures MatchConstruct(s).Some? ==>
      var b := MatchConstruct(s).value;
      && (r.Ok? <==> b.ty.Atom? && b.sub.Atom?)
      && (r.Err? ==> r.error == BadConcatenation(ConstructName))
    ensures r.Ok? ==> r.value.used == 3 <= |s| && r.value.toplevel == [] && r.value.counter == c
  {
    match MatchConstruct(s)
    case Some(b) =>
      (match Conc(b.ty, b.sub)
       case Some(tag) => Ok(Expansion(Assignments(b, tag), [], 3, c))
       case None => Err(BadConcatenation(ConstructName)))
    case None => Err(NoMatchingCase(ConstructName))
  }

  /**
   * Read as C, the output is exactly two assignments: `name.type` receives the tag
   * `type` ++ `subtype`, and `name.subtype` receives the initialiser cast to
   * `struct subtype`. Nothing else is assigned.
   */
  lemma ConstructAssigns(b: Construction, rest: seq<Frag>, c: nat)
    requires b.ty.Atom? && IsIdentText(b.ty.text) && b.sub.Atom? && IsIdentText(b.sub.text)
    requires b.name !in [Semi, Equals] && b.assignments !in [Semi, Equals]
    ensures var st := Statements(ConstructExpand(ConstructArgs(b) + rest, c).value.site);
      && |st| == 3 && st[2] == []
      && ReadAssign(st[0]) == Some(Assign([b.name, Dot, TypeField], [Atom(b.ty.text + b.sub.text)]))
      && ReadAssign(st[1]) == Some(Assign([b.name, Dot, b.sub], [Group(Paren, [StructKw, b.sub]), b.assignments]))
  {
    MatchConstructComplete(b, rest);
    var tag := Atom(b.ty.text + b.sub.text);
    IdentNotSemi(b.sub.text);
    assert tag != Semi && tag != Equals by {
      assert tag.text[0] == b.ty.text[0];
      IdentNotSemi(b.ty.text);
    }
    var a1 := [b.name, Dot, TypeField, Equals, tag];
    var a2 := [b.name, Dot, b.sub, Equals, Group(Paren, [StructKw, b.sub]), b.assignments];
    assert Assignments(b, tag) == a1 + [Semi] + (a2 + [Semi] + []);
    SplitAfter(a1, Semi, a2 + [Semi] + []);
    SplitAfter(a2, Semi, []);
    assert a1 == [b.name, Dot, TypeField] + [Equals] + [tag];
    SplitAfter([b.name, Dot, TypeField], Equals, [tag]);
    SplitWithout([tag], Equals);
    assert a2 == [b.name, Dot, b.sub] + [Equals] + [Group(Paren, [StructKw, b.sub]), b.assignments];
    SplitAfter([b.name, Dot, b.sub], Equals, [Group(Paren, [StructKw, b.sub]), b.assignments]);
    SplitWithout([Group(Paren, [StructKw, b.sub]), b.assignments], Equals);
  }

  /**
   * `construct` and `data` agree: constructing the i-th variant of a type `T` assigns the
   * very tag that `recur_name` lists i-th for `T`, and the member it assigns is declared
   * in the union with the struct type that the cast names.
   */
  lemma ConstructAgreesWithData(t: string, ds: seq<Def>, i: nat, x: Frag, a: Frag, rest: seq<Frag>, c: nat)
    requires IsIdentText(t) && NamesAreIdents(ds) && i < |ds|
    requires forall j | 0 <= j < i :: ds[j].name != ds[i].name
    ensures var b := Construction(x, Atom(t), Atom(ds[i].name), a);
      && var o := ConstructExpand(ConstructArgs(b) + rest, c).value.site;
      && o[4] == Tags(t, ds)[2 * i]
      && FieldType(Members(ds), o[8]) == Some(o[10].items + [Group(Brace, ds[i].body)])
  {
    var b := Construction(x, Atom(t), Atom(ds[i].name), a);
    var o := ConstructTemplate(b, rest, c);
    TagsAt(t, ds, i);
    MemberTypeAt(ds, i);
    assert o[10].items + [Group(Brace, ds[i].body)] == [StructKw, Atom(ds[i].name), Group(Brace, ds[i].body)];
  }

  /** With two atoms the output is the template with the pasted tag. */
  lemma ConstructTemplate(b: Construction, rest: seq<Frag>, c: nat) returns (o: seq<Frag>)
    requires b.ty.Atom? && b.sub.Atom?
    ensures o == ConstructExpand(ConstructArgs(b) + rest, c).value.site
    ensures o == Assignments(b, Atom(b.ty.text + b.sub.text))
  {
    MatchConstructComplete(b, rest);
    o := Assignments(b, Atom(b.ty.text + b.sub.text));
  }

  // ---------------------------------------------------------------------------------
  // Hygiene

  lemma KeepsBelow(m: string, s: seq<Frag>, c: nat)
    requires m in {RecurName, RecurDef, DataName, ConstructName}
    requires AllBelow(s, c)
    requires var e := if m == RecurName then NameExpand(s, c) else if m == RecurDef then DefExpand(s, c)
                      else if m == DataName then DataExpand(s, c) else ConstructExpand(s, c);
             e.Ok?
    ensures var e := (if m == RecurName then NameExpand(s, c) else if m == RecurDef then DefExpand(s, c)
                      else if m == DataName then DataExpand(s, c) else ConstructExpand(s, c)).value;
      && e.counter == c + (if m == DataName then 1 else 0)
      && AllBelow(e.site, e.counter) && AllBelow(e.toplevel, e.counter)
  {
    assert Below(s[0], c);
    if m == RecurName {
      assert AllBelow(s[0].items, c);
      if MatchNameOne(s).None? {
        var b := MatchNameMore(s).value;
        var it := s[0].items;
        assert Below(b.ty, c) && Below(b.name, c) && Below(b.def, c);
        assert AllBelow(b.others, c) by {
          forall k | 0 <= k < |b.others| ensures Below(b.others[k], c) {
            assert b.others[k] == it[k + 4];
          }
        }
        assert Below(Group(Paren, [b.ty, b.name, b.def, Semi]), c);
        assert Below(Group(Paren, [b.ty] + b.others), c);
      }
    } else if m == RecurDef {
      assert AllBelow(s[0].items, c);
      if MatchDefOne(s).None? {
        var b := MatchDefMore(s).value;
        var it := s[0].items;
        assert AllBelow(b.others, c) by {
          forall k | 0 <= k < |b.others| ensures Below(b.others[k], c) {
            assert b.others[k] == it[k + 3];
          }
        }
        assert Below(Group(Paren, [b.name, b.def, Semi]), c);
        assert Below(Group(Paren, b.others), c);
      }
    } else if m == DataName {
      var c' := c + 1;
      AllBelowMono(s, c, c');
      var g := Gensym(DataName, c);
      assert Below(s[0], c') && Below(s[1], c');
      var defs := s[1].items;
      assert AllBelow(defs, c');
      assert AllBelow([s[0]] + defs, c') by {
        forall k | 0 <= k < |defs| + 1 ensures Below(([s[0]] + defs)[k], c') {
          if k > 0 {
            assert ([s[0]] + defs)[k] == defs[k - 1];
          }
        }
      }
      assert Below(Group(Brace, [Atom(RecurName), Group(Paren, [s[0]] + defs)]), c');
      assert Below(Group(Brace, [Atom(RecurDef), Group(Paren, defs)]), c');
      assert Below(UnionBody(defs, g), c');
    } else {
      var b := MatchConstruct(s).value;
      assert AllBelow(s[0].items, c);
      assert Below(b.name, c) && Below(b.sub, c) && Below(s[1], c);
      assert Below(Group(Paren, [StructKw, b.sub]), c);
    }
  }
}
