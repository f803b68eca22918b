/**
 * What the driver makes of the rules over several steps: `recur_name`, `recur_def` and
 * `data` expanded to the end, the two-argument `with_allocation` becoming the
 * three-argument one, and the `toplevel` output of `lambda` and `delay` placed at the start
 * of the top-level item that uses it.
 */
module Expansions {
  import opened Tokens
  import opened Shapes
  import opened Driver
  import WithAllocation
  import Lambda
  import Lazy
  import opened Adt

  // ---------------------------------------------------------------------------------
  // Steps

  /** A step without `toplevel` output takes the rest of the reduction with it. */
  lemma StepReduce(s: seq<Frag>, o: seq<Frag>, c: nat, c': nat, fuel: nat, top: bool)
    requires Rewrite(s, c, top) == Rewritten(o, [], c')
    ensures Reduce(s, c, fuel + 1, top) == Reduce(o, c', fuel, top)
  {
    match Reduce(o, c', fuel, top)
    case Ok(x) => assert [] + x.hoist == x.hoist;
    case Err(_) =>
  }

  /** An invocation at the head of the sequence, without `toplevel` output. */
  lemma HeadCall(s: seq<Frag>, c: nat, top: bool)
    requires |s| >= 1 && IsCall(s[0]) && Expand(s[0].text, s[1..], c).Ok?
    requires Expand(s[0].text, s[1..], c).value.toplevel == []
    ensures var x := Expand(s[0].text, s[1..], c).value;
      Rewrite(s, c, top) == Rewritten(x.site + s[1 + x.used..], [], x.counter)
  {
    var x := Expand(s[0].text, s[1..], c).value;
    if top {
      TopFirstItem(s, c, x.site + s[1 + x.used..], [], x.counter);
      assert [] + (x.site + s[1 + x.used..]) == x.site + s[1 + x.used..];
    }
  }

  /** An invocation at the head of a nested sequence keeps its `toplevel` output aside. */
  lemma NestedCall(m: string, args: seq<Frag>, t: seq<Frag>, c: nat, x: Expansion)
    requires m in Macros && Expand(m, args + t, c) == Ok(x) && x.used == |args|
    ensures RewriteIn([Atom(m)] + args + t, c) == Rewritten(x.site + t, x.toplevel, x.counter)
  {
    var call := [Atom(m)] + args + t;
    assert call[0] == Atom(m) && call[1..] == args + t && call[1 + x.used..] == t;
  }

  /** A nested step inside a group's contents is the step of the group. */
  lemma InGroup(d: Delim, items: seq<Frag>, rest: seq<Frag>, c: nat, o: seq<Frag>, h: seq<Frag>, c': nat)
    requires RewriteIn(items, c) == Rewritten(o, h, c')
    ensures RewriteIn([Group(d, items)] + rest, c) == Rewritten([Group(d, o)] + rest, h, c')
  {
    var s := [Group(d, items)] + rest;
    assert s[0] == Group(d, items) && s[1..] == rest;
  }

  /**
   * An invocation inside a group of a top-level item, for instance in the body of a
   * function: `p` are the whole items before, `q` the call-free start of the item (the
   * function's header) and `r` the call-free fragments before the invocation in the group.
   * Its site output replaces it in the group, and its `toplevel` output goes at the start
   * of the item, after `p` and before `q`.
   */
  lemma Hoist(p: seq<Frag>, q: seq<Frag>, d: Delim, r: seq<Frag>, m: string, args: seq<Frag>,
              t: seq<Frag>, rest: seq<Frag>, c: nat)
    requires WholeItems(p) && NoCalls(q) && OpenItem(q) && NoCalls(r) && m in Macros
    requires Expand(m, args + t, c).Ok? && Expand(m, args + t, c).value.used == |args|
    ensures var x := Expand(m, args + t, c).value;
      Rewrite(p + q + [Group(d, r + [Atom(m)] + args + t)] + rest, c, true)
      == Rewritten(p + x.toplevel + q + [Group(d, r + x.site + t)] + rest, [], x.counter)
  {
    var x := Expand(m, args + t, c).value;
    var call := [Atom(m)] + args + t;
    NestedCall(m, args, t, c, x);
    RewritePrefix(r, call, c);
    HoistShapes(p, q, d, r, m, args, t, rest, x.site, x.toplevel);
    RewriteInClean(r + call, c);
    var z := [Group(d, r + call)] + rest;
    InGroup(d, r + call, rest, c, r + (x.site + t), x.toplevel, x.counter);
    Placement(p, q, z, c, [Group(d, r + x.site + t)] + rest, x.toplevel, x.counter);
  }

  /** The sequence identities behind `Hoist`. */
  lemma HoistShapes(p: seq<Frag>, q: seq<Frag>, d: Delim, r: seq<Frag>, m: string, args: seq<Frag>,
                    t: seq<Frag>, rest: seq<Frag>, site: seq<Frag>, top: seq<Frag>)
    ensures r + [Atom(m)] + args + t == r + ([Atom(m)] + args + t)
    ensures r + (site + t) == r + site + t
    ensures ([Group(d, r + [Atom(m)] + args + t)] + rest)[0] == Group(d, r + [Atom(m)] + args + t)
    ensures p + q + [Group(d, r + [Atom(m)] + args + t)] + rest == p + q + ([Group(d, r + [Atom(m)] + args + t)] + rest)
    ensures p + top + q + ([Group(d, r + site + t)] + rest) == p + top + q + [Group(d, r + site + t)] + rest
  {
  }

  /**
   * An invocation directly in a top-level item, for instance in the initializer of a
   * declaration: its site output replaces it, and its `toplevel` output goes at the start
   * of the item, after the whole items `p` and before the item's call-free start `q`.
   */
  lemma HoistInItem(p: seq<Frag>, q: seq<Frag>, m: string, args: seq<Frag>, t: seq<Frag>, c: nat)
    requires WholeItems(p) && NoCalls(q) && OpenItem(q) && m in Macros
    requires Expand(m, args + t, c).Ok? && Expand(m, args + t, c).value.used == |args|
    ensures var x := Expand(m, args + t, c).value;
      Rewrite(p + q + [Atom(m)] + args + t, c, true) == Rewritten(p + x.toplevel + q + x.site + t, [], x.counter)
  {
    var x := Expand(m, args + t, c).value;
    var z := [Atom(m)] + args + t;
    NestedCall(m, args, t, c, x);
    InItemShapes(p, q, m, args, t, x.site, x.toplevel);
    Placement(p, q, z, c, x.site + t, x.toplevel, x.counter);
  }

  /** The sequence identities behind `HoistInItem`. */
  lemma InItemShapes(p: seq<Frag>, q: seq<Frag>, m: string, args: seq<Frag>, t: seq<Frag>,
                     site: seq<Frag>, top: seq<Frag>)
    ensures ([Atom(m)] + args + t)[0] == Atom(m)
    ensures p + q + [Atom(m)] + args + t == p + q + ([Atom(m)] + args + t)
    ensures p + top + q + (site + t) == p + top + q + site + t
  {
  }

  // ---------------------------------------------------------------------------------
  // recur_name and recur_def to the end

  /** No tag the definitions produce is itself a macro name. */
  predicate TagsAreNotMacros(t: string, ds: seq<Def>) {
    forall i | 0 <= i < |ds| :: t + ds[i].name !in Macros
  }

  /** No definition is named like a macro, and no definition body holds an invocation. */
  predicate DefsAreCallFree(ds: seq<Def>) {
    forall i | 0 <= i < |ds| :: ds[i].name !in Macros && NoCalls(ds[i].body)
  }

  lemma {:induction false} TagsCallFree(t: string, ds: seq<Def>)
    requires TagsAreNotMacros(t, ds)
    ensures NoCalls(Tags(t, ds))
  {
    if ds != [] {
      TagsSplit(t, ds);
      TagsCallFree(t, ds[1..]);
      assert t + ds[0].name !in Macros;
      NoCallsAppend([Atom(t + ds[0].name), Comma], Tags(t, ds[1..]));
    }
  }

  lemma {:induction false} MembersCallFree(ds: seq<Def>)
    requires DefsAreCallFree(ds)
    ensures NoCalls(Members(ds))
  {
    if ds != [] {
      DefsCallFreeSplit(ds);
      MembersCallFree(ds[1..]);
      var d := ds[0];
      assert NoCallIn(Group(Brace, d.body));
      assert NoCalls(MemberDecl(d) + [Semi]);
      NoCallsAppend(MemberDecl(d) + [Semi], Members(ds[1..]));
    }
  }

  lemma TagsSplit(t: string, ds: seq<Def>)
    requires ds != [] && TagsAreNotMacros(t, ds)
    ensures TagsAreNotMacros(t, [ds[0]]) && TagsAreNotMacros(t, ds[1..])
  {
    forall i | 0 <= i < |ds| - 1 ensures t + ds[1..][i].name !in Macros {
      assert ds[1..][i] == ds[i + 1];
    }
  }

  lemma DefsCallFreeSplit(ds: seq<Def>)
    requires ds != [] && DefsAreCallFree(ds)
    ensures DefsAreCallFree([ds[0]]) && DefsAreCallFree(ds[1..])
  {
    forall i | 0 <= i < |ds| - 1 ensures ds[1..][i].name !in Macros && NoCalls(ds[1..][i].body) {
      assert ds[1..][i] == ds[i + 1];
    }
  }

  lemma TagsCons(t: string, d: Def, ds: seq<Def>)
    ensures Tags(t, [d] + ds) == Tags(t, [d]) + Tags(t, ds)
  {
    assert ([d] + ds)[0] == d && ([d] + ds)[1..] == ds;
    assert [d][1..] == [];
  }

  lemma MembersCons(d: Def, ds: seq<Def>)
    ensures Members([d] + ds) == Members([d]) + Members(ds)
  {
    assert ([d] + ds)[0] == d && ([d] + ds)[1..] == ds;
    assert [d][1..] == [];
  }

  /** A call-free sequence reduces to itself, on any fuel. */
  lemma CleanReduce(s: seq<Frag>, c: nat, fuel: nat, top: bool)
    requires NoCalls(s)
    ensures Reduce(s, c, fuel, top) == Ok(Reduced(s, [], c))
  {
    RewriteClean(s, c, top);
  }

  /** A reduction behind a call-free prefix keeps the prefix in front of its result. */
  lemma PrefixReduced(p: seq<Frag>, s: seq<Frag>, c: nat, fuel: nat, out: seq<Frag>, c': nat)
    requires NoCalls(p) && Reduce(s, c, fuel, false) == Ok(Reduced(out, [], c'))
    ensures Reduce(p + s, c, fuel, false) == Ok(Reduced(p + out, [], c'))
  {
    ReducePrefix(p, s, c, fuel);
  }

  /** One step of `recur_name` over a single definition. */
  lemma NameOneStep(t: string, d: Def, rest: seq<Frag>, c: nat)
    ensures Rewrite([Atom(RecurName), NameGroup(t, [d])] + rest, c, false) == Rewritten(Tags(t, [d]) + rest, [], c)
  {
    var s := [Atom(RecurName), NameGroup(t, [d])] + rest;
    assert s[0] == Atom(RecurName) && s[1..] == [NameGroup(t, [d])] + rest && s[2..] == rest;
    NameLast(t, d, rest, c);
    assert Expand(RecurName, s[1..], c) == NameExpand(s[1..], c);
    HeadCall(s, c, false);
  }

  /** One step of `recur_name` over several definitions: the first is split off. */
  lemma NameMoreStep(t: string, d: Def, more: seq<Def>, rest: seq<Frag>, c: nat)
    requires more != []
    ensures Rewrite([Atom(RecurName), NameGroup(t, [d] + more)] + rest, c, false)
         == Rewritten([Atom(RecurName), NameGroup(t, [d])] + ([Atom(RecurName), NameGroup(t, more)] + rest), [], c)
  {
    var s := [Atom(RecurName), NameGroup(t, [d] + more)] + rest;
    assert s[0] == Atom(RecurName) && s[1..] == [NameGroup(t, [d] + more)] + rest && s[2..] == rest;
    NameStep(t, d, more, rest, c);
    assert Expand(RecurName, s[1..], c) == NameExpand(s[1..], c);
    HeadCall(s, c, false);
  }

  /** Two steps of `recur_name` over several definitions leave the first tag in front. */
  lemma NameTwoSteps(t: string, d: Def, more: seq<Def>, c: nat, fuel: nat)
    requires more != []
    ensures Reduce([Atom(RecurName), NameGroup(t, [d] + more)], c, fuel + 2, false)
         == Reduce(Tags(t, [d]) + [Atom(RecurName), NameGroup(t, more)], c, fuel, false)
  {
    var s := [Atom(RecurName), NameGroup(t, [d] + more)];
    var tail := [Atom(RecurName), NameGroup(t, more)];
    var o1 := [Atom(RecurName), NameGroup(t, [d])] + tail;
    NameMoreStep(t, d, more, [], c);
    assert s + [] == s && tail + [] == tail;
    StepReduce(s, o1, c, c, fuel + 1, false);
    NameOneStep(t, d, tail, c);
    StepReduce(o1, Tags(t, [d]) + tail, c, c, fuel, false);
  }

  /** `recur_name` over a single definition reduces in one step to its tag. */
  lemma NameOneReduce(t: string, d: Def, c: nat)
    requires NoCalls(Tags(t, [d]))
    ensures Reduce([Atom(RecurName), NameGroup(t, [d])], c, 1, false) == Ok(Reduced(Tags(t, [d]), [], c))
  {
    var s := [Atom(RecurName), NameGroup(t, [d])];
    NameOneStep(t, d, [], c);
    assert s + [] == s && Tags(t, [d]) + [] == Tags(t, [d]);
    StepReduce(s, Tags(t, [d]), c, c, 0, false);
    CleanReduce(Tags(t, [d]), c, 0, false);
  }

  /** The first tag followed by the reduction of the rest. */
  lemma NameCombine(t: string, d: Def, more: seq<Def>, c: nat)
    requires more != [] && NoCalls(Tags(t, [d]))
    requires Reduce([Atom(RecurName), NameGroup(t, more)], c, 2 * |more| - 1, false) == Ok(Reduced(Tags(t, more), [], c))
    ensures Reduce([Atom(RecurName), NameGroup(t, [d] + more)], c, 2 * |more| + 1, false)
         == Ok(Reduced(Tags(t, [d] + more), [], c))
  {
    NameTwoSteps(t, d, more, c, 2 * |more| - 1);
    PrefixReduced(Tags(t, [d]), [Atom(RecurName), NameGroup(t, more)], c, 2 * |more| - 1, Tags(t, more), c);
    TagsCons(t, d, more);
  }

  /** `recur_name (T d1 ... dk)` takes exactly 2k - 1 steps to give the k tags, in order. */
  lemma {:induction false} NameFullExact(t: string, ds: seq<Def>, c: nat)
    requires ds != [] && TagsAreNotMacros(t, ds)
    ensures Reduce([Atom(RecurName), NameGroup(t, ds)], c, 2 * |ds| - 1, false) == Ok(Reduced(Tags(t, ds), [], c))
  {
    var d := ds[0];
    var more := ds[1..];
    assert ds == [d] + more;
    TagsSplit(t, ds);
    TagsCallFree(t, [d]);
    if more == [] {
      assert ds == [d];
      NameOneReduce(t, d, c);
    } else {
      NameFullExact(t, more, c);
      NameCombine(t, d, more, c);
    }
  }

  /** With enough fuel, `recur_name` over k definitions gives exactly the k tags. */
  lemma NameFull(t: string, ds: seq<Def>, c: nat, fuel: nat, top: bool)
    requires ds != [] && TagsAreNotMacros(t, ds) && fuel >= 2 * |ds| - 1
    ensures Reduce([Atom(RecurName), NameGroup(t, ds)], c, fuel, top) == Ok(Reduced(Tags(t, ds), [], c))
  {
    NameFullExact(t, ds, c);
    FuelMono([Atom(RecurName), NameGroup(t, ds)], c, 2 * |ds| - 1, fuel, false);
    if top {
      ReduceLift([Atom(RecurName), NameGroup(t, ds)], c, fuel, Tags(t, ds), c);
    }
  }

  /** One step of `recur_def` over a single definition. */
  lemma DefOneStep(d: Def, rest: seq<Frag>, c: nat)
    ensures Rewrite([Atom(RecurDef), DefGroup([d])] + rest, c, false) == Rewritten(Members([d]) + rest, [], c)
  {
    var s := [Atom(RecurDef), DefGroup([d])] + rest;
    assert s[0] == Atom(RecurDef) && s[1..] == [DefGroup([d])] + rest && s[2..] == rest;
    DefLast(d, rest, c);
    assert Expand(RecurDef, s[1..], c) == DefExpand(s[1..], c);
    HeadCall(s, c, false);
  }

  /** One step of `recur_def` over several definitions: the first is split off. */
  lemma DefMoreStep(d: Def, more: seq<Def>, rest: seq<Frag>, c: nat)
    requires more != []
    ensures Rewrite([Atom(RecurDef), DefGroup([d] + more)] + rest, c, false)
         == Rewritten([Atom(RecurDef), DefGroup([d])] + ([Atom(RecurDef), DefGroup(more)] + rest), [], c)
  {
    var s := [Atom(RecurDef), DefGroup([d] + more)] + rest;
    assert s[0] == Atom(RecurDef) && s[1..] == [DefGroup([d] + more)] + rest && s[2..] == rest;
    DefStep(d, more, rest, c);
    assert Expand(RecurDef, s[1..], c) == DefExpand(s[1..], c);
    HeadCall(s, c, false);
  }

  /** Two steps of `recur_def` over several definitions leave the first member in front. */
  lemma DefTwoSteps(d: Def, more: seq<Def>, c: nat, fuel: nat)
    requires more != []
    ensures Reduce([Atom(RecurDef), DefGroup([d] + more)], c, fuel + 2, false)
         == Reduce(Members([d]) + [Atom(RecurDef), DefGroup(more)], c, fuel, false)
  {
    var s := [Atom(RecurDef), DefGroup([d] + more)];
    var tail := [Atom(RecurDef), DefGroup(more)];
    var o1 := [Atom(RecurDef), DefGroup([d])] + tail;
    DefMoreStep(d, more, [], c);
    assert s + [] == s && tail + [] == tail;
    StepReduce(s, o1, c, c, fuel + 1, false);
    DefOneStep(d, tail, c);
    StepReduce(o1, Members([d]) + tail, c, c, fuel, false);
  }

  /** `recur_def` over a single definition reduces in one step to its member. */
  lemma DefOneReduce(d: Def, c: nat)
    requires DefsAreCallFree([d])
    ensures Reduce([Atom(RecurDef), DefGroup([d])], c, 1, false) == Ok(Reduced(Members([d]), [], c))
  {
    MembersCallFree([d]);
    var s := [Atom(RecurDef), DefGroup([d])];
    DefOneStep(d, [], c);
    assert s + [] == s && Members([d]) + [] == Members([d]);
    StepReduce(s, Members([d]), c, c, 0, false);
    CleanReduce(Members([d]), c, 0, false);
  }

  /** The first member followed by the reduction of the rest. */
  lemma DefCombine(d: Def, more: seq<Def>, c: nat)
    requires more != [] && DefsAreCallFree([d])
    requires Reduce([Atom(RecurDef), DefGroup(more)], c, 2 * |more| - 1, false) == Ok(Reduced(Members(more), [], c))
    ensures Reduce([Atom(RecurDef), DefGroup([d] + more)], c, 2 * |more| + 1, false)
         == Ok(Reduced(Members([d] + more), [], c))
  {
    MembersCallFree([d]);
    var f := 2 * |more| - 1;
    var tail := [Atom(RecurDef), DefGroup(more)];
    DefTwoSteps(d, more, c, f);
    assert Reduce([Atom(RecurDef), DefGroup([d] + more)], c, f + 2, false) == Reduce(Members([d]) + tail, c, f, false);
    PrefixReduced(Members([d]), tail, c, f, Members(more), c);
    assert Reduce(Members([d]) + tail, c, f, false) == Ok(Reduced(Members([d]) + Members(more), [], c));
    MembersCons(d, more);
    assert Members([d] + more) == Members([d]) + Members(more);
  }

  /** `recur_def (d1 ... dk)` takes exactly 2k - 1 steps to give the k members, in order. */
  lemma {:induction false} DefFullExact(ds: seq<Def>, c: nat)
    requires ds != [] && DefsAreCallFree(ds)
    ensures Reduce([Atom(RecurDef), DefGroup(ds)], c, 2 * |ds| - 1, false) == Ok(Reduced(Members(ds), [], c))
  {
    var d := ds[0];
    var more := ds[1..];
    assert ds == [d] + more;
    DefsCallFreeSplit(ds);
    if more == [] {
      assert ds == [d];
      DefOneReduce(d, c);
    } else {
      DefFullExact(more, c);
      DefCombine(d, more, c);
    }
  }

  /** With enough fuel, `recur_def` over k definitions gives exactly the k union members. */
  lemma DefFull(ds: seq<Def>, c: nat, fuel: nat, top: bool)
    requires ds != [] && DefsAreCallFree(ds) && fuel >= 2 * |ds| - 1
    ensures Reduce([Atom(RecurDef), DefGroup(ds)], c, fuel, top) == Ok(Reduced(Members(ds), [], c))
  {
    DefFullExact(ds, c);
    FuelMono([Atom(RecurDef), DefGroup(ds)], c, 2 * |ds| - 1, fuel, false);
    if top {
      ReduceLift([Atom(RecurDef), DefGroup(ds)], c, fuel, Members(ds), c);
    }
  }

  // ---------------------------------------------------------------------------------
  // data to the end

  /** The union body once `recur_def` has expanded: `{ g type; union { members }; }`. */
  function UnionResult(ds: seq<Def>, g: Frag): seq<Frag> {
    [g, TypeField, Semi, UnionKw, Group(Brace, Members(ds)), Semi]
  }

  /** The fully expanded declarations of `data T { d1 ... dk }`, with the enum named `g`. */
  function DataResult(t: string, ds: seq<Def>, g: Frag): seq<Frag> {
    [TypedefKw, EnumKw, Group(Brace, Tags(t, ds)), g, Semi,
     TypedefKw, StructKw, Group(Brace, UnionResult(ds, g)), Atom(t), Semi]
  }

  /** `typedef enum`, in front of the enum body. */
  const EnumHead := [TypedefKw, EnumKw]

  /** What follows the enum body in the declarations, the unexpanded union body among it. */
  function StructTail(t: string, ds: seq<Def>, g: Frag): seq<Frag> {
    [g, Semi, TypedefKw, StructKw, UnionBody(DefTokens(ds), g), Atom(t), Semi]
  }

  /** What precedes the union body once the enum body has expanded. */
  function StructHead(t: string, ds: seq<Def>, g: Frag): seq<Frag> {
    [TypedefKw, EnumKw, Group(Brace, Tags(t, ds)), g, Semi, TypedefKw, StructKw]
  }

  /** `g type; union`, in front of the union's members. */
  function UnionHead(g: Frag): seq<Frag> {
    [g, TypeField, Semi, UnionKw]
  }

  /** Where the invocations sit in the declarations, before and after each expands. */
  lemma DataSplits(t: string, ds: seq<Def>, g: Frag)
    ensures DataDecls(Atom(t), DefTokens(ds), g)
         == EnumHead + [Group(Brace, [Atom(RecurName), NameGroup(t, ds)])] + StructTail(t, ds, g)
    ensures EnumHead + [Group(Brace, Tags(t, ds))] + StructTail(t, ds, g)
         == StructHead(t, ds, g) + [Group(Brace, UnionBody(DefTokens(ds), g).items)] + [Atom(t), Semi]
    ensures DataResult(t, ds, g) == StructHead(t, ds, g) + [Group(Brace, UnionResult(ds, g))] + [Atom(t), Semi]
    ensures UnionBody(DefTokens(ds), g).items == UnionHead(g) + [Group(Brace, [Atom(RecurDef), DefGroup(ds)])] + [Semi]
    ensures UnionResult(ds, g) == UnionHead(g) + [Group(Brace, Members(ds))] + [Semi]
  {
  }

  /** Only the invocations are calls: the rest of the declarations is call-free. */
  lemma DataCallFree(t: string, ds: seq<Def>, g: Frag)
    requires t !in Macros && TagsAreNotMacros(t, ds) && DefsAreCallFree(ds) && g.Sym?
    ensures NoCalls(EnumHead) && NoCalls(StructHead(t, ds, g)) && NoCalls(UnionHead(g)) && NoCalls([Semi])
    ensures NoCalls(UnionResult(ds, g)) && NoCalls(DataResult(t, ds, g))
  {
    TagsCallFree(t, ds);
    MembersCallFree(ds);
    assert NoCallIn(Group(Brace, Tags(t, ds)));
    assert NoCallIn(Group(Brace, Members(ds)));
    assert NoCalls(UnionResult(ds, g));
    assert NoCallIn(Group(Brace, UnionResult(ds, g)));
  }

  /** The reduction of a group inside a sequence, stated on the results alone. */
  lemma InsideReduced(p: seq<Frag>, d: Delim, items: seq<Frag>, q: seq<Frag>, c: nat, f1: nat, f2: nat,
                      inner: seq<Frag>, out: seq<Frag>, c': nat)
    requires NoCalls(p) && Reduce(items, c, f1, false) == Ok(Reduced(inner, [], c))
    requires Reduce(p + [Group(d, inner)] + q, c, f2, false) == Ok(Reduced(out, [], c'))
    ensures Reduce(p + [Group(d, items)] + q, c, f1 + f2, false) == Ok(Reduced(out, [], c'))
  {
    ReduceInside(p, d, items, q, c, f1, f2);
  }

  /** The first step of `data` at top level puts its declarations in place of the invocation. */
  lemma DataStep(t: string, ds: seq<Def>, c: nat, fuel: nat)
    ensures Reduce([Atom(DataName), Atom(t), Group(Brace, DefTokens(ds))], c, fuel + 1, true)
         == Reduce(DataDecls(Atom(t), DefTokens(ds), Gensym(DataName, c)), c + 1, fuel, true)
  {
    var s := [Atom(DataName), Atom(t), Group(Brace, DefTokens(ds))];
    assert s[0] == Atom(DataName) && s[1..] == [Atom(t), Group(Brace, DefTokens(ds))] && s[3..] == [];
    assert Expand(DataName, s[1..], c) == DataExpand(s[1..], c);
    var x := DataExpand(s[1..], c).value;
    TopFirstItem(s, c, x.site + s[3..], x.toplevel, c + 1);
    assert x.toplevel + (x.site + s[3..]) == x.toplevel;
    StepReduce(s, x.toplevel, c, c + 1, fuel, true);
  }

  /** The union body reduces in 2k - 1 steps, without `toplevel` output. */
  lemma UnionReduces(t: string, ds: seq<Def>, g: Frag, c: nat)
    requires ds != [] && t !in Macros && TagsAreNotMacros(t, ds) && DefsAreCallFree(ds) && g.Sym?
    ensures Reduce(UnionBody(DefTokens(ds), g).items, c, 2 * |ds| - 1, false) == Ok(Reduced(UnionResult(ds, g), [], c))
  {
    DataSplits(t, ds, g);
    DataCallFree(t, ds, g);
    DefFullExact(ds, c);
    CleanReduce(UnionResult(ds, g), c, 0, false);
    InsideReduced(UnionHead(g), Brace, [Atom(RecurDef), DefGroup(ds)], [Semi], c, 2 * |ds| - 1, 0,
                  Members(ds), UnionResult(ds, g), c);
  }

  /** After the enum body, the union body takes the next 2k - 1 steps. */
  lemma StructReduces(t: string, ds: seq<Def>, g: Frag, c: nat)
    requires ds != [] && t !in Macros && TagsAreNotMacros(t, ds) && DefsAreCallFree(ds) && g.Sym?
    ensures Reduce(EnumHead + [Group(Brace, Tags(t, ds))] + StructTail(t, ds, g), c, 2 * |ds| - 1, false)
         == Ok(Reduced(DataResult(t, ds, g), [], c))
  {
    DataSplits(t, ds, g);
    DataCallFree(t, ds, g);
    UnionReduces(t, ds, g, c);
    CleanReduce(DataResult(t, ds, g), c, 0, false);
    InsideReduced(StructHead(t, ds, g), Brace, UnionBody(DefTokens(ds), g).items, [Atom(t), Semi], c,
                  2 * |ds| - 1, 0, UnionResult(ds, g), DataResult(t, ds, g), c);
  }

  /** The declarations take 4k - 2 steps: 2k - 1 for the enum body, then the union body. */
  lemma DeclsReduce(t: string, ds: seq<Def>, g: Frag, c: nat)
    requires ds != [] && t !in Macros && TagsAreNotMacros(t, ds) && DefsAreCallFree(ds) && g.Sym?
    ensures Reduce(DataDecls(Atom(t), DefTokens(ds), g), c, 4 * |ds| - 2, true)
         == Ok(Reduced(DataResult(t, ds, g), [], c))
  {
    DataSplits(t, ds, g);
    DataCallFree(t, ds, g);
    NameFullExact(t, ds, c);
    StructReduces(t, ds, g, c);
    InsideReduced(EnumHead, Brace, [Atom(RecurName), NameGroup(t, ds)], StructTail(t, ds, g), c,
                  2 * |ds| - 1, 2 * |ds| - 1, Tags(t, ds), DataResult(t, ds, g), c);
    ReduceLift(DataDecls(Atom(t), DefTokens(ds), g), c, 4 * |ds| - 2, DataResult(t, ds, g), c);
  }

  /**
   * At top level, `data T { d1 ... dk }` expands in 4k - 1 steps to the enum of the k tags
   * in order, named by a fresh symbol, and the struct `T` whose `type` field has that enum
   * type and whose union holds the k members in order. Only that one symbol is generated.
   */
  lemma DataFullExact(t: string, ds: seq<Def>, c: nat)
    requires ds != [] && t !in Macros && TagsAreNotMacros(t, ds) && DefsAreCallFree(ds)
    ensures Reduce([Atom(DataName), Atom(t), Group(Brace, DefTokens(ds))], c, 4 * |ds| - 1, true)
         == Ok(Reduced(DataResult(t, ds, Gensym(DataName, c)), [], c + 1))
  {
    DataStep(t, ds, c, 4 * |ds| - 2);
    DeclsReduce(t, ds, Gensym(DataName, c), c + 1);
  }

  /** With enough fuel, `data` at top level expands to exactly those declarations. */
  lemma DataFull(t: string, ds: seq<Def>, c: nat, fuel: nat)
    requires ds != [] && t !in Macros && TagsAreNotMacros(t, ds) && DefsAreCallFree(ds)
    requires fuel >= 4 * |ds| - 1
    ensures Reduce([Atom(DataName), Atom(t), Group(Brace, DefTokens(ds))], c, fuel, true)
         == Ok(Reduced(DataResult(t, ds, Gensym(DataName, c)), [], c + 1))
  {
    DataFullExact(t, ds, c);
    FuelMono([Atom(DataName), Atom(t), Group(Brace, DefTokens(ds))], c, 4 * |ds| - 1, fuel, true);
  }

  /**
   * Read as C, the expanded `data` declares an enum whose body is the tags (the type name
   * pasted to each definition's name, in order, see `TagsAt`), and a struct named after the
   * type whose `type` field has that enum as its type.
   */
  lemma DataReading(t: string, ds: seq<Def>, g: Frag)
    requires g.Sym? && IsIdentText(t)
    ensures var st := Statements(DataResult(t, ds, g));
      && |st| == 3 && st[2] == []
      && ReadTypedef(st[0]) == Some(Typedef(EnumKw, Tags(t, ds), g))
      && ReadTypedef(st[1]) == Some(Typedef(StructKw, UnionResult(ds, g), Atom(t)))
      && FieldType(UnionResult(ds, g), TypeField) == Some([g])
  {
    IdentNotSemi(t);
    var e := [TypedefKw, EnumKw, Group(Brace, Tags(t, ds)), g];
    var u := [TypedefKw, StructKw, Group(Brace, UnionResult(ds, g)), Atom(t)];
    assert DataResult(t, ds, g) == e + [Semi] + (u + [Semi] + []);
    SplitAfter(e, Semi, u + [Semi] + []);
    SplitAfter(u, Semi, []);
    var m := [UnionKw, Group(Brace, Members(ds))];
    assert UnionResult(ds, g) == [g, TypeField] + [Semi] + (m + [Semi] + []);
    SplitAfter([g, TypeField], Semi, m + [Semi] + []);
    assert [g, TypeField][..1] == [g];
  }

  // ---------------------------------------------------------------------------------
  // with_allocation, lambda and delay under the driver

  /**
   * The driver turns the two-argument `with_allocation` into the three-argument call with
   * size `1` in one step, after which both reduce identically.
   */
  lemma AllocationDelegates(b: WithAllocation.Unsized, t: seq<Frag>, c: nat, fuel: nat, top: bool)
    requires WithAllocation.UnsizedKinds(b)
    ensures var sized := WithAllocation.Sized(b.ptr, b.ty, Atom("1"), b.body);
      Reduce([Atom(WithAllocation.Name)] + WithAllocation.UnsizedArgs(b) + t, c, fuel + 1, top)
      == Reduce([Atom(WithAllocation.Name)] + WithAllocation.SizedArgs(sized) + t, c, fuel, top)
  {
    var s := [Atom(WithAllocation.Name)] + WithAllocation.UnsizedArgs(b) + t;
    assert s[1..] == WithAllocation.UnsizedArgs(b) + t;
    WithAllocation.UnsizedCallDelegates(b, t, c);
    HeadCall(s, c, top);
    assert s[3..] == t;
    StepReduce(s, WithAllocation.Delegate(b) + t, c, c, fuel, top);
  }

  /**
   * A `lambda` inside a group of a top-level item, for instance in the body of a function
   * after its header `q`, becomes the generated name in place, and the function of that
   * name is defined at the start of the item, after the whole items `p`.
   */
  lemma LambdaHoisted(p: seq<Frag>, q: seq<Frag>, d: Delim, r: seq<Frag>, b: Lambda.Binding,
                      t: seq<Frag>, rest: seq<Frag>, c: nat)
    requires WholeItems(p) && NoCalls(q) && OpenItem(q) && NoCalls(r)
    ensures var x := Lambda.Expand(Lambda.Args(b) + t, c).value;
      && x.site == [ReadFunction(x.toplevel).value.name]
      && Rewrite(p + q + [Group(d, r + [Atom(Lambda.Name)] + Lambda.Args(b) + t)] + rest, c, true)
         == Rewritten(p + x.toplevel + q + [Group(d, r + x.site + t)] + rest, [], c + 1)
  {
    Lambda.MatchComplete(b, t);
    Hoist(p, q, d, r, Lambda.Name, Lambda.Args(b), t, rest, c);
  }

  /**
   * A `lambda` standing directly in a top-level item, for instance as the initializer of a
   * declaration that starts with `q`, becomes the generated name in place, and the function
   * of that name is defined at the start of the item, after the whole items `p`.
   */
  lemma LambdaInItem(p: seq<Frag>, q: seq<Frag>, b: Lambda.Binding, t: seq<Frag>, c: nat)
    requires WholeItems(p) && NoCalls(q) && OpenItem(q)
    ensures var x := Lambda.Expand(Lambda.Args(b) + t, c).value;
      && x.site == [ReadFunction(x.toplevel).value.name]
      && Rewrite(p + q + [Atom(Lambda.Name)] + Lambda.Args(b) + t, c, true)
         == Rewritten(p + x.toplevel + q + x.site + t, [], c + 1)
  {
    Lambda.MatchComplete(b, t);
    HoistInItem(p, q, Lambda.Name, Lambda.Args(b), t, c);
  }

  /** The first of `delay`'s two steps leaves the nested `lambda` invocation in place. */
  lemma DelayStep(p: seq<Frag>, q: seq<Frag>, d: Delim, r: seq<Frag>, e: Frag, t: seq<Frag>,
                  rest: seq<Frag>, c: nat)
    requires WholeItems(p) && NoCalls(q) && OpenItem(q) && NoCalls(r)
    ensures Rewrite(p + q + [Group(d, r + [Atom(Lazy.DelayName), e] + t)] + rest, c, true)
         == Rewritten(p + q + [Group(d, r + Lazy.DelayTemplate(e) + t)] + rest, [], c)
  {
    DelayExpands(e, t, c);
    Hoist(p, q, d, r, Lazy.DelayName, [e], t, rest, c);
    DelayShapes(p, q, r, e, t);
  }

  lemma DelayExpands(e: Frag, t: seq<Frag>, c: nat)
    ensures Expand(Lazy.DelayName, [e] + t, c) == Ok(Expansion(Lazy.DelayTemplate(e), [], 1, c))
  {
    assert ([e] + t)[0] == e;
  }

  lemma DelayShapes(p: seq<Frag>, q: seq<Frag>, r: seq<Frag>, e: Frag, t: seq<Frag>)
    ensures r + [Atom(Lazy.DelayName)] + [e] + t == r + [Atom(Lazy.DelayName), e] + t
    ensures p + [] + q == p + q
  {
  }

  /**
   * `delay e` inside a group of a top-level item takes two steps: the first leaves a
   * `lambda` invocation, the second defines the thunk `typeof(e) g () { return e; }` at the
   * start of the item and leaves its fresh name `g` where `delay e` stood.
   */
  lemma DelayHoisted(p: seq<Frag>, q: seq<Frag>, d: Delim, r: seq<Frag>, e: Frag, t: seq<Frag>,
                     rest: seq<Frag>, c: nat, fuel: nat)
    requires WholeItems(p) && NoCalls(q) && OpenItem(q) && NoCalls(r)
    ensures var g := Gensym(Lambda.Name, c);
      Reduce(p + q + [Group(d, r + [Atom(Lazy.DelayName), e] + t)] + rest, c, fuel + 2, true)
      == Reduce(p + [Lazy.Typeof, Group(Paren, [e]), g, Lazy.NoArgs, Lazy.ReturnBlock(e)]
                + q + [Group(d, r + [g] + t)] + rest, c + 1, fuel, true)
  {
    var g := Gensym(Lambda.Name, c);
    var mid := p + q + [Group(d, r + Lazy.DelayTemplate(e) + t)] + rest;
    DelayStep(p, q, d, r, e, t, rest, c);
    StepReduce(p + q + [Group(d, r + [Atom(Lazy.DelayName), e] + t)] + rest, mid, c, c, fuel + 1, true);
    // The second step: `lambda` takes its list case and is hoisted.
    var b := Lambda.Binding(Lazy.NoArgs, Group(Paren, [Lazy.Typeof, Group(Paren, [e])]), Lazy.ReturnBlock(e));
    assert Lazy.DelayTemplate(e) == [Atom(Lambda.Name)] + Lambda.Args(b);
    assert r + Lazy.DelayTemplate(e) + t == r + [Atom(Lambda.Name)] + Lambda.Args(b) + t;
    LambdaHoisted(p, q, d, r, b, t, rest, c);
    Lambda.ListReturnType(b, t, c);
    var x := Lambda.Expand(Lambda.Args(b) + t, c).value;
    assert x.toplevel == [Lazy.Typeof, Group(Paren, [e]), g, Lazy.NoArgs, Lazy.ReturnBlock(e)];
    StepReduce(mid, p + x.toplevel + q + [Group(d, r + x.site + t)] + rest, c, c + 1, fuel, true);
  }

  /**
   * For instance, `int main () { return lambda (int x) -> int { return x; }; }` becomes
   * `int g (int x) { return x; } int main () { return g; }`.
   */
  lemma LambdaInMain(c: nat)
    ensures var g := Gensym(Lambda.Name, c);
      var x := Group(Paren, [Atom("int"), Atom("x")]);
      var body := Group(Brace, [Atom("return"), Atom("x"), Semi]);
      Rewrite([Atom("int"), Atom("main"), Group(Paren, []),
               Group(Brace, [Atom("return"), Atom(Lambda.Name), x, Arrow, Atom("int"), body, Semi])], c, true)
      == Rewritten([Atom("int"), g, x, body, Atom("int"), Atom("main"), Group(Paren, []),
                    Group(Brace, [Atom("return"), g, Semi])], [], c + 1)
  {
    var g := Gensym(Lambda.Name, c);
    var x := Group(Paren, [Atom("int"), Atom("x")]);
    var body := Group(Brace, [Atom("return"), Atom("x"), Semi]);
    var q := [Atom("int"), Atom("main"), Group(Paren, [])];
    var b := Lambda.Binding(x, Atom("int"), body);
    assert OpenItem(q) by {
      forall i | 0 <= i < |q| ensures !EndsItem(q, i) {
        assert q[i] != Semi && !IsBlock(q[i]);
      }
    }
    assert NoCalls(q) && NoCalls([Atom("return")]) by {
      assert IsBlock(body) && Lambda.Name !in {"int", "main", "return"};
    }
    Lambda.MatchComplete(b, [Semi]);
    assert Lambda.Expand(Lambda.Args(b) + [Semi], c) == Ok(Expansion([g], [Atom("int"), g, x, body], 4, c + 1));
    LambdaHoisted([], q, Brace, [Atom("return")], b, [Semi], [], c);
    assert [Atom("return")] + [Atom(Lambda.Name)] + Lambda.Args(b) + [Semi]
        == [Atom("return"), Atom(Lambda.Name), x, Arrow, Atom("int"), body, Semi];
    var call := Group(Brace, [Atom("return"), Atom(Lambda.Name), x, Arrow, Atom("int"), body, Semi]);
    assert [] + q + [call] + [] == q + [call] == [Atom("int"), Atom("main"), Group(Paren, []), call];
    assert [Atom("return")] + [g] + [Semi] == [Atom("return"), g, Semi];
    assert [] + [Atom("int"), g, x, body] + q + [Group(Brace, [Atom("return"), g, Semi])] + []
        == [Atom("int"), g, x, body] + q + [Group(Brace, [Atom("return"), g, Semi])]
        == [Atom("int"), g, x, body, Atom("int"), Atom("main"), Group(Paren, []), Group(Brace, [Atom("return"), g, Semi])];
  }
}
