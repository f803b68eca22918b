/**
 * The expansion driver that applies the macro rules: the table of macros, one rewriting
 * step that expands the leftmost invocation, and repeated rewriting with a fuel bound.
 *
 * A `template` replaces the invocation where it stands. A `toplevel` output is placed at
 * the start of the top-level item (declaration or function definition) that contains the
 * invocation. Invocations that an expansion leaves behind are expanded by later steps.
 */
module Driver {
  import opened Tokens
  import WithAllocation
  import WithOpenFile
  import Lambda
  import Lazy
  import Tuple
  import Adt

  /** Every macro the rule files define; `lazy.c` imports `lambda.c`, so lambda is among them. */
  const Macros: set<string> := {
    WithAllocation.Name, WithOpenFile.Name, Lambda.Name, Lazy.DelayName, Lazy.ForceName,
    Tuple.Name, Adt.RecurName, Adt.RecurDef, Adt.DataName, Adt.ConstructName
  }

  /** A token that starts an invocation: an atom that names a macro. */
  predicate IsCall(f: Frag) {
    f.Atom? && f.text in Macros
  }

  predicate NoCallIn(f: Frag) {
    !IsCall(f) && (f.Group? ==> NoCalls(f.items))
  }

  /** No invocation is left anywhere in `s`, at any depth. */
  predicate NoCalls(s: seq<Frag>) {
    forall i | 0 <= i < |s| :: NoCallIn(s[i])
  }

  lemma NoCallsAppend(a: seq<Frag>, b: seq<Frag>)
    ensures NoCalls(a + b) <==> NoCalls(a) && NoCalls(b)
  {
    if NoCalls(a) && NoCalls(b) {
      forall i | 0 <= i < |a + b| ensures NoCallIn((a + b)[i]) {
        if i >= |a| {
          assert (a + b)[i] == b[i - |a|];
        }
      }
    }
    if NoCalls(a + b) {
      forall i | 0 <= i < |a| ensures NoCallIn(a[i]) {
        assert (a + b)[i] == a[i];
      }
      forall i | 0 <= i < |b| ensures NoCallIn(b[i]) {
        assert (a + b)[|a| + i] == b[i];
      }
    }
  }

  /** Expands one invocation of macro `m` whose arguments start at `s`. */
  function Expand(m: string, s: seq<Frag>, c: nat): (r: Result<Expansion>)
    requires m in Macros
    ensures r.Ok? ==> r.value.used <= |s| && c <= r.value.counter
  {
    if m == WithAllocation.Name then WithAllocation.Expand(s, c)
    else if m == WithOpenFile.Name then WithOpenFile.Expand(s, c)
    else if m == Lambda.Name then Lambda.Expand(s, c)
    else if m == Lazy.DelayName then Lazy.Delay(s, c)
    else if m == Lazy.ForceName then Lazy.Force(s, c)
    else if m == Tuple.Name then Tuple.Expand(s, c)
    else if m == Adt.RecurName then Adt.NameExpand(s, c)
    else if m == Adt.RecurDef then Adt.DefExpand(s, c)
    else if m == Adt.DataName then Adt.DataExpand(s, c)
    else Adt.ConstructExpand(s, c)
  }

  /**
   * The outcome of one step: nothing to expand, or the rewritten sequence with the
   * `toplevel` output still to be placed by an enclosing level (always empty at top level)
   * and the counter afterwards, or an invocation that no case of its macro accepts.
   */
  datatype Step = Clean | Rewritten(out: seq<Frag>, hoist: seq<Frag>, counter: nat) | Stuck(error: Error)

  /**
   * Expands the leftmost invocation of `s`, searching groups before what follows them,
   * where `s` is not the program itself: the `toplevel` output is returned beside the
   * output, for the program level to place.
   */
  function RewriteIn(s: seq<Frag>, c: nat): (r: Step)
    ensures r.Rewritten? ==> c <= r.counter
  {
    if s == [] then Clean
    else if IsCall(s[0]) then
      match Expand(s[0].text, s[1..], c)
      case Err(e) => Stuck(e)
      case Ok(x) => Rewritten(x.site + s[1 + x.used..], x.toplevel, x.counter)
    else
      match (if s[0].Group? then RewriteIn(s[0].items, c) else Clean)
      case Stuck(e) => Stuck(e)
      case Rewritten(o, h, c') => Rewritten([Group(s[0].delim, o)] + s[1..], h, c')
      case Clean =>
        match RewriteIn(s[1..], c)
        case Rewritten(o, h, c') => Rewritten([s[0]] + o, h, c')
        case other => other
  }

  /**
   * Where a top-level item of C ends: at a `;`, or at a `{ }` block right after a `( )`
   * group, which is the body of a function definition.
   */
  predicate EndsItem(s: seq<Frag>, i: nat)
    requires i < |s|
  {
    s[i] == Semi || (0 < i && IsBlock(s[i]) && IsList(s[i - 1]))
  }

  /** The end of the top-level item of `s` that holds position `i`: the first end from `i` on. */
  function ItemEnd(s: seq<Frag>, i: nat): (k: nat)
    requires i < |s|
    ensures i < k <= |s|
    ensures forall j | i <= j < k - 1 :: !EndsItem(s, j)
    ensures k == |s| || EndsItem(s, k - 1)
    decreases |s| - i
  {
    if EndsItem(s, i) || i == |s| - 1 then i + 1 else ItemEnd(s, i + 1)
  }

  /**
   * Expands the leftmost invocation of the program `s`, read as a series of top-level
   * items: the `toplevel` output goes at the start of the item that holds the invocation.
   */
  function RewriteTop(s: seq<Frag>, c: nat): (r: Step)
    ensures r.Rewritten? ==> c <= r.counter && r.hoist == []
    decreases |s|
  {
    if s == [] then Clean
    else
      var k := ItemEnd(s, 0);
      if NoCalls(s[..k]) then
        match RewriteTop(s[k..], c)
        case Rewritten(o, h, c') => Rewritten(s[..k] + o, h, c')
        case other => other
      else
        match RewriteIn(s, c)
        case Rewritten(o, h, c') => Rewritten(h + o, [], c')
        case other => other
  }

  /** One step, on the program itself (`top`) or on a part of it. */
  function Rewrite(s: seq<Frag>, c: nat, top: bool): (r: Step)
    ensures r.Rewritten? ==> c <= r.counter
    ensures r.Rewritten? && top ==> r.hoist == []
  {
    if top then RewriteTop(s, c) else RewriteIn(s, c)
  }

  /** A nested step finds nothing to do exactly when no invocation is left. */
  lemma {:induction false} RewriteInClean(s: seq<Frag>, c: nat)
    ensures RewriteIn(s, c).Clean? <==> NoCalls(s)
  {
    if s != [] {
      assert NoCalls(s) <==> NoCallIn(s[0]) && NoCalls(s[1..]) by {
        assert s == [s[0]] + s[1..];
        NoCallsAppend([s[0]], s[1..]);
      }
      if !IsCall(s[0]) {
        if s[0].Group? {
          RewriteInClean(s[0].items, c);
        }
        RewriteInClean(s[1..], c);
      }
    }
  }

  /** A step finds nothing to do exactly when no invocation is left anywhere. */
  lemma {:induction false} RewriteClean(s: seq<Frag>, c: nat, top: bool)
    ensures Rewrite(s, c, top).Clean? <==> NoCalls(s)
    decreases |s|
  {
    RewriteInClean(s, c);
    if top && s != [] {
      var k := ItemEnd(s, 0);
      assert s == s[..k] + s[k..];
      NoCallsAppend(s[..k], s[k..]);
      RewriteClean(s[k..], c, true);
    }
  }

  datatype Reduced = Reduced(out: seq<Frag>, hoist: seq<Frag>, counter: nat)

  /**
   * Rewrites until no invocation is left, at most `fuel` times; the accumulated `toplevel`
   * output of nested invocations is returned beside the result.
   */
  function Reduce(s: seq<Frag>, c: nat, fuel: nat, top: bool): (r: Result<Reduced>)
    ensures r.Ok? ==> NoCalls(r.value.out) && c <= r.value.counter
    ensures r.Ok? && top ==> r.value.hoist == []
    decreases fuel
  {
    match Rewrite(s, c, top)
    case Clean => RewriteClean(s, c, top); Ok(Reduced(s, [], c))
    case Stuck(e) => Err(e)
    case Rewritten(o, h, c') =>
      if fuel == 0 then Err(ExpansionDepthExceeded)
      else
        match Reduce(o, c', fuel - 1, top)
        case Ok(x) => Ok(Reduced(x.out, h + x.hoist, x.counter))
        case Err(e) => Err(e)
  }

  /** Expands a whole program, with the counter starting at zero. */
  function Run(program: seq<Frag>, fuel: nat): (r: Result<seq<Frag>>)
    ensures r.Ok? ==> NoCalls(r.value)
  {
    match Reduce(program, 0, fuel, true)
    case Ok(x) => Ok(x.out)
    case Err(e) => Err(e)
  }

  /** Expanding an expanded program again changes nothing. */
  lemma RunIdempotent(program: seq<Frag>, fuel: nat, fuel': nat)
    requires Run(program, fuel).Ok?
    ensures Run(Run(program, fuel).value, fuel') == Run(program, fuel)
  {
    RewriteClean(Run(program, fuel).value, 0, true);
  }

  /** More fuel never changes a result that was reached. */
  lemma {:induction false} FuelMono(s: seq<Frag>, c: nat, fuel: nat, fuel': nat, top: bool)
    requires Reduce(s, c, fuel, top).Ok? && fuel <= fuel'
    ensures Reduce(s, c, fuel', top) == Reduce(s, c, fuel, top)
    decreases fuel
  {
    match Rewrite(s, c, top)
    case Clean =>
    case Rewritten(o, h, c') => FuelMono(o, c', fuel - 1, fuel' - 1, top);
  }

  /** The step `r` seen from a sequence that has the call-free `p` in front. */
  function Behind(p: seq<Frag>, r: Step): Step {
    match r
    case Rewritten(o, h, c') => Rewritten(p + o, h, c')
    case other => other
  }

  /** A nested step passes over one call-free fragment in front. */
  lemma RewriteCons(x: Frag, s: seq<Frag>, c: nat)
    requires NoCallIn(x)
    ensures RewriteIn([x] + s, c) == Behind([x], RewriteIn(s, c))
  {
    var xs := [x] + s;
    assert xs[0] == x && xs[1..] == s;
    if x.Group? {
      RewriteInClean(x.items, c);
    }
  }

  lemma BehindBehind(p: seq<Frag>, q: seq<Frag>, r: Step)
    ensures Behind(p, Behind(q, r)) == Behind(p + q, r)
  {
    match r
    case Rewritten(o, h, c') => assert p + (q + o) == p + q + o;
    case _ =>
  }

  lemma BehindNothing(r: Step)
    ensures Behind([], r) == r
  {
    match r
    case Rewritten(o, h, c') => assert [] + o == o;
    case _ =>
  }

  /** A nested step passes over a call-free prefix unchanged. */
  lemma {:induction false} RewritePrefix(p: seq<Frag>, s: seq<Frag>, c: nat)
    requires NoCalls(p)
    ensures RewriteIn(p + s, c) == Behind(p, RewriteIn(s, c))
  {
    if p == [] {
      assert p + s == s;
      BehindNothing(RewriteIn(s, c));
    } else {
      assert NoCalls(p[1..]) && NoCallIn(p[0]) by {
        assert p == [p[0]] + p[1..];
        NoCallsAppend([p[0]], p[1..]);
      }
      var q := p[1..];
      RewritePrefix(q, s, c);
      RewriteCons(p[0], q + s, c);
      assert p + s == [p[0]] + (q + s);
      BehindBehind([p[0]], q, RewriteIn(s, c));
      assert [p[0]] + q == p;
    }
  }

  /** Repeated nested rewriting passes over a call-free prefix as well. */
  lemma {:induction false} ReducePrefix(p: seq<Frag>, s: seq<Frag>, c: nat, fuel: nat)
    requires NoCalls(p)
    ensures Reduce(p + s, c, fuel, false) == match Reduce(s, c, fuel, false)
      case Ok(x) => Ok(Reduced(p + x.out, x.hoist, x.counter))
      case Err(e) => Err(e)
    decreases fuel
  {
    RewritePrefix(p, s, c);
    match RewriteIn(s, c)
    case Clean =>
      RewriteInClean(s, c);
      RewriteInClean(p + s, c);
    case Stuck(_) =>
    case Rewritten(o, h, c') =>
      if fuel > 0 {
        ReducePrefix(p, o, c', fuel - 1);
      }
  }

  /**
   * When a group's contents reduce without `toplevel` output, the enclosing sequence first
   * reduces that group, in as many steps, and then carries on with what follows it.
   */
  lemma {:induction false} ReduceInside(p: seq<Frag>, d: Delim, items: seq<Frag>, t: seq<Frag>,
                                         c: nat, f1: nat, f2: nat)
    requires NoCalls(p)
    requires Reduce(items, c, f1, false).Ok? && Reduce(items, c, f1, false).value.hoist == []
    requires var x := Reduce(items, c, f1, false).value;
      Reduce(p + [Group(d, x.out)] + t, x.counter, f2, false).Ok?
    ensures var x := Reduce(items, c, f1, false).value;
      Reduce(p + [Group(d, items)] + t, c, f1 + f2, false) == Reduce(p + [Group(d, x.out)] + t, x.counter, f2, false)
    decreases f1
  {
    var x := Reduce(items, c, f1, false).value;
    match RewriteIn(items, c)
    case Clean =>
      FuelMono(p + [Group(d, items)] + t, c, f2, f1 + f2, false);
    case Rewritten(o, h, c') =>
      NestedStepOf(items, c, f1, o, h, c', x.out, x.counter);
      GroupInPrefix(p, d, items, t, c, o, c');
      ReduceInside(p, d, o, t, c', f1 - 1, f2);
      NestedStep(p + [Group(d, items)] + t, c, f1 + f2, p + [Group(d, o)] + t, c');
  }

  /** A nested step inside a group behind a call-free prefix is a step of the whole. */
  lemma GroupInPrefix(p: seq<Frag>, d: Delim, items: seq<Frag>, t: seq<Frag>, c: nat,
                      o: seq<Frag>, c': nat)
    requires NoCalls(p) && RewriteIn(items, c) == Rewritten(o, [], c')
    ensures RewriteIn(p + [Group(d, items)] + t, c) == Rewritten(p + [Group(d, o)] + t, [], c')
  {
    var big := [Group(d, items)] + t;
    assert big[0] == Group(d, items) && big[1..] == t;
    assert RewriteIn(big, c) == Rewritten([Group(d, o)] + t, [], c');
    RewritePrefix(p, big, c);
    Regroup(p, [Group(d, items)], t);
    Regroup(p, [Group(d, o)], t);
  }

  /** One nested step without `toplevel` output costs one unit of fuel. */
  lemma NestedStep(s: seq<Frag>, c: nat, fuel: nat, o: seq<Frag>, c1: nat)
    requires 0 < fuel && RewriteIn(s, c) == Rewritten(o, [], c1)
    ensures Reduce(s, c, fuel, false) == Reduce(o, c1, fuel - 1, false)
  {
    assert Rewrite(s, c, false) == Rewritten(o, [], c1);
    match Reduce(o, c1, fuel - 1, false)
    case Ok(x) => assert [] + x.hoist == x.hoist;
    case Err(_) =>
  }

  // ---------------------------------------------------------------------------------
  // Top-level items

  /** No top-level item ends inside `q`: it is the start of an item. */
  predicate OpenItem(q: seq<Frag>) {
    forall i | 0 <= i < |q| :: !EndsItem(q, i)
  }

  /** `p` is a series of whole call-free items: it is empty or ends where an item ends. */
  predicate WholeItems(p: seq<Frag>) {
    NoCalls(p) && (p == [] || EndsItem(p, |p| - 1))
  }

  /** What follows `p` does not change where an item ends inside `p`. */
  lemma EndsItemAppend(p: seq<Frag>, z: seq<Frag>, i: nat)
    requires i < |p|
    ensures EndsItem(p + z, i) == EndsItem(p, i)
  {
    assert (p + z)[i] == p[i];
    if 0 < i {
      assert (p + z)[i - 1] == p[i - 1];
    }
  }

  /** The program level passes over whole call-free items in front. */
  lemma {:induction false} TopPrefix(p: seq<Frag>, z: seq<Frag>, c: nat)
    requires WholeItems(p)
    ensures RewriteTop(p + z, c) == Behind(p, RewriteTop(z, c))
    decreases |p|
  {
    if p == [] {
      assert p + z == z;
      BehindNothing(RewriteTop(z, c));
    } else {
      var s := p + z;
      var k := ItemEnd(s, 0);
      EndsItemAppend(p, z, |p| - 1);
      assert k <= |p|;
      if k - 1 < |p| - 1 {
        EndsItemAppend(p, z, k - 1);
      }
      assert s[..k] == p[..k] && s[k..] == p[k..] + z;
      assert p == p[..k] + p[k..];
      NoCallsAppend(p[..k], p[k..]);
      var p' := p[k..];
      assert WholeItems(p') by {
        if p' != [] {
          assert p'[|p'| - 1] == p[|p| - 1];
          if |p'| > 1 {
            assert p'[|p'| - 2] == p[|p| - 2];
          } else {
            assert EndsItem(p, k - 1);
            assert !IsList(p[k - 1]);
          }
        }
      }
      TopPrefix(p', z, c);
      BehindBehind(p[..k], p', RewriteTop(z, c));
    }
  }

  /** The item that starts with the call-free `q` holds the invocation at the head of `z`. */
  lemma ItemStart(q: seq<Frag>, z: seq<Frag>, c: nat)
    requires NoCalls(q) && OpenItem(q) && z != [] && !NoCallIn(z[0])
    ensures !NoCalls((q + z)[..ItemEnd(q + z, 0)])
  {
    var k := ItemEnd(q + z, 0);
    if k <= |q| {
      EndsItemAppend(q, z, k - 1);
    }
    assert (q + z)[..k][|q|] == z[0];
  }

  /** When the first item holds an invocation, the program level places that step's output. */
  lemma TopCallItem(s: seq<Frag>, c: nat, o: seq<Frag>, h: seq<Frag>, c': nat)
    requires s != [] && !NoCalls(s[..ItemEnd(s, 0)]) && RewriteIn(s, c) == Rewritten(o, h, c')
    ensures RewriteTop(s, c) == Rewritten(h + o, [], c')
  {
  }

  /** The first item holds an invocation at the head of the program. */
  lemma TopFirstItem(s: seq<Frag>, c: nat, o: seq<Frag>, h: seq<Frag>, c': nat)
    requires s != [] && !NoCallIn(s[0]) && RewriteIn(s, c) == Rewritten(o, h, c')
    ensures RewriteTop(s, c) == Rewritten(h + o, [], c')
  {
    ItemStart([], s, c);
    assert [] + s == s;
    TopCallItem(s, c, o, h, c');
  }

  /** A program step behind whole call-free items, stated on its result. */
  lemma TopBehind(p: seq<Frag>, s: seq<Frag>, c: nat, o: seq<Frag>, c': nat)
    requires WholeItems(p) && RewriteTop(s, c) == Rewritten(o, [], c')
    ensures RewriteTop(p + s, c) == Rewritten(p + o, [], c')
  {
    TopPrefix(p, s, c);
  }

  /** The program step of an item that starts with the call-free `q` and then an invocation. */
  lemma ItemStep(q: seq<Frag>, z: seq<Frag>, c: nat, o: seq<Frag>, h: seq<Frag>, c': nat)
    requires NoCalls(q) && OpenItem(q) && z != [] && !NoCallIn(z[0])
    requires RewriteIn(z, c) == Rewritten(o, h, c')
    ensures RewriteTop(q + z, c) == Rewritten(h + (q + o), [], c')
  {
    ItemStart(q, z, c);
    RewritePrefix(q, z, c);
    TopCallItem(q + z, c, q + o, h, c');
  }

  /**
   * Placement of `toplevel` output: for an invocation in the item that follows the whole
   * items `p`, after the call-free start `q` of that item, the output goes between `p`
   * and `q`, at the start of the item, and the invocation is replaced where it stands.
   */
  lemma Placement(p: seq<Frag>, q: seq<Frag>, z: seq<Frag>, c: nat, o: seq<Frag>, h: seq<Frag>, c': nat)
    requires WholeItems(p) && NoCalls(q) && OpenItem(q)
    requires z != [] && !NoCallIn(z[0])
    requires RewriteIn(z, c) == Rewritten(o, h, c')
    ensures RewriteTop(p + q + z, c) == Rewritten(p + h + q + o, [], c')
  {
    ItemStep(q, z, c, o, h, c');
    TopBehind(p, q + z, c, h + (q + o), c');
    Regroup(p, q, z);
    Regroup4(p, h, q, o);
  }

  lemma Regroup(a: seq<Frag>, b: seq<Frag>, d: seq<Frag>)
    ensures a + b + d == a + (b + d)
  {
  }

  lemma Regroup4(a: seq<Frag>, b: seq<Frag>, d: seq<Frag>, e: seq<Frag>)
    ensures a + (b + (d + e)) == a + b + d + e
  {
  }

  /** A step without `toplevel` output is the same on the program level. */
  lemma {:induction false} TopWithoutHoist(s: seq<Frag>, c: nat)
    requires RewriteIn(s, c).Rewritten? && RewriteIn(s, c).hoist == []
    ensures RewriteTop(s, c) == RewriteIn(s, c)
    decreases |s|
  {
    var k := ItemEnd(s, 0);
    if NoCalls(s[..k]) {
      assert s == s[..k] + s[k..];
      RewritePrefix(s[..k], s[k..], c);
      TopWithoutHoist(s[k..], c);
    } else {
      assert [] + RewriteIn(s, c).out == RewriteIn(s, c).out;
    }
  }

  /** A reduction without `toplevel` output is the same on the program level. */
  lemma {:induction false} ReduceLift(s: seq<Frag>, c: nat, fuel: nat, out: seq<Frag>, c': nat)
    requires Reduce(s, c, fuel, false) == Ok(Reduced(out, [], c'))
    ensures Reduce(s, c, fuel, true) == Ok(Reduced(out, [], c'))
    decreases fuel
  {
    match RewriteIn(s, c)
    case Clean =>
      RewriteInClean(s, c);
      RewriteClean(s, c, true);
    case Rewritten(o, h, c1) =>
      NestedStepOf(s, c, fuel, o, h, c1, out, c');
      TopWithoutHoist(s, c);
      ReduceLift(o, c1, fuel - 1, out, c');
      TopStepOf(s, c, fuel, o, c1);
  }

  /** A nested reduction that leaves no `toplevel` output took a step that left none. */
  lemma NestedStepOf(s: seq<Frag>, c: nat, fuel: nat, o: seq<Frag>, h: seq<Frag>, c1: nat,
                     out: seq<Frag>, c': nat)
    requires RewriteIn(s, c) == Rewritten(o, h, c1)
    requires Reduce(s, c, fuel, false) == Ok(Reduced(out, [], c'))
    ensures 0 < fuel && h == [] && Reduce(o, c1, fuel - 1, false) == Ok(Reduced(out, [], c'))
  {
    assert Rewrite(s, c, false) == Rewritten(o, h, c1);
    var x := Reduce(o, c1, fuel - 1, false).value;
    assert h + x.hoist == [];
    assert |h + x.hoist| == |h| + |x.hoist|;
  }

  /** One program-level step without `toplevel` output costs one unit of fuel. */
  lemma TopStepOf(s: seq<Frag>, c: nat, fuel: nat, o: seq<Frag>, c1: nat)
    requires 0 < fuel && RewriteTop(s, c) == Rewritten(o, [], c1)
    ensures Reduce(s, c, fuel, true) == Reduce(o, c1, fuel - 1, true)
  {
    assert Rewrite(s, c, true) == Rewritten(o, [], c1);
    match Reduce(o, c1, fuel - 1, true)
    case Ok(x) => assert [] + x.hoist == x.hoist;
    case Err(_) =>
  }

  // ---------------------------------------------------------------------------------
  // Hygiene: every symbol in the program stays below the counter

  lemma AllBelowAppend(a: seq<Frag>, b: seq<Frag>, c: nat)
    requires AllBelow(a, c) && AllBelow(b, c)
    ensures AllBelow(a + b, c)
  {
    forall i | 0 <= i < |a + b| ensures Below((a + b)[i], c) {
      if i >= |a| {
        assert (a + b)[i] == b[i - |a|];
      }
    }
  }

  lemma AllBelowSlice(s: seq<Frag>, k: nat, c: nat)
    requires AllBelow(s, c) && k <= |s|
    ensures AllBelow(s[k..], c)
  {
    forall i | 0 <= i < |s| - k ensures Below(s[k..][i], c) {
      assert s[k..][i] == s[k + i];
    }
  }

  /** No macro's expansion brings in a symbol that is not below the counter afterwards. */
  lemma ExpandKeepsBelow(m: string, s: seq<Frag>, c: nat)
    requires m in Macros && AllBelow(s, c) && Expand(m, s, c).Ok?
    ensures var e := Expand(m, s, c).value; AllBelow(e.site, e.counter) && AllBelow(e.toplevel, e.counter)
  {
    if m == WithAllocation.Name { WithAllocation.KeepsBelow(s, c); }
    else if m == WithOpenFile.Name { WithOpenFile.KeepsBelow(s, c); }
    else if m == Lambda.Name { Lambda.KeepsBelow(s, c); }
    else if m == Lazy.DelayName || m == Lazy.ForceName { Lazy.KeepsBelow(s, c); }
    else if m == Tuple.Name { Tuple.KeepsBelow(s, c); }
    else { Adt.KeepsBelow(m, s, c); }
  }

  /** One nested step keeps every symbol below the counter. */
  lemma {:induction false} RewriteInKeepsBelow(s: seq<Frag>, c: nat)
    requires AllBelow(s, c) && RewriteIn(s, c).Rewritten?
    ensures var r := RewriteIn(s, c); AllBelow(r.out, r.counter) && AllBelow(r.hoist, r.counter)
  {
    AllBelowSlice(s, 1, c);
    if IsCall(s[0]) {
      var x := Expand(s[0].text, s[1..], c).value;
      ExpandKeepsBelow(s[0].text, s[1..], c);
      var after := s[1 + x.used..];
      AllBelowSlice(s, 1 + x.used, c);
      AllBelowMono(after, c, x.counter);
      AllBelowAppend(x.site, after, x.counter);
    } else if s[0].Group? && !RewriteIn(s[0].items, c).Clean? {
      assert Below(s[0], c);
      RewriteInKeepsBelow(s[0].items, c);
      var inner := RewriteIn(s[0].items, c);
      var g := Group(s[0].delim, inner.out);
      assert Below(g, inner.counter);
      AllBelowMono(s[1..], c, inner.counter);
      AllBelowAppend([g], s[1..], inner.counter);
    } else {
      RewriteInKeepsBelow(s[1..], c);
      var rest := RewriteIn(s[1..], c);
      assert Below(s[0], c);
      BelowMono(s[0], c, rest.counter);
      AllBelowAppend([s[0]], rest.out, rest.counter);
    }
  }

  /** One step keeps every symbol of the program below the counter. */
  lemma {:induction false} RewriteKeepsBelow(s: seq<Frag>, c: nat, top: bool)
    requires AllBelow(s, c) && Rewrite(s, c, top).Rewritten?
    ensures var r := Rewrite(s, c, top); AllBelow(r.out, r.counter) && AllBelow(r.hoist, r.counter)
    decreases |s|
  {
    if !top {
      RewriteInKeepsBelow(s, c);
    } else {
      var k := ItemEnd(s, 0);
      if NoCalls(s[..k]) {
        assert s == s[..k] + s[k..];
        AllBelowSlice(s, k, c);
        RewriteKeepsBelow(s[k..], c, true);
        var r := RewriteTop(s[k..], c);
        forall i | 0 <= i < k ensures Below(s[..k][i], r.counter) {
          BelowMono(s[i], c, r.counter);
        }
        AllBelowAppend(s[..k], r.out, r.counter);
      } else {
        RewriteInKeepsBelow(s, c);
        var r := RewriteIn(s, c);
        AllBelowAppend(r.hoist, r.out, r.counter);
      }
    }
  }

  /**
   * Repeated rewriting keeps every symbol below the counter: every name `@gensym` makes
   * later is new to the whole program, the output and the hoisted declarations included.
   */
  lemma {:induction false} ReduceKeepsBelow(s: seq<Frag>, c: nat, fuel: nat, top: bool)
    requires AllBelow(s, c) && Reduce(s, c, fuel, top).Ok?
    ensures var r := Reduce(s, c, fuel, top).value; AllBelow(r.out, r.counter) && AllBelow(r.hoist, r.counter)
    decreases fuel
  {
    match Rewrite(s, c, top)
    case Clean =>
    case Rewritten(o, h, c') =>
      RewriteKeepsBelow(s, c, top);
      ReduceKeepsBelow(o, c', fuel - 1, top);
      var x := Reduce(o, c', fuel - 1, top).value;
      AllBelowMono(h, c', x.counter);
      AllBelowAppend(h, x.hoist, x.counter);
  }

  /** A program written by hand holds no generated symbol; its expansion then only holds fresh ones. */
  lemma RunKeepsBelow(program: seq<Frag>, fuel: nat)
    requires AllBelow(program, 0) && Run(program, fuel).Ok?
    ensures AllBelow(Run(program, fuel).value, Reduce(program, 0, fuel, true).value.counter)
  {
    ReduceKeepsBelow(program, 0, fuel, true);
  }
}
