/**
 * Readers for the C constructs that the templates build: statement lists, pointer
 * declarations, calls, guarded scopes, function definitions, typedefs, struct fields and
 * assignments. They are written independently of the templates, so that a lemma "reading
 * the output gives back the parts that went in" says what an expansion means.
 */
module Shapes {
  import opened Tokens

  /** Cuts `s` at every top-level `sep`; the pieces keep their order and never hold `sep`. */
  function SplitAt(s: seq<Frag>, sep: Frag): (r: seq<seq<Frag>>)
    ensures |r| >= 1
    ensures forall i | 0 <= i < |r| :: sep !in r[i]
  {
    if s == [] then [[]]
    else
      var tail := SplitAt(s[1..], sep);
      if s[0] == sep then [[]] + tail else [[s[0]] + tail[0]] + tail[1..]
  }

  /** Puts the pieces back together with `sep` between them. */
  function Join(ps: seq<seq<Frag>>, sep: Frag): seq<Frag>
    requires |ps| >= 1
  {
    if |ps| == 1 then ps[0] else ps[0] + [sep] + Join(ps[1..], sep)
  }

  lemma {:induction false} JoinConsHead(x: Frag, ps: seq<seq<Frag>>, sep: Frag)
    requires |ps| >= 1
    ensures Join([[x] + ps[0]] + ps[1..], sep) == [x] + Join(ps, sep)
  {
    var qs := [[x] + ps[0]] + ps[1..];
    assert qs[1..] == ps[1..];
  }

  /** Splitting loses nothing: joining the pieces again gives back the input. */
  lemma {:induction false} SplitJoin(s: seq<Frag>, sep: Frag)
    ensures Join(SplitAt(s, sep), sep) == s
  {
    if s != [] {
      var tail := SplitAt(s[1..], sep);
      SplitJoin(s[1..], sep);
      if s[0] == sep {
        assert ([[]] + tail)[1..] == tail;
      } else {
        JoinConsHead(s[0], tail, sep);
      }
    }
  }

  lemma {:induction false} SplitWithout(a: seq<Frag>, sep: Frag)
    requires sep !in a
    ensures SplitAt(a, sep) == [a]
  {
    if a != [] {
      assert sep !in a[1..];
      SplitWithout(a[1..], sep);
      assert [a[0]] + a[1..] == a;
    }
  }

  lemma {:induction false} SplitAfter(a: seq<Frag>, sep: Frag, b: seq<Frag>)
    requires sep !in a
    ensures SplitAt(a + [sep] + b, sep) == [a] + SplitAt(b, sep)
  {
    var s := a + [sep] + b;
    if a == [] {
      assert s[0] == sep && s[1..] == b;
    } else {
      assert s[0] == a[0] && s[1..] == a[1..] + [sep] + b;
      SplitAfter(a[1..], sep, b);
      assert [a[0]] + a[1..] == a;
    }
  }

  /** The statements of a block body: the pieces between top-level `;` tokens. */
  function Statements(s: seq<Frag>): seq<seq<Frag>> {
    SplitAt(s, Semi)
  }

  datatype PointerDecl = PointerDecl(ty: Frag, name: Frag, init: seq<Frag>)

  /** Reads the declaration `T * name = init`. */
  function ReadPointerDecl(d: seq<Frag>): Option<PointerDecl> {
    if |d| >= 4 && d[1] == Atom("*") && d[3] == Equals then Some(PointerDecl(d[0], d[2], d[4..]))
    else None
  }

  datatype Call = Call(callee: Frag, args: seq<seq<Frag>>)

  /** Reads the call `callee ( a1 , ... , an )`. */
  function ReadCall(s: seq<Frag>): Option<Call> {
    if |s| == 2 && IsList(s[1]) then Some(Call(s[0], SplitAt(s[1].items, Comma))) else None
  }

  /**
   * A guarded scope `{ decl ; if ( guard ) guarded release ( released ) ; }`: a
   * declaration, a statement run only when `guard` holds, and a release call.
   */
  datatype Scope = Scope(decl: seq<Frag>, guard: Frag, guarded: Frag, release: Frag, released: Frag)

  function ReadScope(f: Frag): Option<Scope> {
    if !IsBlock(f) || |f.items| < 7 then None
    else
      var n := |f.items| - 7;
      var t := f.items[n..];
      if t[0] == Semi && t[1] == Atom("if") && IsList(t[2]) && |t[2].items| == 1
         && IsList(t[5]) && |t[5].items| == 1 && t[6] == Semi
      then Some(Scope(f.items[..n], t[2].items[0], t[3], t[4], t[5].items[0]))
      else None
  }

  /** A function definition `ret... name params body`. */
  datatype Function = Function(ret: seq<Frag>, name: Frag, params: Frag, body: Frag)

  function ReadFunction(d: seq<Frag>): Option<Function> {
    if |d| < 3 then None
    else
      var n := |d|;
      Some(Function(d[..n - 3], d[n - 3], d[n - 2], d[n - 1]))
  }

  /** The type of the member declared as `T... field ;` in a struct body, if any. */
  function FieldType(body: seq<Frag>, field: Frag): Option<seq<Frag>> {
    FindField(Statements(body), field)
  }

  function FindField(ds: seq<seq<Frag>>, field: Frag): Option<seq<Frag>> {
    if ds == [] then None
    else if |ds[0]| >= 2 && ds[0][|ds[0]| - 1] == field then Some(ds[0][..|ds[0]| - 1])
    else FindField(ds[1..], field)
  }

  datatype Typedef = Typedef(kind: Frag, body: seq<Frag>, name: Frag)

  /** Reads the statement `typedef kind { body } name`. */
  function ReadTypedef(d: seq<Frag>): Option<Typedef> {
    if |d| == 4 && d[0] == Atom("typedef") && IsBlock(d[2]) then Some(Typedef(d[1], d[2].items, d[3]))
    else None
  }

  datatype Assign = Assign(target: seq<Frag>, value: seq<Frag>)

  /** Reads the statement `target = value` (exactly one top-level `=`). */
  function ReadAssign(d: seq<Frag>): Option<Assign> {
    var p := SplitAt(d, Equals);
    if |p| == 2 then Some(Assign(p[0], p[1])) else None
  }
}
