/**
 * The token tree that the macro rules of this repository rewrite, the capture kinds
 * their patterns use, the built-in template operators (`@conc`, `@splice`, `@gensym`)
 * and the measures the lemmas about expansion are stated with.
 */
module Tokens {

  datatype Option<T> = None | Some(value: T)

  /** The three bracket kinds: `( )`, `[ ]` and `{ }`. */
  datatype Delim = Paren | Bracket | Brace

  /**
   * One node of the token tree. A `Sym` is an identifier produced by `@gensym`: it is a
   * token kind of its own, so it can never be equal to an identifier written by the user.
   */
  datatype Frag =
    | Atom(text: string)
    | Str(text: string)
    | Group(delim: Delim, items: seq<Frag>)
    | Sym(owner: string, id: nat)

  datatype Error =
    | NoMatchingCase(macro: string)
    | BadConcatenation(macro: string)
    | ExpansionDepthExceeded

  datatype Result<T> = Ok(value: T) | Err(error: Error)

  /**
   * The outcome of expanding one invocation: `site` replaces the invocation, `toplevel` is
   * the case's `toplevel` output, `used` is the number of fragments after the macro name
   * that the pattern consumed and `counter` is the gensym counter afterwards.
   */
  datatype Expansion = Expansion(site: seq<Frag>, toplevel: seq<Frag>, used: nat, counter: nat)

  const Comma := Atom(",")
  const Semi := Atom(";")
  const Arrow := Atom("->")
  const Equals := Atom("=")

  // ---------------------------------------------------------------------------------
  // Capture kinds

  predicate IsIdentStart(ch: char) {
    ('a' <= ch <= 'z') || ('A' <= ch <= 'Z') || ch == '_'
  }

  predicate IsIdentChar(ch: char) {
    IsIdentStart(ch) || ('0' <= ch <= '9')
  }

  predicate IsIdentText(t: string) {
    |t| > 0 && IsIdentStart(t[0]) && forall i | 1 <= i < |t| :: IsIdentChar(t[i])
  }

  /** `ident`: one identifier token, written by the user or generated. */
  predicate IsIdent(f: Frag) {
    (f.Atom? && IsIdentText(f.text)) || f.Sym?
  }

  /** `string`: one string literal. */
  predicate IsString(f: Frag) {
    f.Str?
  }

  /** `block`: one group in braces. */
  predicate IsBlock(f: Frag) {
    f.Group? && f.delim == Brace
  }

  /** `list`: one group in parentheses. */
  predicate IsList(f: Frag) {
    f.Group? && f.delim == Paren
  }

  // ---------------------------------------------------------------------------------
  // Built-in template operators

  /** `@conc a b`: pastes two atoms into one; any other operand is an error (`None`). */
  function Conc(a: Frag, b: Frag): (r: Option<Frag>)
    ensures r.Some? <==> a.Atom? && b.Atom?
    ensures r.Some? ==> r.value.Atom? && |r.value.text| == |a.text| + |b.text|
    ensures r.Some? ==> r.value.text[..|a.text|] == a.text && r.value.text[|a.text|..] == b.text
  {
    if a.Atom? && b.Atom? then Some(Atom(a.text + b.text)) else None
  }

  /** `@splice l`: the items of a parenthesised list, without its delimiters. */
  function Splice(l: Frag): (r: seq<Frag>)
    requires IsList(l)
    ensures Group(Paren, r) == l
  {
    l.items
  }

  /**
   * `@gensym m` when the driver's counter is `c`: a symbol that is not below `c`, so it
   * occurs in no program whose symbols are all below `c`, and is below `c + 1`.
   */
  function Gensym(owner: string, c: nat): (r: Frag)
    ensures IsIdent(r) && !Below(r, c) && Below(r, c + 1)
  {
    Sym(owner, c)
  }

  // ---------------------------------------------------------------------------------
  // Measures

  function Size(f: Frag): nat {
    match f
    case Group(_, items) => 1 + SizeIn(items)
    case _ => 1
  }

  function SizeIn(s: seq<Frag>): nat {
    if s == [] then 0 else Size(s[0]) + SizeIn(s[1..])
  }

  /** Every generated symbol in `f` has an id below `c`. */
  predicate Below(f: Frag, c: nat) {
    match f
    case Sym(_, id) => id < c
    case Group(_, items) => AllBelow(items, c)
    case _ => true
  }

  predicate AllBelow(s: seq<Frag>, c: nat) {
    forall i | 0 <= i < |s| :: Below(s[i], c)
  }

  lemma {:induction false} BelowMono(f: Frag, c: nat, d: nat)
    requires Below(f, c) && c <= d
    ensures Below(f, d)
  {
    match f
    case Group(_, items) => AllBelowMono(items, c, d);
    case _ =>
  }

  lemma {:induction false} AllBelowMono(s: seq<Frag>, c: nat, d: nat)
    requires AllBelow(s, c) && c <= d
    ensures AllBelow(s, d)
  {
    forall i | 0 <= i < |s| ensures Below(s[i], d) {
      BelowMono(s[i], c, d);
    }
  }

  /** The number of times `x` occurs in `f` as a subtree (`f` itself included). */
  function Occurrences(x: Frag, f: Frag): nat {
    (if f == x then 1 else 0) + (if f.Group? then OccurrencesIn(x, f.items) else 0)
  }

  function OccurrencesIn(x: Frag, s: seq<Frag>): nat {
    if s == [] then 0 else Occurrences(x, s[0]) + OccurrencesIn(x, s[1..])
  }

  lemma {:induction false} OccurrencesInAppend(x: Frag, a: seq<Frag>, b: seq<Frag>)
    ensures OccurrencesIn(x, a + b) == OccurrencesIn(x, a) + OccurrencesIn(x, b)
  {
    if a == [] {
      assert a + b == b;
    } else {
      assert (a + b)[0] == a[0];
      assert (a + b)[1..] == a[1..] + b;
      OccurrencesInAppend(x, a[1..], b);
    }
  }

  lemma OccurrencesInSingle(x: Frag, f: Frag)
    ensures OccurrencesIn(x, [f]) == Occurrences(x, f)
  {
    assert [f][1..] == [];
  }

  lemma OccurrencesIn2(x: Frag, a: Frag, b: Frag)
    ensures OccurrencesIn(x, [a, b]) == Occurrences(x, a) + Occurrences(x, b)
  {
    assert [a, b][1..] == [b];
    OccurrencesInSingle(x, b);
  }

  lemma OccurrencesIn3(x: Frag, a: Frag, b: Frag, c: Frag)
    ensures OccurrencesIn(x, [a, b, c]) == Occurrences(x, a) + Occurrences(x, b) + Occurrences(x, c)
  {
    assert [a, b, c][1..] == [b, c];
    OccurrencesIn2(x, b, c);
  }

  lemma OccurrencesIn4(x: Frag, a: Frag, b: Frag, c: Frag, d: Frag)
    ensures OccurrencesIn(x, [a, b, c, d])
         == Occurrences(x, a) + Occurrences(x, b) + Occurrences(x, c) + Occurrences(x, d)
  {
    assert [a, b, c, d][1..] == [b, c, d];
    OccurrencesIn3(x, b, c, d);
  }

  lemma {:induction false} SizeInAppend(a: seq<Frag>, b: seq<Frag>)
    ensures SizeIn(a + b) == SizeIn(a) + SizeIn(b)
  {
    if a == [] {
      assert a + b == b;
    } else {
      assert (a + b)[0] == a[0];
      assert (a + b)[1..] == a[1..] + b;
      SizeInAppend(a[1..], b);
    }
  }

  /** A member of a sequence is no larger than the sequence. */
  lemma {:induction false} SizeInMember(s: seq<Frag>, k: nat)
    requires k < |s|
    ensures Size(s[k]) <= SizeIn(s)
  {
    if k > 0 {
      SizeInMember(s[1..], k - 1);
    }
  }

  /** A fragment never occurs inside one of its own members. */
  lemma NotInsideMember(x: Frag, d: Delim, s: seq<Frag>, k: nat)
    requires k < |s| && s[k] == x
    ensures Group(d, s) != x
  {
    SizeInMember(s, k);
  }

  /** A fragment cannot occur inside anything smaller than itself. */
  lemma {:induction false} AbsentFromSmaller(x: Frag, f: Frag)
    requires Size(f) < Size(x)
    ensures Occurrences(x, f) == 0
  {
    if f.Group? {
      AbsentFromSmallerIn(x, f.items);
    }
  }

  lemma {:induction false} AbsentFromSmallerIn(x: Frag, s: seq<Frag>)
    requires SizeIn(s) < Size(x)
    ensures OccurrencesIn(x, s) == 0
  {
    if s != [] {
      AbsentFromSmaller(x, s[0]);
      AbsentFromSmallerIn(x, s[1..]);
    }
  }

  /** Every fragment occurs in itself exactly once. */
  lemma OccursOnceInItself(x: Frag)
    ensures Occurrences(x, x) == 1
  {
    if x.Group? {
      AbsentFromSmallerIn(x, x.items);
    }
  }
}
