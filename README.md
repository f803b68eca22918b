# Magma's cmacro rules, modelled in Dafny

Magma is a library of C macros written for the cmacro preprocessor. Each macro is a
declarative rewrite rule: an ordered list of `case`s. Each case has three parts:

- a `match` pattern;
- a `template`, which replaces the invocation;
- an optional `toplevel` form, which is placed at file level.

This project models six rule files:

- `type/adt.c`: `recur_name`, `recur_def`, `data`, `construct`.
- `util/with_allocation.c`: `with_allocation`.
- `fn/lambda.c`: `lambda`.
- `util/with_open_file.c`: `with_open_file`.
- `fn/lazy.c`: `delay`, `force`.
- `type/tuple.c`: `tup`.

They are modelled as pure functions on a token tree, with a small driver that applies them
until no invocation is left. The model then proves what the rules promise.

- `tokens.dfy`: the token tree and what the rules share.
  - `Frag` is an atom, a string literal, a `()`/`[]`/`{}` group, or a generated symbol.
  - The capture kinds `ident`, `string`, `block` and `list`.
  - `@conc` (`Conc`), `@splice` (`Splice`) and `@gensym`/`@getsym` (`Gensym`, a symbol
    made from the macro name and a counter that every expansion takes and returns).
  - Occurrence counts and sizes of token trees.
- `shapes.dfy`: readers that recognise C statement shapes in a token sequence. Examples:
  `type* p = init`, `if (g) body`, a call, a function definition, a typedef, an assignment.
  Lemmas about the output are stated with these readers.
- One module per rule file: `with_allocation.dfy`, `with_open_file.dfy`, `lambda.dfy`,
  `lazy.dfy`, `tuple.dfy`, `adt.dfy`.
  - Each macro has `Match` functions, one per case, written out by capture kind, and an
    `Expand(s, c)` function.
  - `s` is the fragments after the macro's name. `c` is the symbol counter.
  - The result is an `Expansion(site, toplevel, used, counter)` or an error. The errors are:
    no case matches, or `@conc` was given something other than two atoms.
- `driver.dfy`: the macro table and the driver.
  - `Rewrite` expands the leftmost invocation: `RewriteIn` inside the program, `RewriteTop` on
    the program itself. `Reduce` repeats it with a fuel bound. `Run`
    expands a whole program from counter 0.
  - A case's `template` output replaces the invocation. Its `toplevel` output goes at the
    start of the top-level item that holds the invocation: the declaration or function
    definition it is part of.
  - A top-level item ends at a top-level `;`, or at a `{}` group right after a `()` group,
    which is the body of a function definition.
  - Invocations left in an output are expanded by later steps.
- `expansions.dfy`: what the driver makes of the rules over several steps.

Capture kinds are modelled as follows:

- `ident`: an identifier-shaped atom or a generated symbol.
- `string`: a string literal.
- `block`: a `{}` group.
- `list`: a `()` group.
- untagged: exactly one fragment.
- `rest`: all remaining items of the enclosing group.

A pattern consumes a prefix of what follows the macro name. The first case that matches
wins.

## Model

| member | source | states |
|---|---|---|
| Tokens.Conc | type/adt.c:7 | `@conc` succeeds exactly when both operands are atoms, and then gives the atom of the two texts joined, first operand first |
| Tokens.Splice | fn/lambda.c:10 | `@splice` gives the items that, put back in parentheses, are the group |
| Tokens.Gensym | type/adt.c:50 | `@gensym` at counter c gives an identifier that is not below c, so it occurs nowhere in a program whose symbols are below c, and is below c + 1 |
| WithAllocation.MatchSized | util/with_allocation.c:4-5 | a match of the three-argument case has an identifier pointer name and a block body, and the call is exactly `(ptr, type, size) body` |
| WithAllocation.MatchUnsized | util/with_allocation.c:18-19 | a match of the two-argument case has an identifier pointer name and a block body, and the call is exactly `(ptr, type) body` |
| WithAllocation.MatchSizedComplete | util/with_allocation.c:4-5 | every well-kinded three-argument call is matched, with its own captures |
| WithAllocation.MatchUnsizedComplete | util/with_allocation.c:18-19 | every well-kinded two-argument call is matched, with its own captures |
| WithAllocation.Expand | util/with_allocation.c:1-26 | the expansion succeeds exactly when one of the two cases matches; otherwise the error is "no matching case"; it consumes the argument group and the body, has no `toplevel` output and generates no symbol |
| WithAllocation.SizedCall | util/with_allocation.c:7-14 | a three-argument call expands to the one allocation block |
| WithAllocation.UnsizedCallDelegates | util/with_allocation.c:16-24 | a two-argument call expands to a `with_allocation` call with the same pointer, type and body and size `1`, and that call expands to the allocation block with size `1` |
| WithAllocation.CasesDisjoint | util/with_allocation.c:3-19 | no call matches both cases |
| WithAllocation.KindsRequired | util/with_allocation.c:4-19 | a pointer name that is not an identifier, or a body that is not a block, matches no case |
| WithAllocation.ScopeShape | util/with_allocation.c:8-13 | the block reads as `type* p = malloc(sizeof(type) * size);`, then `if (p) body`, then `free(p);`, in that order, with the same `p` in all three |
| WithAllocation.BodyOnce | util/with_allocation.c:10-11 | the body occurs in the block once as the guarded statement, and elsewhere only inside the type and size |
| WithAllocation.KeepsBelow | util/with_allocation.c:7-24 | an expansion brings in no generated symbol that was not already there |
| WithOpenFile.Match | util/with_open_file.c:4-5 | a match has an identifier stream name, two string literals and a block body, and the call is exactly `(stream, path, direction) body` |
| WithOpenFile.MatchComplete | util/with_open_file.c:4-5 | every well-kinded call is matched, with its own captures |
| WithOpenFile.Expand | util/with_open_file.c:1-16 | the expansion succeeds exactly when the case matches; otherwise the error is "no matching case"; it consumes two fragments and generates no symbol |
| WithOpenFile.WellKindedCall | util/with_open_file.c:7-14 | a well-kinded call expands to the one scope block |
| WithOpenFile.KindsRequired | util/with_open_file.c:4 | a stream name that is not an identifier, or a path or direction that is not a string literal, or a body that is not a block, matches no case |
| WithOpenFile.ScopeShape | util/with_open_file.c:8-13 | the block reads as `FILE* s = fopen(path, direction);`, then `if (s) body`, then `fclose(s);`, with the same `s` in all three; `fopen` gets the path first and the direction second, unchanged |
| WithOpenFile.BodyOnce | util/with_open_file.c:10-11 | the body occurs in the block exactly once |
| WithOpenFile.KeepsBelow | util/with_open_file.c:7-14 | an expansion brings in no generated symbol that was not already there |
| Lambda.MatchList | fn/lambda.c:4 | a match of the first case has a `list` return type, and the call is exactly `args -> ret body` |
| Lambda.MatchPlain | fn/lambda.c:15 | a match of the second case is exactly `args -> ret body` |
| Lambda.MatchComplete | fn/lambda.c:4-15 | the second case matches every `args -> ret body`; the first case matches it exactly when `ret` is a list |
| Lambda.Expand | fn/lambda.c:1-24 | the expansion succeeds exactly when the second fragment is `->` (and there are four); it consumes four fragments and generates one symbol; its `toplevel` output reads as a function definition whose name is that symbol, whose parameters and body are the captured ones, and its site output is exactly that name |
| Lambda.ListReturnType | fn/lambda.c:4-10 | with a list return type the first case applies although the second also matches: the defined function's return type is the list's items without the parentheses |
| Lambda.PlainReturnType | fn/lambda.c:15-21 | any other return type takes the second case and appears unchanged as the defined function's return type |
| Lambda.DistinctNames | fn/lambda.c:10-21 | two invocations expanded one after the other leave different names |
| Lambda.KeepsBelow | fn/lambda.c:7-21 | the symbol an expansion generates is new: every symbol in the output is below the new counter |
| Lazy.DelayAsWritten | fn/lazy.c:3-12 | the template as written: any one fragment matches, nothing else is consumed, and the output starts with a `lambda` invocation |
| Lazy.Delay | fn/lazy.c:3-12 | the corrected template (see Findings) has the same contract; it is the one the driver uses |
| Lazy.Force | fn/lazy.c:14-23 | any one fragment matches, and the output reads as a call of it with one empty argument list |
| Lazy.WrittenExprTwice | fn/lazy.c:9 | the expression occurs exactly twice in `delay`'s output as written |
| Lazy.ExprTwice | fn/lazy.c:9 | the expression occurs exactly twice in the corrected output |
| Lazy.WrittenMisparses | fn/lazy.c:9 | as written, the nested `lambda` consumes four of the template's five fragments, defines a function whose body is `(e)` and not a block, and leaves `{ return e; }` behind |
| Lazy.DelayThunk | fn/lazy.c:1-9 | corrected, the nested `lambda` consumes the whole template and defines the thunk `typeof(e) g () { return e; }`, with its site output exactly `g` |
| Lazy.ForceFitsThunk | fn/lazy.c:9-20 | forcing that thunk calls it by its name with exactly its (empty) parameter pieces |
| Lazy.KeepsBelow | fn/lazy.c:9-20 | neither macro brings in a generated symbol |
| Tuple.Match | type/tuple.c:4 | a match is exactly `(a, b)` |
| Tuple.MatchComplete | type/tuple.c:4 | every `(a, b)` is matched, with its own captures |
| Tuple.Expand | type/tuple.c:1-10 | the expansion succeeds exactly when the pattern matches; it consumes one fragment and has no `toplevel` output |
| Tuple.StructShape | type/tuple.c:7 | the output is one anonymous struct whose members are `a first;` and then `b second;`, so `first` has type `a` and `second` type `b` |
| Tuple.TwoArguments | type/tuple.c:4 | when no argument is empty, a call matches exactly when its group splits at commas into two one-fragment pieces |
| Tuple.EachOnce | type/tuple.c:4-7 | each argument is placed once, plus as often as it occurs in the other |
| Tuple.Determined | type/tuple.c:7 | the output depends only on `a` and `b`, not on the counter |
| Tuple.KeepsBelow | type/tuple.c:7 | an expansion brings in no generated symbol |
| Adt.TagsAt | type/adt.c:7 | the i-th tag is the type name joined with the i-th definition's name, followed by a comma |
| Adt.MembersStatements | type/adt.c:27 | the reference member list reads as k statements, the i-th of which is `struct name { body } name` for the i-th definition |
| Adt.MemberTypeAt | type/adt.c:27 | for the first definition of a name, the union member of that name has type `struct name { body }` |
| Adt.MatchNameOne | type/adt.c:4 | a match of `recur_name`'s first case is exactly one definition with a block body |
| Adt.MatchNameMore | type/adt.c:12 | a match of the second case is a first definition with a block body followed by the rest |
| Adt.MatchNameComplete | type/adt.c:4-12 | the second case matches every such call; the first matches it exactly when nothing follows the first definition |
| Adt.NameExpand | type/adt.c:1-19 | no match gives "no matching case"; a single definition takes the first case, which succeeds exactly when type and name are atoms and otherwise reports the failed concatenation; more definitions always succeed; nothing is hoisted and no symbol generated |
| Adt.NameLast | type/adt.c:2-9 | one definition expands to exactly its tag and a comma |
| Adt.NameStep | type/adt.c:10-18 | more definitions expand to `recur_name` on the first alone, then `recur_name` on the type and the rest |
| Adt.NameShrinks | type/adt.c:12-16 | both calls the second case leaves have strictly smaller argument groups |
| Adt.MatchDefOne | type/adt.c:24 | a match of `recur_def`'s first case is exactly one definition with a block body |
| Adt.MatchDefMore | type/adt.c:32 | a match of the second case is a first definition followed by the rest |
| Adt.MatchDefComplete | type/adt.c:24-32 | the second case matches every such call; the first matches it exactly when nothing follows the first definition |
| Adt.DefExpand | type/adt.c:21-38 | the expansion succeeds exactly when the second case's pattern matches; a single definition gives the one statement `struct name def name` |
| Adt.DefLast | type/adt.c:22-29 | one definition expands to exactly its member declaration |
| Adt.DefStep | type/adt.c:30-37 | more definitions expand to `recur_def` on the first alone, then on the rest |
| Adt.DefShrinks | type/adt.c:32-35 | both calls the second case leaves have strictly smaller argument groups |
| Adt.DataExpand | type/adt.c:40-60 | the expansion succeeds exactly when a name is followed by a block; the site output is empty (`template { }`), and one symbol is generated |
| Adt.DataShape | type/adt.c:48-58 | the `toplevel` output is an enum typedef named by the generated symbol, around a `recur_name` call over the name and definitions, then a struct typedef named after the type whose `type` field has exactly that symbol as its type |
| Adt.MatchConstruct | type/adt.c:65 | a match is exactly `(name, type -> subtype) assignments;` |
| Adt.MatchConstructComplete | type/adt.c:65 | every such call is matched, with its own captures |
| Adt.ConstructExpand | type/adt.c:62-72 | no match gives "no matching case"; a match succeeds exactly when type and subtype are atoms, otherwise reports the failed concatenation; three fragments are consumed |
| Adt.ConstructAssigns | type/adt.c:68-69 | the output is two assignments: `name.type` gets the joined tag, and `name.subtype` gets `(struct subtype) assignments`; no other target |
| Adt.ConstructTemplate | type/adt.c:67-70 | the output is the template with the joined tag in place |
| Adt.ConstructAgreesWithData | type/adt.c:7-69 | the tag `construct` assigns for type T and definition i is the i-th tag of T's enum, and the member it assigns is the union member for i, of type `struct name { body }` |
| Adt.KeepsBelow | type/adt.c:1-72 | `data` advances the counter by exactly one and the other three rules leave it unchanged; no expansion brings in a symbol that is not below the new counter |
| Driver.Expand | fn/lazy.c:1 | the macro table, which holds `lambda` because lazy.c imports it: an expansion never consumes more than it is given, and the counter never goes down |
| Driver.Rewrite | fn/lambda.c:7-10 | driver step that `lambda`'s `toplevel` output needs: the counter never goes down, and on the program level no output is left pending (where it goes is stated by `Driver.Placement`) |
| Driver.ItemEnd | fn/lambda.c:7-10 | driver support for placing `toplevel` output: the top-level item that holds a position ends at the first `;`, or the first `{ }` right after a `( )` (a function body), from there on, or at the end of the program |
| Driver.RewriteClean | type/adt.c:15-16 | driver property that the calls left by `recur_name` need: a step finds nothing to do exactly when no invocation is left anywhere, on the program level and inside it |
| Driver.Placement | fn/lambda.c:7-10 | driver placement that `lambda`'s `toplevel` output needs: an invocation in the item after the whole items `p`, behind the call-free start `q` of that item, is replaced where it stands, and its `toplevel` output goes between `p` and `q`, so a generated function is defined before the declaration or function that uses it |
| Driver.Reduce | type/adt.c:15-35 | driver that expands the calls the recursive rules leave: a finished reduction leaves no invocation and nothing pending at top level |
| Driver.Run | type/adt.c:15-35 | driver that expands the calls the recursive rules leave: a finished program holds no invocation |
| Driver.RunIdempotent | type/adt.c:15-16 | driver property: expanding an expanded program again, on any fuel, changes nothing |
| Driver.ReduceKeepsBelow | type/adt.c:50 | driver property that `@gensym` needs to give fresh names: any number of steps keeps every symbol of the program below the counter, so every symbol made later (in `data` or `lambda`) is new to the whole program, hoisted output included |
| Driver.RunKeepsBelow | type/adt.c:50 | driver property that `@gensym` needs to give fresh names: a program without generated symbols expands to one whose symbols are all below the final counter |
| Expansions.Hoist | fn/lambda.c:7-10 | an invocation inside a group of a top-level item (a function body, say), after the earlier whole items `p` and the call-free start `q` of its item (the function's header): its site output replaces it in the group, and its `toplevel` output goes at the start of the item, between `p` and `q` |
| Expansions.HoistInItem | fn/lambda.c:7-10 | an invocation standing directly in a top-level item (a declaration's initializer, say) is replaced by its site output, and its `toplevel` output goes at the start of the item |
| Expansions.NameFullExact | type/adt.c:1-18 | `recur_name (T d1 ... dk)` reduces in exactly 2k - 1 steps to the k tags in order, with no output left pending |
| Expansions.NameFull | type/adt.c:1-18 | with any fuel at least 2k - 1, the result is exactly those k tags |
| Expansions.DefFullExact | type/adt.c:21-37 | `recur_def (d1 ... dk)` reduces in exactly 2k - 1 steps to the k member declarations in order |
| Expansions.DefFull | type/adt.c:21-37 | with any fuel at least 2k - 1, the result is exactly those k members |
| Expansions.DataFullExact | type/adt.c:40-60 | `data T { d1 ... dk }` at top level reduces in exactly 4k - 1 steps to the enum typedef of the k tags, named by one fresh symbol, and the struct typedef `T` whose union holds the k members |
| Expansions.DataFull | type/adt.c:40-60 | with any fuel at least 4k - 1, the result is exactly those declarations |
| Expansions.DataReading | type/adt.c:48-58 | the expanded declarations read as an enum typedef of exactly the tags, named `g`, and a struct typedef named `T` whose `type` field has type `g` |
| Expansions.AllocationDelegates | util/with_allocation.c:16-24 | under the driver, the two-argument form takes one step to become the three-argument form with size `1`, and from there both reduce identically |
| Expansions.LambdaHoisted | fn/lambda.c:7-21 | a `lambda` inside a function body (or another group) of a top-level item leaves the generated name in place, and the function of that name is defined at the start of that item, before the function's header and after the items before it |
| Expansions.LambdaInItem | fn/lambda.c:7-21 | a `lambda` standing directly in a top-level declaration, as its initializer say, leaves the generated name in place, and the function of that name is defined before the declaration |
| Expansions.LambdaInMain | fn/lambda.c:18-21 | an instance: `int main () { return lambda (int x) -> int { return x; }; }` becomes `int g (int x) { return x; } int main () { return g; }` in one step, with `g` fresh |
| Expansions.DelayHoisted | fn/lazy.c:9 | `delay e` inside a function body (or another group) of a top-level item takes two steps: the thunk `typeof(e) g () { return e; }` is defined at the start of the item, before its header, and `g` stands where `delay e` stood |

## Left out

- The cmacro engine itself is not part of this model: its lexer, parser, rule-file reader
  and printer. The driver here is the minimum needed to apply the rules, and the
  capture-kind meanings listed above are assumptions about that engine.
- The engine's exact choice of where `template` and `toplevel` output go. The rule files
  only show that `lambda`'s site output names the function its `toplevel` defines. So both
  outputs are kept: the site output in place, the `toplevel` output at the start of the
  top-level item that holds the invocation. A reading that keeps only one of them would
  leave that name undefined.
- Top-level items are told apart by two marks only: a top-level `;`, and a `{}` group right
  after a `()` group. C's full declaration grammar is the engine's parser, which is not part
  of this model; preprocessor lines, K&R-style definitions and `extern "C" { }` blocks are
  not recognised as item boundaries.
- `list` is modelled as a `()` group only, and an untagged capture as exactly one fragment.
- `cmacro_import "lambda.c"` (fn/lazy.c:1) loads a file. It is I/O, so it is modelled as
  `lambda` being in the macro table.
- What the generated C means at run time is not modelled: `malloc`/`free`,
  `fopen`/`fclose`, `sizeof`, `typeof`, struct layout.
- Whitespace, formatting and the printed text of the output. Generated symbols are kept as
  their own token kind, so how they are spelt is not modelled.
- Parallel expansion across files is out of scope: it is concurrency, and no rule depends on it.
- Driver.Reduce: expansions are bounded by a fuel parameter, so a reduction that needs more
  steps reports "expansion depth exceeded". Termination of the two recursive rules is
  proved instead by `Adt.NameShrinks`/`Adt.DefShrinks` and by the exact step counts in
  `Expansions`.
- Adt.DefExpand: the statement reading of a single definition's member needs the
  member name to differ from `;`; the untagged capture allows `;`, and then the reading
  differs.
- Expansions.NameFull, Expansions.DefFull and Expansions.DataFull: these are stated for
  definitions whose names and bodies hold no macro invocation and whose tags are not macro
  names. With invocations inside, the driver would expand those too.

## Findings

| source | as written | input that shows it | evidently intended | confidence | as-written member | corrected member |
|---|---|---|---|---|---|---|
| fn/lazy.c:9 | `delay`'s template writes the return type as `typeof($(expr))`, two fragments, where `lambda`'s untagged `ret` takes one | `delay x`: the nested `lambda () -> typeof (x) { return x; }` matches `lambda`'s second case with `ret = typeof` and `body = (x)`, and leaves the block `{ return x; }` behind | `lambda () -> (typeof(x)) { return x; }`, whose `list` return type takes `lambda`'s first case and is spliced, giving the thunk `typeof(x) g () { return x; }` | low, not executed; depends on two assumptions about the engine: an untagged capture takes exactly one fragment, and a case may match a prefix of what follows the macro name (if a case had to match the whole invocation, the nested `lambda` would match no case and the result would be "no matching case") | Lazy.WrittenMisparses | Lazy.DelayThunk |
