# composing: function and expression composition, modelled in Dafny

The `composing` crate is two `macro_rules!` macros in `src/lib.rs`:

- `compose_expr!` rewrites a flat list of expressions into one nested call.
  With `,` separators the head wraps the composed tail (`a, b, c, d` gives
  `a(b(c(d)))`); with `=>` separators the first two items collapse into
  `second(first)` and the rule runs again on the shorter list
  (`a => b => c => d` gives `d(c(b(a)))`). One expression stays as it is, and
  the empty list expands to nothing.
- `compose_fn!` turns a list of unary functions into one closure: `|x| x` for
  no functions, otherwise `|x| compose_expr!(f1, ..., fn, x)` or
  `|x| compose_expr!(x => f1 => ... => fn)`.

The model has two levels.

- **Syntax** (`expr_composer.dfy`, module `ExprComposer`). `Term<A>` holds
  expressions: an opaque fragment `Atom`, or a call `App(fn, arg)`. A
  `Direction` tag stands for the separator, so a list with mixed separators
  cannot be written. `ComposeRtl` and `ComposeLtr` follow the macro arms one
  for one. `ComposeExpr` is the whole macro and returns `None` for the empty
  list. `UnnestRtl` and `UnnestLtr` read a nesting back into a list; the
  round-trip lemmas use them to pin down the exact shape of each expansion.
- **Semantics** (`fn_composer.dfy`, module `FnComposer`). `ExpandFn` is the
  syntactic expansion of `compose_fn!` into a `Closure`. `Sym` gives the atoms
  meaning: `Param` is the fresh parameter `x`, and `Fun(f)` is one of the
  composed functions. `Eval` and `Invoke` evaluate terms and closures.
  `ApplyRtl` (a right fold) and `ApplyLtr` (a left fold) are independent
  reference semantics. `ComposeFn` is the function the macro denotes, over a
  single element type `T`.

`examples.dfy` (module `Examples`) restates the crate's unit tests as lemmas,
using the closures `|x| x + 1` and `|x| x * 2` on `int`.

## Model

| member | source | states |
|---|---|---|
| `ExprComposer.ComposeRtl` | src/lib.rs:67-70 | comma arms: one item is itself, else the head wraps the composed tail; composing n items adds exactly n - 1 calls |
| `ExprComposer.ComposeLtr` | src/lib.rs:73-76 | arrow arms: two items give `second(first)`, more re-enter with `second(first)` as head; composing n items adds exactly n - 1 calls |
| `ExprComposer.ComposeExpr` | src/lib.rs:65-77 | the whole macro: the empty list expands to nothing (`None`), exactly when the list is empty; one item is itself in either direction; otherwise reading back the nesting in the chosen direction gives the list |
| `ExprComposer.UnnestRtlCompose` | src/lib.rs:42 | `e1, ..., en` composes to exactly `e1(e2(...(en)))`: leftmost outermost, and peeling n - 1 calls gives the list back |
| `ExprComposer.LtrOutermostLast` | src/lib.rs:73-76 | with two or more items the rightmost arrow item is the outermost call, applied to the composition of the items before it |
| `ExprComposer.UnnestLtrCompose` | src/lib.rs:43 | `e1 => ... => en` composes to exactly `en(...(e2(e1)))`: peeling n - 1 calls gives the list back |
| `ExprComposer.LtrIsReversedRtl` | src/lib.rs:42-43 | direction equivalence: arrow composition of a list equals comma composition of the reversed list |
| `ExprComposer.RtlIsReversedLtr` | src/lib.rs:42-43 | the mirror form of direction equivalence: comma composition of a list equals arrow composition of the reversed list |
| `ExprComposer.ComposeInjective` | src/lib.rs:70-76 | in one direction, two lists of one length with the same expansion are the same list |
| `FnComposer.ExpandFn` | src/lib.rs:114-118 | `compose_fn!` expands to a closure over the fresh parameter `x` whose body is `x` for no functions, `f1(...fn(x))` with commas and `fn(...f1(x))` with arrows |
| `FnComposer.ComposeFnBaseCases` | src/lib.rs:115-116 | no functions gives the identity, and a single `f` gives `f(x)`, in either direction |
| `FnComposer.EvalExpandRtl` | src/lib.rs:116 | the expression composer over `f1, ..., fn, x` evaluates to the right fold `f1(f2(...fn(x)))` |
| `FnComposer.EvalExpandLtr` | src/lib.rs:117 | the expression composer over `acc => f1 => ... => fn` feeds the value of `acc` through `f1` first and `fn` last |
| `FnComposer.ExpandFnMeaning` | src/lib.rs:114-118 | invoking the expansion of `compose_fn!` over `fs` on any argument gives `ComposeFn(dir, fs)` of that argument, in both directions: the identity for no functions, the right fold `f1(...fn(x))` with commas and the left fold `fn(...f1(x))` with arrows |
| `FnComposer.ComposeFnConcatRtl` | src/lib.rs:91 | with commas, composing `fs + gs` applies `gs` first and then `fs`, so the leftmost function is outermost |
| `FnComposer.ComposeFnConcatLtr` | src/lib.rs:92 | with arrows, composing `fs + gs` applies `fs` first and then `gs`, so the rightmost function is outermost |
| `FnComposer.FnDirectionEquivalence` | src/lib.rs:90-92 | comma composition of a list equals arrow composition of the reversed list, on every argument |
| `FnComposer.FnDirectionEquivalenceMirror` | src/lib.rs:90-92 | the mirror form: arrow composition of a list equals comma composition of the reversed list, on every argument |
| `Examples.ExprExamples` | src/lib.rs:124-152 | the `compose_expr!` unit tests on input 1: 1, 2, 3 and 4 in each direction |
| `Examples.FnExamples` | src/lib.rs:154-182 | the `compose_fn!` unit tests on input 1: the identity gives 1, `+1` gives 2, the two orders of `+1` and `*2` give 3 and 4 and so are different functions; the same values hold when the expansion of `compose_fn!` itself is invoked |
| `Examples.DocExample` | src/lib.rs:19-23 | the documented example without its string stage: `plus_one, times_two` and `times_two => plus_one` both take 17 to 35 |

## Left out

- Rust macro mechanics are not modelled: token trees, `$crate::` paths, the compiler's `recursion_limit` on nested expansions, and hygiene of the generated `x`. Each list item costs one nested expansion, so a very long list does not compile in Rust, while the model accepts lists of any length. Freshness of `x` becomes the separate atom `Sym.Param`.
- Rejecting a list with mixed separators is not modelled as an error. A mixed list fails to match any macro arm; in the model the `Direction` tag makes such a list impossible to write.
- Type chaining between stages, such as `i32 -> String -> i32` in `tests/integration_advanced.rs`, is not modelled. `FnComposer` uses one element type `T`, and `Eval` gives no value to ill-typed calls.
- Examples.DocExample: weaker than the documented example, because `to_string` is a library call. The example is checked on its integer stages only.
- Overflow of the `i32` closures is not modelled. The examples use unbounded `int`.
- Panics inside a composed function are not modelled, because Dafny functions are total.
- Crate attributes (`no_std`, `doc_auto_cfg`) and doctest plumbing are build configuration and are not modelled.
