/**
  The function composer (`compose_fn!` in src/lib.rs). Syntactically it turns
  a list of unary functions into the closure `|x| x` (no functions) or
  `|x| compose_expr!(f1, ..., fn, x)` / `|x| compose_expr!(x => f1 => ... => fn)`.
  Semantically that closure is the composition of the functions: a right fold
  (`f1(f2(...fn(x)))`) or a left fold (`fn(...f2(f1(x)))`) over the list.
*/
module FnComposer {
  import opened ExprComposer

  /** A one-parameter closure `|param| body`. */
  datatype Closure<A> = Closure(param: A, body: Term<A>)

  /** The expansion of `compose_fn!` over the function expressions `fns`,
      with `x` the fresh parameter: `|x| x` for no functions (line 115);
      otherwise `x` is appended (line 116) or prepended (line 117) and the
      list goes to the expression composer, so the body is `f1(f2(...fn(x)))`
      right to left and `fn(...f2(f1(x)))` left to right. */
  function ExpandFn<A>(dir: Direction, fns: seq<Term<A>>, x: A): (c: Closure<A>)
    ensures c.param == x
    ensures dir == RightToLeft ==> UnnestRtl(c.body, |fns|) == Some(fns + [Atom(x)])
    ensures dir == LeftToRight ==> UnnestLtr(c.body, |fns|) == Some([Atom(x)] + fns)
  {
    if |fns| == 0 then
      assert fns + [Atom(x)] == [Atom(x)] + fns == [Atom(x)];
      Closure(x, Atom(x))
    else match dir
      case RightToLeft => Closure(x, ComposeExpr(RightToLeft, fns + [Atom(x)]).value)
      case LeftToRight => Closure(x, ComposeExpr(LeftToRight, [Atom(x)] + fns).value)
  }

  /** The atoms of an expansion over concrete functions: the closure's own
      parameter, or one of the functions being composed. Keeping the
      parameter apart from the functions is what makes it fresh. */
  datatype Sym<!T> = Param | Fun(f: T -> T)

  /** The value of a term when the parameter is bound to `x`. A call must have
      a function atom at its head and a value as its argument; anything else
      would be rejected by Rust's type checker and has no value. */
  function Eval<T>(t: Term<Sym<T>>, x: T): Option<T> {
    match t
    case Atom(Param) => Some(x)
    case Atom(Fun(_)) => None
    case App(Atom(Fun(f)), a) =>
      (match Eval(a, x)
       case None => None
       case Some(v) => Some(f(v)))
    case App(_, _) => None
  }

  /** Calls a closure over the parameter atom with argument `v`. */
  function Invoke<T>(c: Closure<Sym<T>>, v: T): Option<T> {
    if c.param.Param? then Eval(c.body, v) else None
  }

  /** The function expressions `f1, ..., fn` as atoms. */
  function Lift<T>(fs: seq<T -> T>): (r: seq<Term<Sym<T>>>)
    ensures |r| == |fs|
  {
    seq(|fs|, i requires 0 <= i < |fs| => Atom(Fun(fs[i])))
  }

  /** Reference semantics, right to left: `f1(f2(...fn(x)))`. */
  function ApplyRtl<T>(fs: seq<T -> T>, x: T): T {
    if |fs| == 0 then x else fs[0](ApplyRtl(fs[1..], x))
  }

  /** Reference semantics, left to right: `fn(...f2(f1(x)))`. */
  function ApplyLtr<T>(fs: seq<T -> T>, x: T): T {
    if |fs| == 0 then x else ApplyLtr(fs[1..], fs[0](x))
  }

  /** What `compose_fn!` denotes: the identity for no functions (line 115),
      and otherwise the composition in the chosen order (lines 116-117). */
  function ComposeFn<T>(dir: Direction, fs: seq<T -> T>): (g: T -> T) {
    if |fs| == 0 then x => x
    else match dir
      case RightToLeft => x => ApplyRtl(fs, x)
      case LeftToRight => x => ApplyLtr(fs, x)
  }

  /** Calling the composition runs the fold of its direction. */
  lemma ComposeFnCall<T>(dir: Direction, fs: seq<T -> T>, x: T)
    ensures ComposeFn(dir, fs)(x) == if dir == RightToLeft then ApplyRtl(fs, x) else ApplyLtr(fs, x)
  {
  }

  /** With no functions the composition is the identity, and a single function
      `f` composes to `f` itself, in either direction. */
  lemma ComposeFnBaseCases<T>(dir: Direction, fs: seq<T -> T>, x: T)
    ensures |fs| == 0 ==> ComposeFn(dir, fs)(x) == x
    ensures |fs| == 1 ==> ComposeFn(dir, fs)(x) == fs[0](x)
  {
    ComposeFnCall(dir, fs, x);
    if |fs| == 1 {
      assert fs[1..] == [];
    }
  }

  /** Right to left, the expression composer over `f1, ..., fn, x` evaluates
      to `f1(f2(...fn(x)))`. */
  lemma {:induction false} EvalExpandRtl<T>(fs: seq<T -> T>, x: T)
    ensures Eval(ComposeRtl(Lift(fs) + [Atom(Param)]), x) == Some(ApplyRtl(fs, x))
  {
    var es := Lift(fs) + [Atom(Param)];
    if |fs| == 0 {
      assert es == [Atom(Param)];
    } else {
      EvalExpandRtl(fs[1..], x);
      assert es[1..] == Lift(fs[1..]) + [Atom(Param)];
      assert es[0] == Atom(Fun(fs[0]));
    }
  }

  /** Left to right, composing `acc => f1 => ... => fn` feeds the value of
      `acc` through `f1`, then `f2`, and so on up to `fn`. */
  lemma {:induction false} EvalExpandLtr<T>(acc: Term<Sym<T>>, fs: seq<T -> T>, x: T, v: T)
    requires Eval(acc, x) == Some(v)
    ensures Eval(ComposeLtr([acc] + Lift(fs)), x) == Some(ApplyLtr(fs, v))
    decreases |fs|
  {
    var es := [acc] + Lift(fs);
    if |fs| == 0 {
      assert es == [acc];
    } else if |fs| == 1 {
      assert es[1] == Atom(Fun(fs[0]));
      assert fs[1..] == [];
    } else {
      var acc' := App(Atom(Fun(fs[0])), acc);
      assert es[1] == Atom(Fun(fs[0]));
      assert es[2..] == Lift(fs[1..]);
      EvalExpandLtr(acc', fs[1..], x, fs[0](v));
    }
  }

  /** The expansion of `compose_fn!` means `ComposeFn`: invoking the closure
      built over the functions `fs` on any argument gives the composition's
      value, in both directions. */
  lemma {:induction false} ExpandFnMeaning<T>(dir: Direction, fs: seq<T -> T>, v: T)
    ensures Invoke(ExpandFn(dir, Lift(fs), Param), v) == Some(ComposeFn(dir, fs)(v))
  {
    if |fs| > 0 {
      match dir
      case RightToLeft => EvalExpandRtl(fs, v);
      case LeftToRight => EvalExpandLtr(Atom(Param), fs, v, v);
    }
  }

  /** Right to left, composing `fs + gs` applies `gs` first, then `fs`; in
      particular the leftmost function is the outermost call. */
  lemma {:induction false} ComposeFnConcatRtl<T>(fs: seq<T -> T>, gs: seq<T -> T>, x: T)
    ensures ComposeFn(RightToLeft, fs + gs)(x) == ComposeFn(RightToLeft, fs)(ComposeFn(RightToLeft, gs)(x))
  {
    ComposeFnCall(RightToLeft, fs + gs, x);
    ComposeFnCall(RightToLeft, gs, x);
    ComposeFnCall(RightToLeft, fs, ComposeFn(RightToLeft, gs)(x));
    if |fs| > 0 {
      ComposeFnConcatRtl(fs[1..], gs, x);
      ComposeFnCall(RightToLeft, fs[1..] + gs, x);
      ComposeFnCall(RightToLeft, fs[1..], ComposeFn(RightToLeft, gs)(x));
      assert (fs + gs)[1..] == fs[1..] + gs;
    } else {
      assert fs + gs == gs;
    }
  }

  /** Left to right, composing `fs + gs` applies `fs` first, then `gs`; in
      particular the rightmost function is the outermost call. */
  lemma {:induction false} ComposeFnConcatLtr<T>(fs: seq<T -> T>, gs: seq<T -> T>, x: T)
    ensures ComposeFn(LeftToRight, fs + gs)(x) == ComposeFn(LeftToRight, gs)(ComposeFn(LeftToRight, fs)(x))
    decreases |fs|
  {
    ComposeFnCall(LeftToRight, fs + gs, x);
    ComposeFnCall(LeftToRight, fs, x);
    ComposeFnCall(LeftToRight, gs, ComposeFn(LeftToRight, fs)(x));
    if |fs| > 0 {
      ComposeFnConcatLtr(fs[1..], gs, fs[0](x));
      ComposeFnCall(LeftToRight, fs[1..] + gs, fs[0](x));
      ComposeFnCall(LeftToRight, fs[1..], fs[0](x));
      assert (fs + gs)[1..] == fs[1..] + gs;
    } else {
      assert fs + gs == gs;
    }
  }

  /** Right-to-left composition of a list behaves as left-to-right composition
      of the reversed list, on every argument. */
  lemma {:induction false} FnDirectionEquivalence<T>(fs: seq<T -> T>, x: T)
    ensures ComposeFn(RightToLeft, fs)(x) == ComposeFn(LeftToRight, Reverse(fs))(x)
    decreases |fs|
  {
    var n := |fs|;
    if n > 0 {
      var init, last := fs[..n - 1], fs[n - 1];
      assert Reverse(fs) == [last] + Reverse(init);
      ComposeFnConcatLtr([last], Reverse(init), x);
      ComposeFnBaseCases(LeftToRight, [last], x);
      FnDirectionEquivalence(init, last(x));
      assert init + [last] == fs;
      ComposeFnConcatRtl(init, [last], x);
      ComposeFnBaseCases(RightToLeft, [last], x);
    } else {
      ComposeFnBaseCases(RightToLeft, fs, x);
      ComposeFnBaseCases(LeftToRight, Reverse(fs), x);
    }
  }

  /** The mirror form: left-to-right composition of a list behaves as
      right-to-left composition of the reversed list, on every argument. */
  lemma {:induction false} FnDirectionEquivalenceMirror<T>(fs: seq<T -> T>, x: T)
    ensures ComposeFn(LeftToRight, fs)(x) == ComposeFn(RightToLeft, Reverse(fs))(x)
  {
    FnDirectionEquivalence(Reverse(fs), x);
    ReverseInvolution(fs);
  }
}
