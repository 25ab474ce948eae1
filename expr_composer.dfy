/**
  The expression composer (`compose_expr!` in src/lib.rs) as a term rewriting
  system. A composition list is a flat sequence of expressions together with a
  direction; the composer rewrites it into one nested application term.

  - Right to left (`a, b, c, d`): the head wraps the composed tail,
    giving `a(b(c(d)))`.
  - Left to right (`a => b => c => d`): the first two items collapse into
    `second(first)`, which heads a shorter list, giving `d(c(b(a)))`.

  The separator of the macro becomes a `Direction` tag fixed per call, so a list
  with mixed separators cannot be written down.
*/
module ExprComposer {

  /** An expression as the composer sees it: an opaque expression fragment, or
      the call `fn(arg)` the composer builds. */
  datatype Term<A> = Atom(a: A) | App(fn: Term<A>, arg: Term<A>)

  /** Which separator the invocation uses: `,` or `=>`. */
  datatype Direction = RightToLeft | LeftToRight

  /** A result that may be absent: the empty list expands to nothing. */
  datatype Option<T> = None | Some(value: T)

  /** Number of calls `f(x)` written in a term. */
  function Calls<A>(t: Term<A>): nat {
    match t
    case Atom(_) => 0
    case App(f, x) => Calls(f) + Calls(x) + 1
  }

  /** Number of calls written in all the terms of a list. */
  function CallsAll<A>(es: seq<Term<A>>): nat {
    if |es| == 0 then 0 else Calls(es[0]) + CallsAll(es[1..])
  }

  /** The list read back to front. */
  function Reverse<X>(s: seq<X>): (r: seq<X>)
    ensures |r| == |s|
    ensures forall i :: 0 <= i < |s| ==> r[i] == s[|s| - 1 - i]
  {
    if |s| == 0 then [] else [s[|s| - 1]] + Reverse(s[..|s| - 1])
  }

  /** Right-to-left composition: a one-element list is its element (line 67);
      otherwise the head is applied to the composed tail (line 70). Composing n
      expressions writes exactly n - 1 new calls. */
  function ComposeRtl<A>(es: seq<Term<A>>): (r: Term<A>)
    requires |es| >= 1
    ensures Calls(r) == CallsAll(es) + |es| - 1
  {
    if |es| == 1 then es[0] else App(es[0], ComposeRtl(es[1..]))
  }

  /** Left-to-right composition: a one-element list is its element (line 67);
      two elements give `second(first)` (line 73); with more, `second(first)`
      becomes the first element of a shorter list (lines 74-75). Composing n
      expressions writes exactly n - 1 new calls. */
  function ComposeLtr<A>(es: seq<Term<A>>): (r: Term<A>)
    requires |es| >= 1
    ensures Calls(r) == CallsAll(es) + |es| - 1
    decreases |es|
  {
    if |es| == 1 then es[0]
    else if |es| == 2 then
      assert CallsAll(es[1..]) == Calls(es[1]) + CallsAll(es[1..][1..]);
      App(es[1], es[0])
    else
      var rest := [App(es[1], es[0])] + es[2..];
      assert rest[1..] == es[2..];
      assert es[1..][1..] == es[2..];
      ComposeLtr(rest)
  }

  /** Reads back the nesting `e1(e2(...(en)))` of a right-to-left composition,
      peeling `calls` applications off the outside; innermost last. */
  function UnnestRtl<A>(t: Term<A>, calls: nat): Option<seq<Term<A>>> {
    if calls == 0 then Some([t])
    else match t
      case Atom(_) => None
      case App(f, x) =>
        match UnnestRtl(x, calls - 1)
        case None => None
        case Some(s) => Some([f] + s)
  }

  /** Reads back the nesting `en(...(e2(e1)))` of a left-to-right composition,
      peeling `calls` applications off the outside; innermost first. */
  function UnnestLtr<A>(t: Term<A>, calls: nat): Option<seq<Term<A>>> {
    if calls == 0 then Some([t])
    else match t
      case Atom(_) => None
      case App(f, x) =>
        match UnnestLtr(x, calls - 1)
        case None => None
        case Some(s) => Some(s + [f])
  }

  /** The macro as a whole: an empty list expands to nothing (line 66); a single
      expression stays as it is in either direction (line 67); otherwise the
      nesting is exactly the one the direction prescribes (lines 70-76). */
  function ComposeExpr<A>(dir: Direction, es: seq<Term<A>>): (r: Option<Term<A>>)
    ensures r.None? <==> |es| == 0
    ensures |es| == 1 ==> r == Some(es[0])
    ensures r.Some? && dir == RightToLeft ==> UnnestRtl(r.value, |es| - 1) == Some(es)
    ensures r.Some? && dir == LeftToRight ==> UnnestLtr(r.value, |es| - 1) == Some(es)
  {
    if |es| == 0 then None
    else match dir
      case RightToLeft => UnnestRtlCompose(es); Some(ComposeRtl(es))
      case LeftToRight => UnnestLtrCompose(es); Some(ComposeLtr(es))
  }

  /** Right to left, the leftmost expression is the outermost call and the
      nesting is strictly `e1(e2(...(en)))`: peeling n - 1 calls gives the list back. */
  lemma {:induction false} UnnestRtlCompose<A>(es: seq<Term<A>>)
    requires |es| >= 1
    ensures UnnestRtl(ComposeRtl(es), |es| - 1) == Some(es)
  {
    if |es| > 1 {
      UnnestRtlCompose(es[1..]);
      assert ComposeRtl(es) == App(es[0], ComposeRtl(es[1..]));
      assert UnnestRtl(ComposeRtl(es), |es| - 1) == Some([es[0]] + es[1..]);
      assert [es[0]] + es[1..] == es;
    } else {
      assert es == [es[0]];
    }
  }

  /** Left to right, the rightmost expression is the outermost call, applied to
      the composition of all the others. */
  lemma {:induction false} LtrOutermostLast<A>(es: seq<Term<A>>)
    requires |es| >= 2
    ensures ComposeLtr(es) == App(es[|es| - 1], ComposeLtr(es[..|es| - 1]))
    decreases |es|
  {
    if |es| > 2 {
      var n := |es|;
      var rest := [App(es[1], es[0])] + es[2..];
      assert ComposeLtr(es) == ComposeLtr(rest);
      LtrOutermostLast(rest);
      assert rest[|rest| - 1] == es[n - 1];
      var init := es[..n - 1];
      assert init[0] == es[0] && init[1] == es[1];
      assert init[2..] == es[2..n - 1];
      var front := rest[..|rest| - 1];
      assert |front| == n - 2 && front[0] == App(es[1], es[0]);
      assert forall k :: 1 <= k < n - 2 ==> front[k] == es[k + 1];
      assert front == [App(es[1], es[0])] + es[2..n - 1];
      assert ComposeLtr(init) == ComposeLtr([App(init[1], init[0])] + init[2..]);
    }
  }

  /** Left to right, the nesting is strictly `en(...(e2(e1)))`: peeling n - 1
      calls gives the list back. */
  lemma {:induction false} UnnestLtrCompose<A>(es: seq<Term<A>>)
    requires |es| >= 1
    ensures UnnestLtr(ComposeLtr(es), |es| - 1) == Some(es)
    decreases |es|
  {
    if |es| > 1 {
      var n := |es|;
      LtrOutermostLast(es);
      UnnestLtrCompose(es[..n - 1]);
      assert UnnestLtr(ComposeLtr(es), n - 1) == Some(es[..n - 1] + [es[n - 1]]);
      assert es[..n - 1] + [es[n - 1]] == es;
    } else {
      assert es == [es[0]];
    }
  }

  /** The two directions are mirror images: composing left to right is composing
      the reversed list right to left. */
  lemma {:induction false} LtrIsReversedRtl<A>(es: seq<Term<A>>)
    requires |es| >= 1
    ensures ComposeLtr(es) == ComposeRtl(Reverse(es))
    decreases |es|
  {
    var n := |es|;
    if n > 1 {
      LtrOutermostLast(es);
      LtrIsReversedRtl(es[..n - 1]);
      var rev := Reverse(es);
      assert rev == [es[n - 1]] + Reverse(es[..n - 1]);
      assert rev[1..] == Reverse(es[..n - 1]);
    }
  }

  /** Reading a list back to front twice gives the list. */
  lemma {:induction false} ReverseInvolution<X>(s: seq<X>)
    ensures Reverse(Reverse(s)) == s
  {
  }

  /** The mirror form: composing right to left is composing the reversed
      list left to right. */
  lemma {:induction false} RtlIsReversedLtr<A>(es: seq<Term<A>>)
    requires |es| >= 1
    ensures ComposeRtl(es) == ComposeLtr(Reverse(es))
  {
    LtrIsReversedRtl(Reverse(es));
    ReverseInvolution(es);
  }

  /** Composition determines its list: two lists of one length that compose to
      the same term, in the same direction, are the same list. */
  lemma {:induction false} ComposeInjective<A>(dir: Direction, es: seq<Term<A>>, fs: seq<Term<A>>)
    requires |es| == |fs|
    requires ComposeExpr(dir, es) == ComposeExpr(dir, fs)
    ensures es == fs
  {
  }
}
