/**
  The unit tests of src/lib.rs, stated over the model with the closures
  `|x| x + 1` and `|x| x * 2` on integers.
*/
module Examples {
  import opened ExprComposer
  import opened FnComposer

  const PlusOne: int -> int := x => x + 1
  const TimesTwo: int -> int := x => x * 2

  /** The function expression `f` written in a composition list. */
  function F(f: int -> int): Term<Sym<int>> {
    Atom(Fun(f))
  }

  /** The value of `compose_expr!` over `es` with the parameter bound to `x`,
      `None` when the expansion does not evaluate. */
  function Run(dir: Direction, es: seq<Term<Sym<int>>>, x: int): Option<int> {
    match ComposeExpr(dir, es)
    case None => None
    case Some(t) => Eval(t, x)
  }

  /** `compose_expr!` in both directions on input 1 (tests expr_right_to_left
      and expr_left_to_right): the order of the two closures decides between
      3 and 4. */
  lemma ExprExamples()
    ensures Run(RightToLeft, [Atom(Param)], 1) == Some(1)
    ensures Run(RightToLeft, [F(PlusOne), Atom(Param)], 1) == Some(2)
    ensures Run(RightToLeft, [F(PlusOne), F(TimesTwo), Atom(Param)], 1) == Some(3)
    ensures Run(RightToLeft, [F(TimesTwo), F(PlusOne), Atom(Param)], 1) == Some(4)
    ensures Run(LeftToRight, [Atom(Param)], 1) == Some(1)
    ensures Run(LeftToRight, [Atom(Param), F(PlusOne)], 1) == Some(2)
    ensures Run(LeftToRight, [Atom(Param), F(TimesTwo), F(PlusOne)], 1) == Some(3)
    ensures Run(LeftToRight, [Atom(Param), F(PlusOne), F(TimesTwo)], 1) == Some(4)
  {
    var p := Atom(Param);
    assert [F(PlusOne), F(TimesTwo), p][1..] == [F(TimesTwo), p];
    assert [F(TimesTwo), p][1..] == [p] == [F(PlusOne), p][1..];
    assert ComposeRtl([F(TimesTwo), p]) == App(F(TimesTwo), p);
    assert ComposeRtl([F(PlusOne), p]) == App(F(PlusOne), p);
    assert ComposeRtl([F(PlusOne), F(TimesTwo), p]) == App(F(PlusOne), App(F(TimesTwo), p));
    assert [F(TimesTwo), F(PlusOne), p][1..] == [F(PlusOne), p];
    assert ComposeRtl([F(TimesTwo), F(PlusOne), p]) == App(F(TimesTwo), App(F(PlusOne), p));
    assert [p, F(TimesTwo), F(PlusOne)][2..] == [F(PlusOne)];
    assert ComposeLtr([p, F(TimesTwo), F(PlusOne)]) == App(F(PlusOne), App(F(TimesTwo), p));
    assert [p, F(PlusOne), F(TimesTwo)][2..] == [F(TimesTwo)];
    assert ComposeLtr([p, F(PlusOne), F(TimesTwo)]) == App(F(TimesTwo), App(F(PlusOne), p));
  }

  /** `compose_fn!` in both directions on input 1 (tests fn_right_to_left and
      fn_left_to_right): no functions is the identity, one function is itself,
      and the order of two functions decides between 3 and 4, so the two
      orders give different functions. Invoking the expansion of
      `compose_fn!` itself gives the same values. */
  lemma FnExamples()
    ensures ComposeFn(RightToLeft, [])(1) == 1
    ensures ComposeFn(RightToLeft, [PlusOne])(1) == 2
    ensures ComposeFn(RightToLeft, [PlusOne, TimesTwo])(1) == 3
    ensures ComposeFn(RightToLeft, [TimesTwo, PlusOne])(1) == 4
    ensures ComposeFn(LeftToRight, [])(1) == 1
    ensures ComposeFn(LeftToRight, [PlusOne])(1) == 2
    ensures ComposeFn(LeftToRight, [TimesTwo, PlusOne])(1) == 3
    ensures ComposeFn(LeftToRight, [PlusOne, TimesTwo])(1) == 4
    ensures ComposeFn(RightToLeft, [PlusOne, TimesTwo]) != ComposeFn(RightToLeft, [TimesTwo, PlusOne])
    ensures ComposeFn(LeftToRight, [PlusOne, TimesTwo]) != ComposeFn(LeftToRight, [TimesTwo, PlusOne])
    ensures Invoke(ExpandFn(RightToLeft, Lift([]), Param), 1) == Some(1)
    ensures Invoke(ExpandFn(LeftToRight, Lift([]), Param), 1) == Some(1)
    ensures Invoke(ExpandFn(RightToLeft, Lift([PlusOne]), Param), 1) == Some(2)
    ensures Invoke(ExpandFn(LeftToRight, Lift([PlusOne]), Param), 1) == Some(2)
    ensures Invoke(ExpandFn(RightToLeft, Lift([PlusOne, TimesTwo]), Param), 1) == Some(3)
    ensures Invoke(ExpandFn(RightToLeft, Lift([TimesTwo, PlusOne]), Param), 1) == Some(4)
    ensures Invoke(ExpandFn(LeftToRight, Lift([TimesTwo, PlusOne]), Param), 1) == Some(3)
    ensures Invoke(ExpandFn(LeftToRight, Lift([PlusOne, TimesTwo]), Param), 1) == Some(4)
  {
    ExpandFnMeaning(RightToLeft, [], 1);
    ExpandFnMeaning(LeftToRight, [], 1);
    ExpandFnMeaning(RightToLeft, [PlusOne], 1);
    ExpandFnMeaning(LeftToRight, [PlusOne], 1);
    ExpandFnMeaning(RightToLeft, [PlusOne, TimesTwo], 1);
    ExpandFnMeaning(RightToLeft, [TimesTwo, PlusOne], 1);
    ExpandFnMeaning(LeftToRight, [TimesTwo, PlusOne], 1);
    ExpandFnMeaning(LeftToRight, [PlusOne, TimesTwo], 1);
    ComposeFnBaseCases(RightToLeft, [], 1);
    ComposeFnBaseCases(LeftToRight, [], 1);
    ComposeFnBaseCases(RightToLeft, [PlusOne], 1);
    ComposeFnBaseCases(LeftToRight, [PlusOne], 1);
    ComposeFnConcatRtl([PlusOne], [TimesTwo], 1);
    ComposeFnConcatRtl([TimesTwo], [PlusOne], 1);
    ComposeFnConcatLtr([TimesTwo], [PlusOne], 1);
    ComposeFnConcatLtr([PlusOne], [TimesTwo], 1);
    ComposeFnBaseCases(RightToLeft, [TimesTwo], 1);
    ComposeFnBaseCases(LeftToRight, [TimesTwo], 1);
    ComposeFnBaseCases(RightToLeft, [PlusOne], 2);
    ComposeFnBaseCases(LeftToRight, [PlusOne], 2);
    ComposeFnBaseCases(RightToLeft, [TimesTwo], 2);
    ComposeFnBaseCases(LeftToRight, [TimesTwo], 2);
    assert [PlusOne] + [TimesTwo] == [PlusOne, TimesTwo];
    assert [TimesTwo] + [PlusOne] == [TimesTwo, PlusOne];
  }

  /** The documentation example with its integer stages only: doubling 17 and
      adding one gives 35 both as `plus_one, times_two` and as
      `times_two => plus_one`. */
  lemma DocExample()
    ensures ComposeFn(RightToLeft, [PlusOne, TimesTwo])(17) == 35
    ensures ComposeFn(LeftToRight, [TimesTwo, PlusOne])(17) == 35
  {
    ComposeFnConcatRtl([PlusOne], [TimesTwo], 17);
    ComposeFnConcatLtr([TimesTwo], [PlusOne], 17);
    ComposeFnBaseCases(RightToLeft, [TimesTwo], 17);
    ComposeFnBaseCases(LeftToRight, [TimesTwo], 17);
    ComposeFnBaseCases(RightToLeft, [PlusOne], 34);
    ComposeFnBaseCases(LeftToRight, [PlusOne], 34);
    assert [PlusOne] + [TimesTwo] == [PlusOne, TimesTwo];
    assert [TimesTwo] + [PlusOne] == [TimesTwo, PlusOne];
  }
}
