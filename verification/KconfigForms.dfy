/** What expr_eq recognises: where no chain has y or n as an operand, exactly the expressions that differ by reordering
    and regrouping, at every depth. */
module KconfigForms {
  import opened KconfigExpr
  import opened KconfigEq

  /** An expression up to the order and grouping of the operands of its chains. */
  datatype Form = Leaf(e: Expr) | Negated(f: Form) | Chained(op: Op, parts: multiset<Form>)

  ghost function FormOf(e: Expr): Form
    decreases Size(e), 1
  {
    match e
    case Not(x) => Negated(FormOf(x))
    case Bin(op, l, r) => Chained(op, Parts(op, l) + Parts(op, r))
    case _ => Leaf(e)
  }

  /** The forms of the operands of the chain at the top of e; the unit of the operator does not count. */
  ghost function Parts(op: Op, e: Expr): multiset<Form>
    decreases Size(e), 2
  {
    if Is(op, e) then Parts(op, e.l) + Parts(op, e.r) else if e == Unit(op) then multiset{} else multiset{FormOf(e)}
  }

  /** No chain has y or n as an operand. */
  predicate Pure(e: Expr) {
    match e
    case Not(x) => Pure(x)
    case Bin(_, l, r) => Pure(l) && Pure(r) && !IsYn(l) && !IsYn(r)
    case _ => true
  }

  /** A chain of pure operands, some of which may have been replaced by the unit. */
  predicate Loose(op: Op, e: Expr) {
    if Is(op, e) then Loose(op, e.l) && Loose(op, e.r) else e == Unit(op) || (Pure(e) && !IsYn(e))
  }

  lemma {:induction false} PureIsLoose(op: Op, e: Expr)
    requires Pure(e) && !IsYn(e)
    ensures Loose(op, e)
  {
    if Is(op, e) {
      PureIsLoose(op, e.l);
      PureIsLoose(op, e.r);
    }
  }

  /** x' and y' are x and y without the parts that both have. */
  ghost predicate Reduced(op: Op, x: Expr, y: Expr, x': Expr, y': Expr) {
    && Loose(op, x') && Loose(op, y') && (Is(op, x) <==> Is(op, x')) && (Is(op, y) <==> Is(op, y'))
    && Parts(op, x') == Parts(op, x) - Parts(op, y)
    && Parts(op, y') == Parts(op, y) - Parts(op, x)
  }

  lemma ReducedLeft(op: Op, x: Expr, y: Expr, l: Expr, y1: Expr, r: Expr, y2: Expr)
    requires Is(op, x) && Reduced(op, x.l, y, l, y1) && Reduced(op, x.r, y1, r, y2)
    ensures Reduced(op, x, y, Bin(op, l, r), y2)
  {
    var n := Bin(op, l, r);
    assert Loose(op, n);
    assert Parts(op, n) == Parts(op, l) + Parts(op, r) && Parts(op, x) == Parts(op, x.l) + Parts(op, x.r);
    hide Parts, Loose;
    CancelTwice(Parts(op, x.l), Parts(op, x.r), Parts(op, y));
  }

  lemma ReducedSwap(op: Op, x: Expr, y: Expr, x': Expr, y': Expr)
    requires Reduced(op, x, y, x', y')
    ensures Reduced(op, y, x, y', x')
  {}

  /** One pass cancels exactly the parts that both chains have. */
  lemma {:induction false} EliminateReduces(op: Op, x: Expr, y: Expr)
    requires Loose(op, x) && Loose(op, y)
    ensures Reduced(op, x, y, EliminateUnder(op, x, y).0, EliminateUnder(op, x, y).1)
    decreases Size(x) + Size(y), if Is(op, x) || Is(op, y) then 0 else 4
  {
    hide Parts;
    if Is(op, x) {
      var (l, y1) := EliminateUnder(op, x.l, y);
      var (r, y2) := EliminateUnder(op, x.r, y1);
      EliminateReduces(op, x.l, y);
      EliminateReduces(op, x.r, y1);
      assert EliminateUnder(op, x, y) == (Bin(op, l, r), y2);
      ReducedLeft(op, x, y, l, y1, r, y2);
    } else if Is(op, y) {
      var (x1, l) := EliminateUnder(op, x, y.l);
      var (x2, r) := EliminateUnder(op, x1, y.r);
      EliminateReduces(op, x, y.l);
      EliminateReduces(op, x1, y.r);
      assert EliminateUnder(op, x, y) == (x2, Bin(op, l, r));
      ReducedSwap(op, x, y.l, x1, l);
      ReducedSwap(op, x1, y.r, x2, r);
      ReducedLeft(op, y, x, l, x1, r, x2);
      ReducedSwap(op, y, x, Bin(op, l, r), x2);
    } else {
      LeafReduces(op, x, y);
    }
  }

  lemma LeafReduces(op: Op, x: Expr, y: Expr)
    requires Loose(op, x) && Loose(op, y) && !Is(op, x) && !Is(op, y)
    ensures Reduced(op, x, y, EliminateUnder(op, x, y).0, EliminateUnder(op, x, y).1)
    decreases Size(x) + Size(y), 3
  {
    if x != Unit(op) && y != Unit(op) { EqExactly(x, y); }
    LeafStep(op, x, y);
    LeafParts(op, x);
    LeafParts(op, y);
    LeafParts(op, Unit(op));
    hide *;
    if x != Unit(op) && y != Unit(op) && FormOf(x) == FormOf(y) {
      BothGone(op, x, y);
    } else {
      BothStay(op, x, y);
    }
  }

  lemma LeafParts(op: Op, x: Expr)
    requires !Is(op, x)
    ensures Parts(op, x) == if x == Unit(op) then multiset{} else multiset{FormOf(x)}
  {}

  /** A pair of operands is cancelled when expr_eq says so, constants excepted. */
  lemma LeafStep(op: Op, x: Expr, y: Expr)
    requires Loose(op, x) && Loose(op, y) && !Is(op, x) && !Is(op, y)
    ensures EliminateUnder(op, x, y)
      == if x != Unit(op) && y != Unit(op) && Eq(x, y) then (Unit(op), Unit(op)) else (x, y)
  {
    TriNames();
    hide EliminateEq, FormOf, Parts, Pure;
  }

  lemma BothGone(op: Op, x: Expr, y: Expr)
    requires !Is(op, x) && !Is(op, y) && x != Unit(op) && y != Unit(op) && FormOf(x) == FormOf(y)
    ensures Reduced(op, x, y, Unit(op), Unit(op))
  {
    LeafParts(op, x);
    LeafParts(op, y);
    LeafParts(op, Unit(op));
    assert Loose(op, Unit(op));
    hide Parts, FormOf, Loose;
  }

  lemma BothStay(op: Op, x: Expr, y: Expr)
    requires Loose(op, x) && Loose(op, y) && !Is(op, x) && !Is(op, y)
    requires x == Unit(op) || y == Unit(op) || FormOf(x) != FormOf(y)
    ensures Reduced(op, x, y, x, y)
  {
    LeafParts(op, x);
    LeafParts(op, y);
    hide Parts, FormOf, Loose;
  }

  /** What folding makes of a chain whose operands are pure or the unit. */
  lemma {:induction false} LooseFolds(op: Op, e: Expr)
    requires Loose(op, e)
    ensures var u := EliminateYn(e);
      && (Parts(op, e) == multiset{} <==> u == Unit(op))
      && (u.Sym? ==> u == Unit(op) || (!IsYn(u) && Parts(op, e) == multiset{Leaf(u)}))
    decreases e
  {
    TriNames();
    if Is(op, e) {
      LooseFolds(op, e.l);
      LooseFolds(op, e.r);
      PureFolds(op, e.l);
      PureFolds(op, e.r);
    } else if e != Unit(op) {
      PureStays(e);
      assert FormOf(e) in Parts(op, e);
    }
  }

  /** Nothing folds to the deciding constant. */
  lemma {:induction false} PureFolds(op: Op, e: Expr)
    requires Loose(op, e)
    ensures EliminateYn(e) != Zero(op)
  {
    TriNames();
    if Is(op, e) {
      PureFolds(op, e.l);
      PureFolds(op, e.r);
    } else if e != Unit(op) {
      PureStays(e);
    }
  }

  lemma {:induction false} PureStays(e: Expr)
    requires Pure(e)
    ensures EliminateYn(e) == e
  {
    if e.Bin? {
      PureStays(e.l);
      PureStays(e.r);
    }
  }

  /** expr_eq answers yes exactly for expressions of the same form. */
  lemma {:induction false} EqExactly(x: Expr, y: Expr)
    requires Pure(x) && Pure(y)
    ensures Eq(x, y) <==> FormOf(x) == FormOf(y)
    decreases Size(x) + Size(y), 2
  {
    match x
    case Not(e) => if y.Not? { EqExactly(e, y.e); }
    case Bin(op, _, _) => if Is(op, y) { ChainsExactly(op, x, y); }
    case _ =>
  }

  lemma ChainsExactly(op: Op, x: Expr, y: Expr)
    requires Pure(x) && Pure(y) && Is(op, x) && Is(op, y)
    ensures Eq(x, y) <==> FormOf(x) == FormOf(y)
    decreases Size(x) + Size(y), 1
  {
    PureIsLoose(op, x);
    PureIsLoose(op, y);
    EliminateReduces(op, x, y);
    var (x', y') := EliminateUnder(op, x, y);
    assert SameType(x', y');
    assert EliminateEq(x, y) == (EliminateYn(x'), EliminateYn(y'));
    assert FormOf(x) == Chained(op, Parts(op, x)) && FormOf(y) == Chained(op, Parts(op, y));
    LooseFolds(op, x');
    LooseFolds(op, y');
    hide Parts, FormOf, EliminateYn, EliminateUnder;
    RemaindersEmpty(Parts(op, x), Parts(op, y));
  }

  lemma RemaindersEmpty(a: multiset<Form>, b: multiset<Form>)
    ensures a - b == multiset{} && b - a == multiset{} <==> a == b
    ensures forall f :: !(f in a - b && f in b - a)
  {}

  // ----- with y or n as an operand -----

  const A := Sym(Var(0, Tristate))
  const C := Sym(Var(1, Tristate))
  const AN := Bin(Or, A, Sym(NO))
  const CN := Bin(Or, C, Sym(NO))
  const BOTH := Bin(And, AN, CN)
  const ONE := Bin(And, AN, C)
  const NONE := Bin(And, A, C)

  /** expr_eq is not transitive where n is an operand: a chain left with one operand is folded before the comparison. */
  lemma EqIsNotTransitive()
    ensures Eq(BOTH, ONE) && Eq(ONE, NONE) && !Eq(BOTH, NONE)
  {
    FirstPair();
    SecondPair();
    ThirdPair();
  }

  lemma FirstPair()
    ensures Eq(BOTH, ONE)
  {
    TriNames();
    assert Eq(AN, AN) && !Eq(CN, C) && !Eq(AN, C);
    assert EliminateUnder(And, BOTH, ONE) == (Bin(And, Sym(YES), CN), Bin(And, Sym(YES), C));
  }

  lemma SecondPair()
    ensures Eq(ONE, NONE)
  {
    TriNames();
    assert !Eq(AN, C) && !Eq(AN, A) && !Eq(C, A);
    assert EliminateUnder(And, ONE, NONE) == (Bin(And, AN, Sym(YES)), Bin(And, A, Sym(YES)));
  }

  lemma ThirdPair()
    ensures !Eq(BOTH, NONE)
  {
    TriNames();
    assert !Eq(CN, C) && !Eq(AN, C) && !Eq(AN, A) && !Eq(CN, A);
    assert EliminateUnder(And, BOTH, NONE) == (BOTH, NONE);
  }
}
