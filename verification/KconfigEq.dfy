/** Equality of dependency expressions by mutual elimination of common operands. */
module KconfigEq {
  import opened Common
  import opened KconfigExpr

  /** The tags compared by `e1->type == e2->type`. */
  predicate SameType(x: Expr, y: Expr) {
    match x
    case Sym(_) => y.Sym?
    case Not(_) => y.Not?
    case Bin(op, _, _) => Is(op, y)
    case Equal(_, _) => y.Equal?
    case Unequal(_, _) => y.Unequal?
  }

  /** expr_eq */
  predicate Eq(x: Expr, y: Expr)
    decreases Size(x) + Size(y), 2
  {
    SameType(x, y) &&
    match x
    case Sym(s) => s == y.s
    case Not(e) => Eq(e, y.e)
    case Bin(_, _, _) => var (u, v) := EliminateEq(x, y); u.Sym? && v.Sym? && u.s == v.s
    case _ => x == y
  }

  /** expr_eliminate_eq: one pass for the operator of each side, then constant folding. */
  function EliminateEq(x: Expr, y: Expr): (Expr, Expr)
    decreases Size(x) + Size(y), 1
  {
    var (x1, y1) := if x.Bin? then EliminateUnder(x.op, x, y) else (x, y);
    var (x2, y2) := if !SameType(x1, y1) && y1.Bin? then EliminateUnder(y1.op, x1, y1) else (x1, y1);
    (EliminateYn(x2), EliminateYn(y2))
  }

  /** __expr_eliminate_eq: replaces operands of `op` that occur on both sides by the unit of `op`. */
  function EliminateUnder(op: Op, x: Expr, y: Expr): (r: (Expr, Expr))
    ensures Size(r.0) <= Size(x) && Size(r.1) <= Size(y)
    decreases Size(x) + Size(y), if Is(op, x) || Is(op, y) then 0 else 3
  {
    if Is(op, x) then
      var (l, y1) := EliminateUnder(op, x.l, y);
      var (r, y2) := EliminateUnder(op, x.r, y1);
      (Bin(op, l, r), y2)
    else if Is(op, y) then
      var (x1, l) := EliminateUnder(op, x, y.l);
      var (x2, r) := EliminateUnder(op, x1, y.r);
      (x2, Bin(op, l, r))
    else if x == y && IsYn(x) then (x, y)
    else if Eq(x, y) then (Unit(op), Unit(op))
    else (x, y)
  }

  /** Soundness: expressions that expr_eq identifies have the same value under every assignment. */
  lemma {:induction false} EqSound(x: Expr, y: Expr, env: Env)
    requires Eq(x, y)
    ensures Eval(x, env) == Eval(y, env)
    decreases Size(x) + Size(y), 2
  {
    match x
    case Not(e) => EqSound(e, y.e, env);
    case Bin(_, _, _) => EliminateEqSound(x, y, env);
    case _ =>
  }

  /** Where the remainders agree, so did the originals. */
  lemma {:induction false} EliminateEqSound(x: Expr, y: Expr, env: Env)
    ensures var (u, v) := EliminateEq(x, y);
            Eval(u, env) == Eval(v, env) ==> Eval(x, env) == Eval(y, env)
    decreases Size(x) + Size(y), 1
  {
    var (x1, y1) := if x.Bin? then EliminateUnder(x.op, x, y) else (x, y);
    if x.Bin? { var _ := EliminateUnderFactors(x.op, x, y, env); }
    var (x2, y2) := if !SameType(x1, y1) && y1.Bin? then EliminateUnder(y1.op, x1, y1) else (x1, y1);
    if !SameType(x1, y1) && y1.Bin? { var _ := EliminateUnderFactors(y1.op, x1, y1, env); }
    EliminateYnKeepsValue(x2, env);
    EliminateYnKeepsValue(y2, env);
  }

  /** Both sides lose the same part: x = common op x', y = common op y'. */
  lemma {:induction false} EliminateUnderFactors(op: Op, x: Expr, y: Expr, env: Env) returns (common: Tri)
    ensures var (x', y') := EliminateUnder(op, x, y);
            && Eval(x, env) == Apply(op, common, Eval(x', env))
            && Eval(y, env) == Apply(op, common, Eval(y', env))
    decreases Size(x) + Size(y), if Is(op, x) || Is(op, y) then 0 else 3, 1
  {
    if Is(op, x) {
      var (l, y1) := EliminateUnder(op, x.l, y);
      var (r, y2) := EliminateUnder(op, x.r, y1);
      var c := EliminateUnderFactors(op, x.l, y, env);
      var d := EliminateUnderFactors(op, x.r, y1, env);
      common := Apply(op, c, d);
      assert EliminateUnder(op, x, y) == (Bin(op, l, r), y2);
      ApplyRegroups(op, c, d, Eval(l, env), Eval(r, env));
      ApplyRegroups(op, c, d, c, Eval(y2, env));
    } else if Is(op, y) {
      var (x1, l) := EliminateUnder(op, x, y.l);
      var (x2, r) := EliminateUnder(op, x1, y.r);
      var c := EliminateUnderFactors(op, x, y.l, env);
      var d := EliminateUnderFactors(op, x1, y.r, env);
      common := Apply(op, c, d);
      assert EliminateUnder(op, x, y) == (x2, Bin(op, l, r));
      ApplyRegroups(op, c, d, Eval(l, env), Eval(r, env));
      ApplyRegroups(op, c, d, c, Eval(x2, env));
    } else {
      common := EliminateLeafFactors(op, x, y, env);
    }
  }

  lemma {:induction false} EliminateLeafFactors(op: Op, x: Expr, y: Expr, env: Env) returns (common: Tri)
    requires !Is(op, x) && !Is(op, y)
    ensures var (x', y') := EliminateUnder(op, x, y);
            && Eval(x, env) == Apply(op, common, Eval(x', env))
            && Eval(y, env) == Apply(op, common, Eval(y', env))
    decreases Size(x) + Size(y), 3, 0
  {
    TriNames();
    common := Eval(Unit(op), env);
    if !(x == y && IsYn(x)) && Eq(x, y) {
      EqSound(x, y, env);
      common := Eval(x, env);
    }
  }

  // ----- what expr_eq recognises -----

  predicate Literal(e: Expr) { e.Sym? || e.Equal? || e.Unequal? || (e.Not? && e.e.Sym?) }

  /** A chain of one operator over literals, grouped in any way. */
  predicate Flat(op: Op, e: Expr) {
    if Is(op, e) then Flat(op, e.l) && Flat(op, e.r) else Literal(e)
  }

  /** The operands of the chain, without and with the constants y and n. */
  ghost function Proper(op: Op, e: Expr): multiset<Expr> {
    if Is(op, e) then Proper(op, e.l) + Proper(op, e.r)
    else if IsYn(e) then multiset{} else multiset{e}
  }
  ghost function Operands(op: Op, e: Expr): multiset<Expr> {
    if Is(op, e) then Operands(op, e.l) + Operands(op, e.r) else multiset{e}
  }

  lemma LiteralEq(x: Expr, y: Expr)
    requires Literal(x) && Literal(y)
    ensures Eq(x, y) <==> x == y
  {
    if x.Not? && y.Not? { assert Eq(x, y) <==> Eq(x.e, y.e); }
  }

  lemma CancelTwice<T>(a: multiset<T>, b: multiset<T>, c: multiset<T>)
    ensures (a - c) + (b - (c - a)) == (a + b) - c
    ensures (c - a) - b == c - (a + b)
  {}

  /** x' and y' are x and y without the proper operands that both hold; the deciding constants are kept. */
  ghost predicate Cancelled(op: Op, x: Expr, y: Expr, x': Expr, y': Expr) {
    && Flat(op, x') && Flat(op, y') && (Is(op, x) <==> Is(op, x')) && (Is(op, y) <==> Is(op, y'))
    && Proper(op, x') == Proper(op, x) - Proper(op, y)
    && Proper(op, y') == Proper(op, y) - Proper(op, x)
    && Operands(op, x')[Zero(op)] == Operands(op, x)[Zero(op)]
    && Operands(op, y')[Zero(op)] == Operands(op, y)[Zero(op)]
  }

  lemma CancelledLeft(op: Op, x: Expr, y: Expr, l: Expr, y1: Expr, r: Expr, y2: Expr)
    requires Is(op, x) && Cancelled(op, x.l, y, l, y1) && Cancelled(op, x.r, y1, r, y2)
    ensures Cancelled(op, x, y, Bin(op, l, r), y2)
  {
    var n, z := Bin(op, l, r), Zero(op);
    assert Flat(op, n);
    assert Operands(op, n)[z] == Operands(op, x)[z] by {
      assert Operands(op, n) == Operands(op, l) + Operands(op, r);
      assert Operands(op, x) == Operands(op, x.l) + Operands(op, x.r);
    }
    assert Proper(op, n) == Proper(op, l) + Proper(op, r);
    assert Proper(op, x) == Proper(op, x.l) + Proper(op, x.r);
    hide Proper, Operands, Flat;
    CancelTwice(Proper(op, x.l), Proper(op, x.r), Proper(op, y));
  }

  lemma CancelledSwap(op: Op, x: Expr, y: Expr, x': Expr, y': Expr)
    requires Cancelled(op, x, y, x', y')
    ensures Cancelled(op, y, x, y', x')
  {}

  /** One pass cancels exactly the operands that both chains hold. */
  lemma {:induction false} EliminateCancels(op: Op, x: Expr, y: Expr)
    requires Flat(op, x) && Flat(op, y)
    ensures Cancelled(op, x, y, EliminateUnder(op, x, y).0, EliminateUnder(op, x, y).1)
    decreases Size(x) + Size(y)
  {
    if Is(op, x) {
      var (l, y1) := EliminateUnder(op, x.l, y);
      var (r, y2) := EliminateUnder(op, x.r, y1);
      EliminateCancels(op, x.l, y);
      EliminateCancels(op, x.r, y1);
      assert EliminateUnder(op, x, y) == (Bin(op, l, r), y2);
      CancelledLeft(op, x, y, l, y1, r, y2);
    } else if Is(op, y) {
      var (x1, l) := EliminateUnder(op, x, y.l);
      var (x2, r) := EliminateUnder(op, x1, y.r);
      EliminateCancels(op, x, y.l);
      EliminateCancels(op, x1, y.r);
      assert EliminateUnder(op, x, y) == (x2, Bin(op, l, r));
      CancelledSwap(op, x, y.l, x1, l);
      CancelledSwap(op, x1, y.r, x2, r);
      CancelledLeft(op, y, x, l, x1, r, x2);
      CancelledSwap(op, y, x, Bin(op, l, r), x2);
    } else {
      LeafCancels(op, x, y);
    }
  }

  lemma LeafCancels(op: Op, x: Expr, y: Expr)
    requires Literal(x) && Literal(y)
    ensures Cancelled(op, x, y, EliminateUnder(op, x, y).0, EliminateUnder(op, x, y).1)
  {
    LiteralEq(x, y);
    assert EliminateUnder(op, x, y) == if x == y && !IsYn(x) then (Unit(op), Unit(op)) else (x, y);
    LeafOperands(op, x, y);
  }

  lemma LeafOperands(op: Op, x: Expr, y: Expr)
    requires Literal(x) && Literal(y)
    ensures if x == y && !IsYn(x) then Cancelled(op, x, y, Unit(op), Unit(op)) else Cancelled(op, x, y, x, y)
  {
    TriNames();
    var p, q := Proper(op, x), Proper(op, y);
    assert p == if IsYn(x) then multiset{} else multiset{x};
    assert q == if IsYn(y) then multiset{} else multiset{y};
    if x == y && !IsYn(x) {
      assert Proper(op, Unit(op)) == multiset{} == p - q == q - p;
      assert Operands(op, x)[Zero(op)] == 0 == Operands(op, Unit(op))[Zero(op)];
    } else {
      assert p - q == p && q - p == q;
    }
  }

  /** A chain of constants folds to the deciding constant if that occurs, and to the unit otherwise. */
  lemma {:induction false} ConstantsFold(op: Op, x: Expr)
    requires Flat(op, x) && Proper(op, x) == multiset{}
    ensures EliminateYn(x) == if Zero(op) in Operands(op, x) then Zero(op) else Unit(op)
  {
    TriNames();
    if Is(op, x) {
      assert Proper(op, x) == Proper(op, x.l) + Proper(op, x.r);
      assert Proper(op, x.l) == multiset{} && Proper(op, x.r) == multiset{};
      ConstantsFold(op, x.l);
      ConstantsFold(op, x.r);
    } else {
      assert x in multiset{x};
      assert IsYn(x);
    }
  }

  lemma {:induction false} ProperOfOperands(op: Op, x: Expr)
    ensures forall e :: Proper(op, x)[e] == if IsYn(e) then 0 else Operands(op, x)[e]
  {
    if Is(op, x) {
      ProperOfOperands(op, x.l);
      ProperOfOperands(op, x.r);
    }
  }

  /** Completeness on chains of literals: expr_eq sees through every reordering and regrouping. */
  lemma EqComplete(op: Op, x: Expr, y: Expr)
    requires Is(op, x) && Is(op, y) && Flat(op, x) && Flat(op, y)
    requires Operands(op, x) == Operands(op, y)
    ensures Eq(x, y)
  {
    RemaindersAgree(op, x, y);
    var (x', y') := EliminateUnder(op, x, y);
    assert SameType(x', y');
    assert EliminateEq(x, y) == (EliminateYn(x'), EliminateYn(y'));
  }

  lemma RemaindersAgree(op: Op, x: Expr, y: Expr)
    requires Is(op, x) && Is(op, y) && Flat(op, x) && Flat(op, y)
    requires Operands(op, x) == Operands(op, y)
    ensures var (x', y') := EliminateUnder(op, x, y);
            Is(op, x') && Is(op, y') && EliminateYn(x').Sym? && EliminateYn(x') == EliminateYn(y')
  {
    ProperOfOperands(op, x);
    ProperOfOperands(op, y);
    assert Proper(op, x) == Proper(op, y);
    assert Proper(op, x) - Proper(op, y) == multiset{} == Proper(op, y) - Proper(op, x);
    var (x', y') := EliminateUnder(op, x, y);
    EliminateCancels(op, x, y);
    ConstantsFold(op, x');
    ConstantsFold(op, y');
  }

  // ----- expr_extract_eq -----

  /** The common operands found so far, and what is left on either side. */
  datatype Extraction = Extraction(common: Option<Expr>, x: Expr, y: Expr)

  /** expr_extract_eq */
  function Extract(op: Op, found: Option<Expr>, x: Expr, y: Expr): (r: Extraction)
    ensures Size(r.x) <= Size(x) && Size(r.y) <= Size(y)
    decreases Size(x) + Size(y)
  {
    if Is(op, x) then
      var s := Extract(op, found, x.l, y);
      var t := Extract(op, s.common, x.r, s.y);
      Extraction(t.common, Bin(op, s.x, t.x), t.y)
    else if Is(op, y) then
      var s := Extract(op, found, x, y.l);
      var t := Extract(op, s.common, s.x, y.r);
      Extraction(t.common, t.x, Bin(op, s.y, t.y))
    else if Eq(x, y) then
      Extraction(Some(if found.Some? then Bin(op, found.value, x) else x), Unit(op), Unit(op))
    else
      Extraction(found, x, y)
  }

  /** expr_extract_eq_and, expr_extract_eq_or */
  function ExtractEq(op: Op, x: Expr, y: Expr): Extraction {
    var s := Extract(op, None, x, y);
    if s.common.Some? then Extraction(s.common, EliminateYn(s.x), EliminateYn(s.y)) else s
  }

  function CommonValue(op: Op, c: Option<Expr>, env: Env): Tri {
    Eval(if c.Some? then c.value else Unit(op), env)
  }

  lemma {:induction false} ExtractFactors(op: Op, found: Option<Expr>, x: Expr, y: Expr, env: Env) returns (gained: Tri)
    ensures var s := Extract(op, found, x, y);
            && CommonValue(op, s.common, env) == Apply(op, CommonValue(op, found, env), gained)
            && Eval(x, env) == Apply(op, gained, Eval(s.x, env))
            && Eval(y, env) == Apply(op, gained, Eval(s.y, env))
    decreases Size(x) + Size(y)
  {
    if Is(op, x) {
      var s := Extract(op, found, x.l, y);
      var t := Extract(op, s.common, x.r, s.y);
      var c := ExtractFactors(op, found, x.l, y, env);
      var d := ExtractFactors(op, s.common, x.r, s.y, env);
      gained := Apply(op, c, d);
      assert Extract(op, found, x, y) == Extraction(t.common, Bin(op, s.x, t.x), t.y);
      ApplyRegroups(op, c, d, Eval(s.x, env), Eval(t.x, env));
      ApplyRegroups(op, c, d, c, Eval(t.y, env));
      ApplyRegroups(op, CommonValue(op, found, env), c, c, d);
    } else if Is(op, y) {
      var s := Extract(op, found, x, y.l);
      var t := Extract(op, s.common, s.x, y.r);
      var c := ExtractFactors(op, found, x, y.l, env);
      var d := ExtractFactors(op, s.common, s.x, y.r, env);
      gained := Apply(op, c, d);
      assert Extract(op, found, x, y) == Extraction(t.common, t.x, Bin(op, s.y, t.y));
      ApplyRegroups(op, c, d, Eval(s.y, env), Eval(t.y, env));
      ApplyRegroups(op, c, d, c, Eval(t.x, env));
      ApplyRegroups(op, CommonValue(op, found, env), c, c, d);
    } else {
      gained := ExtractLeafFactors(op, found, x, y, env);
    }
  }

  lemma ExtractLeafFactors(op: Op, found: Option<Expr>, x: Expr, y: Expr, env: Env) returns (gained: Tri)
    requires !Is(op, x) && !Is(op, y)
    ensures var s := Extract(op, found, x, y);
            && CommonValue(op, s.common, env) == Apply(op, CommonValue(op, found, env), gained)
            && Eval(x, env) == Apply(op, gained, Eval(s.x, env))
            && Eval(y, env) == Apply(op, gained, Eval(s.y, env))
  {
    TriNames();
    gained := Eval(Unit(op), env);
    if Eq(x, y) {
      EqSound(x, y, env);
      gained := Eval(x, env);
    }
  }

  /** The extracted expression is exactly what both sides lost. */
  lemma ExtractEqFactors(op: Op, x: Expr, y: Expr, env: Env)
    ensures var s := ExtractEq(op, x, y);
            && Eval(x, env) == Apply(op, CommonValue(op, s.common, env), Eval(s.x, env))
            && Eval(y, env) == Apply(op, CommonValue(op, s.common, env), Eval(s.y, env))
  {
    TriNames();
    var s := Extract(op, None, x, y);
    var _ := ExtractFactors(op, None, x, y, env);
    EliminateYnKeepsValue(s.x, env);
    EliminateYnKeepsValue(s.y, env);
  }
}
