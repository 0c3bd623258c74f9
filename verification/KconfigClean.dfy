/** What expr_eliminate_dups leaves, said without the functions that decide what to join and what to drop. */
module KconfigClean {
  import opened Common
  import opened KconfigExpr
  import opened KconfigEq
  import opened KconfigForms
  import opened KconfigDups
  import opened KconfigPasses
  import opened KconfigDedup

  // ----- pairs that join -----

  predicate Logical(s: Symbol) { KindOf(s).Boolean? || KindOf(s).Tristate? }

  /** The two say something about one symbol that can be said in one piece: in an OR, that a tristate symbol has one of
      two values, or a boolean one with its negation; in an AND, a symbol that is also compared with a constant, or two
      comparisons of a tristate symbol. */
  predicate Redundant(op: Op, x: Expr, y: Expr) {
    if op.Or? then
      || (x.Equal? && y.Equal? && x.a == y.a && KindOf(x.a).Tristate? && IsTriConst(x.b) && IsTriConst(y.b)
        && x.b != y.b)
      || (x.Sym? && y == Not(x) && KindOf(x.s).Boolean?)
    else
      || (x.Sym? && Logical(x.s) && y in {Equal(x.s, YES), Unequal(x.s, NO), Unequal(x.s, MOD)})
      || (x.Equal? && y.Unequal? && x.a == y.a && KindOf(x.a).Tristate? && x.b.Const? && y.b.Const?)
      || (x.Unequal? && y.Unequal? && x.a == y.a && KindOf(x.a).Tristate? && IsTriConst(x.b) && IsTriConst(y.b)
          && x.b != y.b)
  }

  /** Exactly these pairs join, in either order, and those that expr_eq identifies. */
  lemma JoinExactly(op: Op, x: Expr, y: Expr)
    ensures Join(op, x, y).Some? <==> Eq(x, y) || Redundant(op, x, y) || Redundant(op, y, x)
  {
    TriNames();
    hide Eq;
    if op.Or? { JoinOrExactly(x, y); } else { JoinAndExactly(x, y); }
  }

  lemma JoinOrExactly(x: Expr, y: Expr)
    ensures JoinOr(x, y).Some? <==> Eq(x, y) || Redundant(Or, x, y) || Redundant(Or, y, x)
  {
    TriNames();
    hide Eq;
  }

  lemma JoinAndExactly(x: Expr, y: Expr)
    ensures JoinAnd(x, y).Some? <==> Eq(x, y) || Redundant(And, x, y) || Redundant(And, y, x)
  {
    TriNames();
    hide Eq;
  }

  // ----- operands that are dropped -----

  /** The form of the negation, by De Morgan. */
  ghost function Opposite(e: Expr): Form
    decreases Size(e), 1
  {
    match e
    case Sym(s) => if s == MOD then Leaf(e) else Negated(Leaf(e))
    case Not(x) => FormOf(x)
    case Bin(op, l, r) => Chained(Dual(op), OppositeParts(op, l) + OppositeParts(op, r))
    case Equal(a, b) => Leaf(Unequal(a, b))
    case Unequal(a, b) => Leaf(Equal(a, b))
  }

  ghost function OppositeParts(op: Op, e: Expr): multiset<Form>
    decreases Size(e), 2
  {
    if Is(op, e) then OppositeParts(op, e.l) + OppositeParts(op, e.r) else multiset{Opposite(e)}
  }

  /** Negating a chain negates its parts. */
  lemma NegatedChain(op: Op, l: Expr, r: Expr)
    ensures Transform(Not(Bin(op, l, r))) == Bin(Dual(op), Transform(Not(l)), Transform(Not(r)))
  {
    var tl, tr := Transform(l), Transform(r);
    assert Transform(Bin(op, l, r)) == Bin(op, tl, tr);
    TransformIdempotent(l);
    TransformIdempotent(r);
    DeMorganWeight(op, tl, tr);
    SameNegation(l, tl);
    SameNegation(r, tr);
  }

  /** The negation is made from the transformed expression. */
  lemma SameNegation(x: Expr, y: Expr)
    requires Transform(x) == Transform(y)
    ensures Transform(Not(x)) == Transform(Not(y))
  {}

  lemma {:induction false} OppositeIsNegation(e: Expr)
    requires Normal(e) && Pure(e) && !IsYn(e)
    ensures var n := Transform(Not(e)); Pure(n) && !IsYn(n) && FormOf(n) == Opposite(e)
    decreases Size(e), 1
  {
    TriNames();
    match e
    case Bin(op, l, r) =>
      NegatedChain(op, l, r);
      NegatedParts(op, l);
      NegatedParts(op, r);
    case _ => TransformFixesNormal(e);
  }

  lemma {:induction false} NegatedParts(op: Op, e: Expr)
    requires Normal(e) && Pure(e) && !IsYn(e)
    ensures var n := Transform(Not(e)); Pure(n) && !IsYn(n) && Parts(Dual(op), n) == OppositeParts(op, e)
    decreases Size(e), 2
  {
    if Is(op, e) {
      NegatedChain(op, e.l, e.r);
      NegatedParts(op, e.l);
      NegatedParts(op, e.r);
    } else {
      OppositeIsNegation(e);
    }
  }

  /** Extraction takes out exactly the parts that both chains have. */
  lemma {:induction false} ExtractReduces(op: Op, found: Option<Expr>, x: Expr, y: Expr)
    requires Loose(op, x) && Loose(op, y)
    ensures var s := Extract(op, found, x, y);
      Reduced(op, x, y, s.x, s.y) && (s.common.None? ==> found.None? && s.x == x && s.y == y)
    decreases Size(x) + Size(y)
  {
    hide Parts;
    if Is(op, x) {
      var s := Extract(op, found, x.l, y);
      var t := Extract(op, s.common, x.r, s.y);
      ExtractReduces(op, found, x.l, y);
      ExtractReduces(op, s.common, x.r, s.y);
      ReducedLeft(op, x, y, s.x, s.y, t.x, t.y);
    } else if Is(op, y) {
      var s := Extract(op, found, x, y.l);
      var t := Extract(op, s.common, s.x, y.r);
      ExtractReduces(op, found, x, y.l);
      ExtractReduces(op, s.common, s.x, y.r);
      ReducedSwap(op, x, y.l, s.x, s.y);
      ReducedSwap(op, s.x, y.r, t.x, t.y);
      ReducedLeft(op, y, x, s.y, s.x, t.y, t.x);
      ReducedSwap(op, y, x, Bin(op, s.y, t.y), t.x);
    } else {
      ExtractLeaf(op, found, x, y);
    }
  }

  lemma ExtractLeaf(op: Op, found: Option<Expr>, x: Expr, y: Expr)
    requires Loose(op, x) && Loose(op, y) && !Is(op, x) && !Is(op, y)
    ensures var s := Extract(op, found, x, y);
      Reduced(op, x, y, s.x, s.y) && (s.common.None? ==> found.None? && s.x == x && s.y == y)
  {
    TriNames();
    if x != Unit(op) && y != Unit(op) {
      EqExactly(x, y);
      hide Eq, Parts;
      if FormOf(x) == FormOf(y) { BothGone(op, x, y); } else { BothStay(op, x, y); }
    } else {
      BothStay(op, x, y);
      assert Eq(x, y) ==> x == y;
      hide Eq, Parts;
    }
  }

  /** An operand is dropped exactly when the negations of all its parts are among the parts of the other. */
  lemma ContradictsExactly(op: Op, x: Expr, y: Expr)
    requires Is(Dual(op), x) && Normal(x) && Pure(x) && Pure(y) && !IsYn(y)
    ensures Contradicts(op, x, y) <==> OppositeParts(Dual(op), x) <= Parts(op, y)
  {
    var n := Transform(Not(x));
    NegatedChain(x.op, x.l, x.r);
    NegatedParts(x.op, x);
    SomePart(x.op, x);
    hide *;
    PureIsLoose(op, n);
    PureIsLoose(op, y);
    ExtractEmpties(op, n, y);
    ContradictsMeans(op, x, y);
  }

  lemma ContradictsMeans(op: Op, x: Expr, y: Expr)
    requires x.Bin?
    ensures Contradicts(op, x, y) <==> ExtractEq(op, Transform(Not(x)), y).x == Unit(op)
  {
    hide ExtractEq, Transform;
  }

  /** Nothing is left of a chain exactly when all its parts are in the other. */
  lemma ExtractEmpties(op: Op, n: Expr, y: Expr)
    requires Loose(op, n) && Loose(op, y) && Is(op, n) && Parts(op, n) != multiset{}
    ensures ExtractEq(op, n, y).x == Unit(op) <==> Parts(op, n) <= Parts(op, y)
  {
    ExtractReduces(op, None, n, y);
    var s := Extract(op, None, n, y);
    LooseFolds(op, s.x);
    hide Parts, Extract, EliminateYn, Loose;
    Within(Parts(op, n), Parts(op, y));
  }

  lemma Within(a: multiset<Form>, b: multiset<Form>)
    ensures a - b == multiset{} <==> a <= b
    ensures a <= b && a - b == a ==> a == multiset{}
  {
    if a - b == multiset{} {
      forall f ensures a[f] <= b[f] { assert (a - b)[f] == 0; }
    } else {
      var f :| f in a - b;
      assert a[f] > b[f];
    }
  }

  lemma {:induction false} SomePart(op: Op, e: Expr)
    ensures OppositeParts(op, e) != multiset{}
  {
    if Is(op, e) { SomePart(op, e.l); } else { assert Opposite(e) in OppositeParts(op, e); }
  }

  // ----- the result -----

  /** No two operands of the chain, at different places, have the same form or can be said in one piece; and there is
      none whose parts all have their negation among those of another part of the chain. */
  ghost predicate ChainClean(op: Op, t: Expr) {
    && (forall p, q :: Operand(op, t, p) && Operand(op, t, q) && p != q ==>
          var x, y := At(op, t, p), At(op, t, q);
          !Redundant(op, x, y) && (Pure(x) && Pure(y) ==> FormOf(x) != FormOf(y)))
    && (forall p, q :: Operand(op, t, p) && OnChain(op, t, q) && p != q ==>
          var x, y := At(op, t, p), At(op, t, q);
          x.Bin? && Normal(x) && Pure(x) && Pure(y) && !IsYn(y) ==> !(OppositeParts(Dual(op), x) <= Parts(op, y)))
  }

  /** The chain at the top of e and, inside its operands, every chain reached without a NOT. */
  ghost predicate Clean(e: Expr)
    decreases e, 0
  {
    e.Bin? ==> ChainClean(e.op, e) && OperandsClean(e.op, e.l) && OperandsClean(e.op, e.r)
  }

  ghost predicate OperandsClean(op: Op, e: Expr)
    decreases e, 1
  {
    if Is(op, e) then OperandsClean(op, e.l) && OperandsClean(op, e.r) else Clean(e)
  }

  lemma ChainSettledIsClean(op: Op, t: Expr)
    requires ChainSettled(op, t)
    ensures ChainClean(op, t)
  {
    hide Eq, Contradicts, Join, Redundant;
    forall p, q | Operand(op, t, p) && Operand(op, t, q) && p != q
      ensures !Redundant(op, At(op, t, p), At(op, t, q))
      ensures var x, y := At(op, t, p), At(op, t, q); Pure(x) && Pure(y) ==> FormOf(x) != FormOf(y)
    {
      var x, y := At(op, t, p), At(op, t, q);
      JoinExactly(op, x, y);
      if Pure(x) && Pure(y) { EqExactly(x, y); }
    }
    forall p, q | Operand(op, t, p) && OnChain(op, t, q) && p != q
      ensures var x, y := At(op, t, p), At(op, t, q);
        x.Bin? && Normal(x) && Pure(x) && Pure(y) && !IsYn(y) ==> !(OppositeParts(Dual(op), x) <= Parts(op, y))
    {
      var x, y := At(op, t, p), At(op, t, q);
      if x.Bin? && Normal(x) && Pure(x) && Pure(y) && !IsYn(y) { ContradictsExactly(op, x, y); }
    }
  }

  lemma {:induction false} SettledIsClean(e: Expr)
    requires Settled(e)
    ensures Clean(e)
    decreases e, 0
  {
    if e.Bin? {
      ChainSettledIsClean(e.op, e);
      OperandsSettledClean(e.op, e.l);
      OperandsSettledClean(e.op, e.r);
    }
  }

  lemma {:induction false} OperandsSettledClean(op: Op, e: Expr)
    requires OperandsSettled(op, e)
    ensures OperandsClean(op, e)
    decreases e, 1
  {
    if Is(op, e) {
      OperandsSettledClean(op, e.l);
      OperandsSettledClean(op, e.r);
    } else {
      SettledIsClean(e);
    }
  }

  /** The result of expr_eliminate_dups is clean. */
  lemma DedupIsClean(e: Expr)
    ensures Clean(Dedup(e))
  {
    DedupIdempotent(e);
    SettledIsClean(Dedup(e));
  }

  /** expr_eliminate_dups */
  method EliminateDups(e: Expr) returns (r: Expr)
    ensures r == Dedup(e) && Settled(r) && Clean(r)
    ensures forall env :: BooleansNeverMod(env) ==> Refines(Eval(e, env), Eval(r, env))
  {
    r := e;
    while true
      invariant Dedup(r) == Dedup(e)
      invariant forall env :: BooleansNeverMod(env) ==> Refines(Eval(e, env), Eval(r, env))
      decreases Size(r)
    {
      var turn := Round(r);
      RoundShrinks(r);
      if turn.count == 0 { break; }
      forall env | BooleansNeverMod(env) ensures Refines(Eval(r, env), Eval(EliminateYn(turn.tree), env)) {
        RoundRefines(r, env);
      }
      r := EliminateYn(turn.tree);
    }
    DedupIdempotent(e);
    DedupIsClean(e);
  }
}
