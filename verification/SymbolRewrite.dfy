/** The rewritings keep the values of expressions over the calculated symbols. */
module SymbolRewrite {
  import opened KconfigExpr
  import opened SymbolSpec

  /** The kinds that an expression carries are those of the table. */
  predicate TypedSymbol(t: Table, y: Symbol) { y.Var? ==> y.id < |t| && y.kind == t[y.id].kind }

  predicate Typed(t: Table, e: Expr) {
    match e
    case Sym(y) => TypedSymbol(t, y)
    case Not(x) => Typed(t, x)
    case Bin(_, l, r) => Typed(t, l) && Typed(t, r)
    case Equal(a, b) => TypedSymbol(t, a) && TypedSymbol(t, b)
    case Unequal(a, b) => TypedSymbol(t, a) && TypedSymbol(t, b)
  }

  /** The values of the symbols, n for those that carry another kind than in the table. */
  function TypedEnv(t: Table, k: Inputs, s: State): Env {
    var env := EnvOf(k, s);
    Env((y: Symbol) => if TypedSymbol(t, y) then env.tri(y) else no, env.text)
  }

  /** In a good state no boolean symbol is m, which is what the rewritings rely on. */
  lemma GoodEnv(t: Table, k: Inputs, s: State)
    requires Good(t, k, s)
    ensures BooleansNeverMod(TypedEnv(t, k, s))
  {
    forall y: Symbol | y.Var? && y.kind.Boolean? ensures TypedEnv(t, k, s).tri(y) != mod {
      if TypedSymbol(t, y) { assert NeverMod(t[y.id], s.cells[y.id]); }
    }
  }

  lemma {:induction false} TypedEval(t: Table, k: Inputs, s: State, e: Expr)
    requires Typed(t, e)
    ensures Eval(e, TypedEnv(t, k, s)) == Eval(e, EnvOf(k, s))
  {
    match e
    case Sym(_) =>
    case Not(x) => TypedEval(t, k, s, x);
    case Bin(_, l, r) =>
      TypedEval(t, k, s, l);
      TypedEval(t, k, s, r);
    case Equal(_, _) =>
    case Unequal(_, _) =>
  }

  lemma {:induction false} TransformTyped(t: Table, e: Expr)
    requires Typed(t, e)
    ensures Typed(t, Transform(e))
    decreases Weight(e)
  {
    match e
    case Sym(_) =>
    case Equal(_, _) =>
    case Unequal(_, _) =>
    case Bin(_, l, r) =>
      TransformTyped(t, l);
      TransformTyped(t, r);
    case Not(x) =>
      TransformTyped(t, x);
      match Transform(x)
      case Not(y) => TransformTyped(t, y);
      case Bin(op, l, r) => DeMorganWeight(op, l, r); TransformTyped(t, Bin(Dual(op), Not(l), Not(r)));
      case _ =>
  }

  /** What expr_transform makes of an expression over the symbols has the same value in every good state. */
  lemma TransformKeepsCalculated(t: Table, k: Inputs, s: State, e: Expr)
    requires Good(t, k, s) && Typed(t, e)
    ensures Eval(Transform(e), EnvOf(k, s)) == Eval(e, EnvOf(k, s))
  {
    GoodEnv(t, k, s);
    TransformTyped(t, e);
    TransformKeepsValue(e, TypedEnv(t, k, s));
    TypedEval(t, k, s, e);
    TypedEval(t, k, s, Transform(e));
  }
}
