/** Removal of duplicate and contradictory operands from AND and OR chains.

    The source walks one tree with two pointers into it. Here a pointer is a
    position: the left/right turns that lead from the root of the chain to a node. */
module KconfigDups {
  import opened Common
  import opened KconfigExpr
  import opened KconfigEq

  // ----- joining two operands -----

  function LeftSymbol(e: Expr): Symbol
    requires !e.Bin? && !e.Not?
  {
    if e.Sym? then e.s else e.a
  }

  /** The boolean or tristate symbol that both operands speak about, if there is one. */
  function SharedSymbol(x: Expr, y: Expr): (r: Option<Symbol>) {
    if x.Bin? || y.Bin? then None
    else if x.Not? && (x.e.Bin? || x.e.Not?) then None
    else if y.Not? && !y.e.Sym? then None
    else
      var s := LeftSymbol(if x.Not? then x.e else x);
      var t := LeftSymbol(if y.Not? then y.e else y);
      if s == t && (KindOf(s).Boolean? || KindOf(s).Tristate?) then Some(s) else None
  }

  predicate Either(s: Symbol, t: Symbol, u: Symbol, v: Symbol) { (s == u && t == v) || (s == v && t == u) }

  /** expr_join_or */
  function JoinOr(x: Expr, y: Expr): Option<Expr> {
    if Eq(x, y) then Some(x) else
    match SharedSymbol(x, y)
    case None => None
    case Some(s) =>
      if KindOf(s).Tristate? && x.Equal? && y.Equal? && Either(x.b, y.b, YES, MOD) then Some(Unequal(s, NO))
      else if KindOf(s).Tristate? && x.Equal? && y.Equal? && Either(x.b, y.b, YES, NO) then Some(Unequal(s, MOD))
      else if KindOf(s).Tristate? && x.Equal? && y.Equal? && Either(x.b, y.b, MOD, NO) then Some(Unequal(s, YES))
      else if KindOf(s).Boolean? && ((x.Not? && x.e.Sym? && y.Sym?) || (y.Not? && y.e.Sym? && x.Sym?))
        then Some(Sym(YES))
      else None
  }

  /** expr_join_and */
  function JoinAnd(x: Expr, y: Expr): Option<Expr> {
    if Eq(x, y) then Some(x) else
    match SharedSymbol(x, y)
    case None => None
    case Some(s) =>
      if (x.Sym? && y.Equal? && y.b == YES) || (y.Sym? && x.Equal? && x.b == YES) then Some(Equal(s, YES))
      else if (x.Sym? && y.Unequal? && y.b == NO) || (y.Sym? && x.Unequal? && x.b == NO) then Some(Sym(s))
      else if (x.Sym? && y.Unequal? && y.b == MOD) || (y.Sym? && x.Unequal? && x.b == MOD) then Some(Equal(s, YES))
      else if !KindOf(s).Tristate? then None
      else if x.Equal? && y.Unequal? && x.b.Const? && y.b.Const? then
        Some(if x.b != y.b then Equal(s, x.b) else Sym(NO))
      else if x.Unequal? && y.Equal? && x.b.Const? && y.b.Const? then
        Some(if y.b != x.b then Equal(s, y.b) else Sym(NO))
      else if x.Unequal? && y.Unequal? && Either(x.b, y.b, YES, NO) then Some(Equal(s, MOD))
      else if x.Unequal? && y.Unequal? && Either(x.b, y.b, YES, MOD) then Some(Equal(s, NO))
      else if x.Unequal? && y.Unequal? && Either(x.b, y.b, MOD, NO) then Some(Equal(s, YES))
      else None
  }

  function Join(op: Op, x: Expr, y: Expr): (j: Option<Expr>)
    ensures j.Some? && !Is(op, x) ==> !Is(op, j.value)
    ensures j.Some? ==> Size(j.value) < Size(x) + Size(y)
  {
    if op.And? then JoinAnd(x, y) else JoinOr(x, y)
  }

  /** Every join is exact for all three values. */
  lemma JoinKeepsValue(op: Op, x: Expr, y: Expr, env: Env)
    requires BooleansNeverMod(env)
    requires Join(op, x, y).Some?
    ensures Eval(Join(op, x, y).value, env) == Apply(op, Eval(x, env), Eval(y, env))
  {
    TriNames();
    if Eq(x, y) {
      EqSound(x, y, env);
    } else {
      var s := SharedSymbol(x, y).value;
      assert TextOf(s, env) == TriName(TriOf(s, env));
      if op.And? { JoinAndKeepsValue(s, x, y, env); } else { JoinOrKeepsValue(s, x, y, env); }
    }
  }

  lemma JoinOrKeepsValue(s: Symbol, x: Expr, y: Expr, env: Env)
    requires BooleansNeverMod(env) && !Eq(x, y) && SharedSymbol(x, y) == Some(s)
    requires JoinOr(x, y).Some? && TextOf(s, env) == TriName(TriOf(s, env))
    ensures Eval(JoinOr(x, y).value, env) == Apply(Or, Eval(x, env), Eval(y, env))
  {
    TriNames();
  }

  lemma JoinAndKeepsValue(s: Symbol, x: Expr, y: Expr, env: Env)
    requires BooleansNeverMod(env) && !Eq(x, y) && SharedSymbol(x, y) == Some(s)
    requires JoinAnd(x, y).Some? && TextOf(s, env) == TriName(TriOf(s, env))
    ensures Eval(JoinAnd(x, y).value, env) == Apply(And, Eval(x, env), Eval(y, env))
  {
    TriNames();
  }

  // ----- positions in a chain -----

  type Path = seq<bool>

  function Child(e: Expr, right: bool): Expr
    requires e.Bin?
  {
    if right then e.r else e.l
  }

  /** Following p from t passes only through nodes of the chain of `op`. */
  predicate OnChain(op: Op, t: Expr, p: Path) {
    p == [] || (Is(op, t) && OnChain(op, Child(t, p[0]), p[1..]))
  }

  function At(op: Op, t: Expr, p: Path): Expr
    requires OnChain(op, t, p)
  {
    if p == [] then t else At(op, Child(t, p[0]), p[1..])
  }

  function Put(op: Op, t: Expr, p: Path, s: Expr): Expr
    requires OnChain(op, t, p)
  {
    if p == [] then s
    else if p[0] then Bin(op, t.l, Put(op, t.r, p[1..], s))
    else Bin(op, Put(op, t.l, p[1..], s), t.r)
  }

  /** p leads to an operand of the chain. */
  predicate Operand(op: Op, t: Expr, p: Path) { OnChain(op, t, p) && !Is(op, At(op, t, p)) }

  /** The number of nodes of `op` at the top of e. */
  function Chain(op: Op, e: Expr): nat {
    if Is(op, e) then 1 + Chain(op, e.l) + Chain(op, e.r) else 0
  }

  /** The two chains have the same shape; their operands may differ. */
  predicate SameChain(op: Op, t: Expr, u: Expr) {
    if Is(op, t) then Is(op, u) && SameChain(op, t.l, u.l) && SameChain(op, t.r, u.r) else !Is(op, u)
  }

  lemma {:induction false} SameChainTrans(op: Op, t: Expr, u: Expr, v: Expr)
    requires SameChain(op, t, u) && SameChain(op, u, v)
    ensures SameChain(op, t, v)
  {
    if Is(op, t) {
      SameChainTrans(op, t.l, u.l, v.l);
      SameChainTrans(op, t.r, u.r, v.r);
    }
  }

  lemma {:induction false} SameChainRefl(op: Op, t: Expr)
    ensures SameChain(op, t, t)
  {
    if Is(op, t) {
      SameChainRefl(op, t.l);
      SameChainRefl(op, t.r);
    }
  }

  lemma {:induction false} SameChainSize(op: Op, t: Expr, u: Expr)
    requires SameChain(op, t, u)
    ensures Chain(op, t) == Chain(op, u)
  {
    if Is(op, t) {
      SameChainSize(op, t.l, u.l);
      SameChainSize(op, t.r, u.r);
    }
  }

  lemma {:induction false} SameChainAt(op: Op, t: Expr, u: Expr, p: Path)
    requires SameChain(op, t, u) && OnChain(op, t, p)
    ensures OnChain(op, u, p) && SameChain(op, At(op, t, p), At(op, u, p))
    ensures Chain(op, At(op, t, p)) == Chain(op, At(op, u, p))
  {
    if p != [] { SameChainAt(op, Child(t, p[0]), Child(u, p[0]), p[1..]); } else { SameChainSize(op, t, u); }
  }

  lemma {:induction false} AtStep(op: Op, t: Expr, p: Path, right: bool)
    requires OnChain(op, t, p) && Is(op, At(op, t, p))
    ensures OnChain(op, t, p + [right]) && At(op, t, p + [right]) == Child(At(op, t, p), right)
  {
    if p == [] {
      assert [right][1..] == [];
    } else {
      assert (p + [right])[1..] == p[1..] + [right];
      AtStep(op, Child(t, p[0]), p[1..], right);
    }
  }

  lemma {:induction false} PutAt(op: Op, t: Expr, p: Path, s: Expr)
    requires OnChain(op, t, p)
    ensures Size(Put(op, t, p, s)) == Size(t) - Size(At(op, t, p)) + Size(s)
    ensures p != [] ==> Is(op, t) && Size(At(op, t, p)) < Size(t)
    ensures Operand(op, t, p) && !Is(op, s) ==> SameChain(op, t, Put(op, t, p, s)) && Operand(op, Put(op, t, p, s), p)
    ensures OnChain(op, Put(op, t, p, s), p) && At(op, Put(op, t, p, s), p) == s
    ensures s == At(op, t, p) ==> Put(op, t, p, s) == t
  {
    if p != [] {
      PutAt(op, Child(t, p[0]), p[1..], s);
      SameChainRefl(op, t.l);
      SameChainRefl(op, t.r);
    }
  }

  /** Writing one operand leaves the others alone. */
  lemma {:induction false} PutElsewhere(op: Op, t: Expr, p: Path, s: Expr, q: Path)
    requires Operand(op, t, p) && !Is(op, s) && Operand(op, t, q) && p != q
    ensures Operand(op, Put(op, t, p, s), q) && At(op, Put(op, t, p, s), q) == At(op, t, q)
  {
    if p != [] && q != [] && p[0] == q[0] {
      assert p == [p[0]] + p[1..] && q == [q[0]] + q[1..];
      PutElsewhere(op, Child(t, p[0]), p[1..], s, q[1..]);
    }
  }

  /** The operand at p counts once in the value of the chain. */
  lemma {:induction false} PutValue(op: Op, t: Expr, p: Path, s: Expr, env: Env)
    requires OnChain(op, t, p)
    ensures Eval(Put(op, t, p, s), env) == Apply(op, Eval(Put(op, t, p, Unit(op)), env), Eval(s, env))
  {
    TriNames();
    if p != [] {
      PutValue(op, Child(t, p[0]), p[1..], s, env);
    }
  }
}
