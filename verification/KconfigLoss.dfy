/** What expr_eliminate_dups may put in the place of m: only the value that the expression has anyway, however the
    symbols that are m are set to y or n. */
module KconfigLoss {
  import opened KconfigExpr
  import opened KconfigEq
  import opened KconfigDups
  import opened KconfigPasses
  import opened KconfigDedup

  function OwnSymbol(s: Symbol): set<Symbol> { if s.Var? then {s} else {} }

  /** The symbols that the expression compares with something. */
  function Compared(e: Expr): set<Symbol> {
    match e
    case Sym(_) => {}
    case Not(x) => Compared(x)
    case Bin(_, l, r) => Compared(l) + Compared(r)
    case Equal(a, b) => OwnSymbol(a) + OwnSymbol(b)
    case Unequal(a, b) => OwnSymbol(a) + OwnSymbol(b)
  }

  /** env' is env with some of the symbols that are m set to y or n, but none of cs. */
  ghost predicate Resolves(env: Env, env': Env, cs: set<Symbol>) {
    && (forall s: Symbol :: env.tri(s) != mod || s in cs ==> env'.tri(s) == env.tri(s))
    && (forall s: Symbol :: env'.text(s) == env.text(s))
  }

  /** A value y or n is not changed by setting more symbols. */
  lemma {:induction false} EvalMonotone(e: Expr, env: Env, env': Env, cs: set<Symbol>)
    requires Resolves(env, env', cs) && Compared(e) <= cs
    ensures Refines(Eval(e, env), Eval(e, env'))
  {
    match e
    case Sym(s) => assert s.Var? ==> Refines(env.tri(s), env'.tri(s));
    case Not(x) => EvalMonotone(x, env, env', cs);
    case Bin(_, l, r) =>
      EvalMonotone(l, env, env', cs);
      EvalMonotone(r, env, env', cs);
    case Equal(a, b) => SameText(a, env, env', cs); SameText(b, env, env', cs);
    case Unequal(a, b) => SameText(a, env, env', cs); SameText(b, env, env', cs);
  }

  lemma SameText(s: Symbol, env: Env, env': Env, cs: set<Symbol>)
    requires Resolves(env, env', cs) && OwnSymbol(s) <= cs
    ensures TextOf(s, env') == TextOf(s, env)
  {
    if s.Var? { assert s in OwnSymbol(s); }
  }

  // ----- no pass compares a symbol that was not compared before -----

  lemma {:induction false} ComparedAt(op: Op, t: Expr, p: Path, s: Expr)
    requires OnChain(op, t, p)
    ensures Compared(At(op, t, p)) <= Compared(t) && Compared(Put(op, t, p, s)) <= Compared(t) + Compared(s)
  {
    if p != [] { ComparedAt(op, Child(t, p[0]), p[1..], s); }
  }

  lemma ComparedJoin(op: Op, x: Expr, y: Expr)
    requires Join(op, x, y).Some?
    ensures Compared(Join(op, x, y).value) <= Compared(x) + Compared(y)
  {
    hide Eq;
  }

  lemma ComparedPair(op: Op, t: Expr, p: Path, q: Path)
    requires Operand(op, t, p) && Operand(op, t, q) && p != q
    ensures Compared(JoinPair(op, t, p, q).tree) <= Compared(t)
  {
    var x, y := At(op, t, p), At(op, t, q);
    ComparedAt(op, t, p, Unit(op));
    ComparedAt(op, t, q, y);
    if Join(op, x, y).Some? {
      var j := Join(op, x, y).value;
      ComparedJoin(op, x, y);
      PutElsewhere(op, t, p, Unit(op), q);
      ComparedAt(op, Put(op, t, p, Unit(op)), q, j);
    }
  }

  lemma {:induction false} ComparedDups1(op: Op, t: Expr, p: Path, q: Path)
    requires OnChain(op, t, p) && OnChain(op, t, q)
    ensures Compared(Dups1(op, t, p, q).tree) <= Compared(t)
    decreases Size(t), Chain(op, At(op, t, p)) + Chain(op, At(op, t, q))
  {
    hide Compared, JoinPair;
    if Is(op, At(op, t, p)) {
      AtStep(op, t, p, false); AtStep(op, t, p, true);
      var a := Dups1(op, t, p + [false], q);
      SameChainAt(op, t, a.tree, p + [true]); SameChainAt(op, t, a.tree, q);
      ComparedDups1(op, t, p + [false], q);
      ComparedDups1(op, a.tree, p + [true], q);
    } else if Is(op, At(op, t, q)) {
      AtStep(op, t, q, false); AtStep(op, t, q, true);
      var a := Dups1(op, t, p, q + [false]);
      SameChainAt(op, t, a.tree, q + [true]); SameChainAt(op, t, a.tree, p);
      ComparedDups1(op, t, p, q + [false]);
      ComparedDups1(op, a.tree, p, q + [true]);
    } else if p != q {
      var x := At(op, t, p);
      PutAt(op, t, p, x);
      var a := if x.Bin? then Dups1(x.op, x, [], []) else Pass(x, 0);
      if x.Bin? { ComparedDups1(x.op, x, [], []); }
      PutAt(op, t, p, a.tree); PutElsewhere(op, t, p, a.tree, q);
      ComparedAt(op, t, p, a.tree);
      ComparedPair(op, Put(op, t, p, a.tree), p, q);
    }
  }

  lemma {:induction false} ComparedDups2(op: Op, t: Expr, p: Path, q: Path)
    requires OnChain(op, t, p) && OnChain(op, t, q)
    ensures Compared(Dups2(op, t, p, q).tree) <= Compared(t)
    decreases Size(t), Chain(op, At(op, t, p)) + Chain(op, At(op, t, q)), 1
  {
    hide Compared, Contradicts;
    if Is(op, At(op, t, p)) {
      AtStep(op, t, p, false); AtStep(op, t, p, true);
      var a := Dups2(op, t, p + [false], q);
      SameChainAt(op, t, a.tree, p + [true]); SameChainAt(op, t, a.tree, q);
      ComparedDups2(op, t, p + [false], q);
      ComparedDups2(op, a.tree, p + [true], q);
    } else {
      var a := Dups2Parts(op, t, p, q);
      SameChainAt(op, t, a.tree, p); SameChainAt(op, t, a.tree, q);
      ComparedParts(op, t, p, q);
      if p != q {
        var x := At(op, a.tree, p);
        PutAt(op, a.tree, p, x);
        var b := if x.Bin? then Dups2(x.op, x, [], []) else Pass(x, 0);
        if x.Bin? { ComparedDups2(x.op, x, [], []); }
        PutAt(op, a.tree, p, b.tree);
        var u := Put(op, a.tree, p, b.tree);
        SameChainTrans(op, t, a.tree, u); SameChainAt(op, t, u, q);
        ComparedAt(op, a.tree, p, b.tree);
        ComparedDrop(op, u, p, q);
      }
    }
  }

  lemma ComparedDrop(op: Op, t: Expr, p: Path, q: Path)
    requires Operand(op, t, p) && OnChain(op, t, q)
    ensures Compared(DropContradicted(op, t, p, q).tree) <= Compared(t)
  {
    ComparedAt(op, t, p, Zero(op));
    hide Contradicts;
  }

  lemma {:induction false} ComparedParts(op: Op, t: Expr, p: Path, q: Path)
    requires Operand(op, t, p) && OnChain(op, t, q)
    ensures Compared(Dups2Parts(op, t, p, q).tree) <= Compared(t)
    decreases Size(t), Chain(op, At(op, t, p)) + Chain(op, At(op, t, q)), 0
  {
    hide Compared;
    if Is(op, At(op, t, q)) {
      AtStep(op, t, q, false); AtStep(op, t, q, true);
      var a := Dups2(op, t, p, q + [false]);
      SameChainAt(op, t, a.tree, q + [true]); SameChainAt(op, t, a.tree, p);
      ComparedDups2(op, t, p, q + [false]);
      ComparedDups2(op, a.tree, p, q + [true]);
    }
  }

  lemma {:induction false} ComparedFold(e: Expr)
    ensures Compared(EliminateYn(e)) <= Compared(e)
  {
    if e.Bin? {
      ComparedFold(e.l);
      ComparedFold(e.r);
    }
  }

  lemma {:induction false} ComparedDedup(e: Expr)
    ensures Compared(Dedup(e)) <= Compared(e)
    decreases Size(e)
  {
    RoundShrinks(e);
    if Round(e).count != 0 {
      ComparedDups1(e.op, e, [], []);
      ComparedDups2(e.op, Dups1(e.op, e, [], []).tree, [], []);
      ComparedFold(Round(e).tree);
      ComparedDedup(EliminateYn(Round(e).tree));
    }
  }

  /** For every expression: if the simplified one is y or n, so is the given one, or it is m, however symbols that are m
      are set; m is lost only to the one value that setting them can lead to. */
  lemma LostIsDecided(e: Expr, env: Env, env': Env)
    requires BooleansNeverMod(env) && BooleansNeverMod(env') && Resolves(env, env', Compared(e))
    requires Eval(Dedup(e), env) != mod
    ensures Eval(e, env') == mod || Eval(e, env') == Eval(Dedup(e), env)
  {
    ComparedDedup(e);
    EvalMonotone(Dedup(e), env, env', Compared(e));
    DedupRefines(e, env');
  }

  /** If setting symbols that are m can lead to y and can lead to n, then the value m is kept. */
  lemma UndecidedIsKept(e: Expr, env: Env, env1: Env, env2: Env)
    requires BooleansNeverMod(env) && BooleansNeverMod(env1) && BooleansNeverMod(env2)
    requires Resolves(env, env1, Compared(e)) && Resolves(env, env2, Compared(e))
    requires Eval(e, env1) == yes && Eval(e, env2) == no
    ensures Eval(e, env) == mod && Eval(Dedup(e), env) == mod
  {
    EvalMonotone(e, env, env1, Compared(e));
    EvalMonotone(e, env, env2, Compared(e));
    if Eval(Dedup(e), env) != mod {
      LostIsDecided(e, env, env1);
      LostIsDecided(e, env, env2);
    }
  }
}
