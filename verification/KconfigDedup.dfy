/** The loop of expr_eliminate_dups: it terminates, keeps every definite value, and
    leaves no chain in which either pass could still do anything. */
module KconfigDedup {
  import opened KconfigExpr
  import opened KconfigDups
  import opened KconfigPasses

  /** One turn of the loop, before constant folding. */
  function Round(e: Expr): Pass {
    if !e.Bin? then Pass(e, 0)
    else
      var a := Dups1(e.op, e, [], []);
      var b := Dups2(e.op, a.tree, [], []);
      Pass(b.tree, a.count + b.count)
  }

  /** A turn that rewrites something leaves a strictly smaller tree. */
  lemma RoundShrinks(e: Expr)
    ensures Round(e).count == 0 ==> Round(e).tree == e
    ensures Round(e).count > 0 ==> Size(EliminateYn(Round(e).tree)) < Size(e)
  {
    if e.Bin? {
      var a := Dups1(e.op, e, [], []);
      var b := Dups2(e.op, a.tree, [], []);
      Dups1Progress(e.op, e, [], []);
      Dups2Progress(e.op, a.tree, [], []);
      ProgressThen(e, a, b);
      EliminateYnFolds(b.tree);
    }
  }

  lemma RoundRefines(e: Expr, env: Env)
    requires BooleansNeverMod(env)
    ensures Refines(Eval(e, env), Eval(EliminateYn(Round(e).tree), env))
  {
    EliminateYnKeepsValue(Round(e).tree, env);
    if e.Bin? {
      Dups1KeepsValue(e.op, e, [], [], env);
      Dups2Refines(e.op, Dups1(e.op, e, [], []).tree, [], [], env);
    }
  }

  /** expr_eliminate_dups as a function of the expression. */
  function Dedup(e: Expr): Expr
    decreases Size(e)
  {
    RoundShrinks(e);
    if Round(e).count == 0 then e else Dedup(EliminateYn(Round(e).tree))
  }

  /** Every value y or n is kept, under every assignment; in particular any
      assignment that gives the symbols only y and n keeps the meaning. */
  lemma {:induction false} DedupRefines(e: Expr, env: Env)
    requires BooleansNeverMod(env)
    ensures Refines(Eval(e, env), Eval(Dedup(e), env))
    decreases Size(e)
  {
    RoundShrinks(e);
    if Round(e).count != 0 {
      RoundRefines(e, env);
      DedupRefines(EliminateYn(Round(e).tree), env);
    }
  }

  /** Every symbol that stands as an operand is worth y or n. */
  predicate Definite(e: Expr, env: Env) {
    match e
    case Sym(s) => TriOf(s, env) != mod
    case Not(x) => Definite(x, env)
    case Bin(_, l, r) => Definite(l, env) && Definite(r, env)
    case _ => true
  }

  lemma {:induction false} DedupKeepsDefinite(e: Expr, env: Env)
    requires BooleansNeverMod(env) && Definite(e, env)
    ensures Eval(Dedup(e), env) == Eval(e, env) != mod
  {
    DefiniteValue(e, env);
    DedupRefines(e, env);
  }

  lemma {:induction false} DefiniteValue(e: Expr, env: Env)
    requires Definite(e, env)
    ensures Eval(e, env) != mod
  {
    match e
    case Not(x) => DefiniteValue(x, env);
    case Bin(_, l, r) => DefiniteValue(l, env); DefiniteValue(r, env);
    case _ =>
  }

  /** The rewrites of the second pass over the whole run. */
  function Complements(e: Expr): nat
    decreases Size(e)
  {
    RoundShrinks(e);
    if Round(e).count == 0 then 0
    else Dups2(e.op, Dups1(e.op, e, [], []).tree, [], []).count + Complements(EliminateYn(Round(e).tree))
  }

  /** A run in which the complement rule stays silent keeps all three values. */
  lemma {:induction false} DedupExactWithoutComplements(e: Expr, env: Env)
    requires BooleansNeverMod(env) && Complements(e) == 0
    ensures Eval(Dedup(e), env) == Eval(e, env)
    decreases Size(e)
  {
    RoundShrinks(e);
    if Round(e).count != 0 {
      var a := Dups1(e.op, e, [], []);
      Dups1KeepsValue(e.op, e, [], [], env);
      Dups2Progress(e.op, a.tree, [], []);
      EliminateYnKeepsValue(Round(e).tree, env);
      DedupExactWithoutComplements(EliminateYn(Round(e).tree), env);
    }
  }

  // ----- what is left when the loop stops -----

  /** No two operands of the chain join, and none is contradicted by another part of it. */
  ghost predicate ChainSettled(op: Op, t: Expr) {
    && (forall p, q :: Operand(op, t, p) && Operand(op, t, q) && p != q ==>
          Join(op, At(op, t, p), At(op, t, q)).None?)
    && (forall p, q :: Operand(op, t, p) && OnChain(op, t, q) && p != q ==>
          !Contradicts(op, At(op, t, p), At(op, t, q)))
  }

  /** The chain at the top of e and, inside its operands, every chain reached without a NOT. */
  ghost predicate Settled(e: Expr)
    decreases e, 0
  {
    e.Bin? ==> ChainSettled(e.op, e) && OperandsSettled(e.op, e.l) && OperandsSettled(e.op, e.r)
  }

  ghost predicate OperandsSettled(op: Op, e: Expr)
    decreases e, 1
  {
    if Is(op, e) then OperandsSettled(op, e.l) && OperandsSettled(op, e.r) else Settled(e)
  }

  predicate Quiet1(e: Expr) { e.Bin? ==> Dups1(e.op, e, [], []).count == 0 }
  predicate Quiet2(e: Expr) { e.Bin? ==> Dups2(e.op, e, [], []).count == 0 }

  lemma {:induction false} OperandHasNoPart(op: Op, t: Expr, p: Path, q: Path)
    requires Operand(op, t, p) && OnChain(op, t, q) && p <= q
    ensures p == q
  {
    if p != [] {
      assert p[1..] <= q[1..];
      OperandHasNoPart(op, Child(t, p[0]), p[1..], q[1..]);
      assert p == [p[0]] + p[1..] && q == [q[0]] + q[1..];
    }
  }

  /** A position below p goes through one of the two parts of p. */
  lemma Below(p: Path, q: Path)
    requires p <= q && p != q
    ensures p + [q[|p|]] <= q
  {}

  lemma {:induction false} Quiet1Pair(op: Op, t: Expr, p: Path, q: Path, p': Path, q': Path)
    requires OnChain(op, t, p) && OnChain(op, t, q) && Dups1(op, t, p, q).count == 0
    requires p <= p' && q <= q' && p' != q' && Operand(op, t, p') && Operand(op, t, q')
    ensures Join(op, At(op, t, p'), At(op, t, q')).None? && Quiet1(At(op, t, p'))
    decreases Chain(op, At(op, t, p)) + Chain(op, At(op, t, q))
  {
    if Is(op, At(op, t, p)) {
      AtStep(op, t, p, false); AtStep(op, t, p, true);
      Dups1Progress(op, t, p + [false], q);
      assert p != p';
      Below(p, p');
      if p'[|p|] { Quiet1Pair(op, t, p + [true], q, p', q'); } else { Quiet1Pair(op, t, p + [false], q, p', q'); }
    } else if Is(op, At(op, t, q)) {
      AtStep(op, t, q, false); AtStep(op, t, q, true);
      Dups1Progress(op, t, p, q + [false]);
      assert q != q';
      Below(q, q');
      if q'[|q|] { Quiet1Pair(op, t, p, q + [true], p', q'); } else { Quiet1Pair(op, t, p, q + [false], p', q'); }
    } else {
      OperandHasNoPart(op, t, p, p');
      OperandHasNoPart(op, t, q, q');
      var x := At(op, t, p);
      PutAt(op, t, p, x);
      if x.Bin? { Dups1Progress(x.op, x, [], []); }
    }
  }

  lemma {:induction false} Quiet2Pair(op: Op, t: Expr, p: Path, q: Path, p': Path, q': Path)
    requires OnChain(op, t, p) && OnChain(op, t, q) && Dups2(op, t, p, q).count == 0
    requires p <= p' && q <= q' && p' != q' && Operand(op, t, p') && OnChain(op, t, q')
    ensures !Contradicts(op, At(op, t, p'), At(op, t, q')) && Quiet2(At(op, t, p'))
    decreases Chain(op, At(op, t, p)) + Chain(op, At(op, t, q))
  {
    if Is(op, At(op, t, p)) {
      AtStep(op, t, p, false); AtStep(op, t, p, true);
      Dups2Progress(op, t, p + [false], q);
      assert p != p';
      Below(p, p');
      if p'[|p|] { Quiet2Pair(op, t, p + [true], q, p', q'); } else { Quiet2Pair(op, t, p + [false], q, p', q'); }
    } else {
      OperandHasNoPart(op, t, p, p');
      Dups2PartsProgress(op, t, p, q);
      if q != q' {
        Quiet2Below(op, t, p, q, q');
      } else {
        var x := At(op, t, p);
        PutAt(op, t, p, x);
        if x.Bin? { Dups2Progress(x.op, x, [], []); }
      }
    }
  }

  lemma {:induction false} Quiet2Below(op: Op, t: Expr, p: Path, q: Path, q': Path)
    requires Operand(op, t, p) && OnChain(op, t, q) && Dups2(op, t, p, q).count == 0
    requires q <= q' && q != q' && p != q' && OnChain(op, t, q')
    ensures !Contradicts(op, At(op, t, p), At(op, t, q')) && Quiet2(At(op, t, p))
    decreases Chain(op, At(op, t, p)) + Chain(op, At(op, t, q)), 0
  {
    if !Is(op, At(op, t, q)) { OperandHasNoPart(op, t, q, q'); }
    AtStep(op, t, q, false); AtStep(op, t, q, true);
    Dups2Progress(op, t, p, q + [false]);
    Below(q, q');
    if q'[|q|] { Quiet2Pair(op, t, p, q + [true], p, q'); } else { Quiet2Pair(op, t, p, q + [false], p, q'); }
  }

  lemma {:induction false} SomeOperand(op: Op, t: Expr, p: Path) returns (q: Path)
    requires OnChain(op, t, p)
    ensures p <= q && Operand(op, t, q)
    decreases Chain(op, At(op, t, p))
  {
    q := p;
    if Is(op, At(op, t, p)) {
      AtStep(op, t, p, false);
      q := SomeOperand(op, t, p + [false]);
    }
  }

  /** A chain has at least two operands. */
  lemma OtherOperand(op: Op, t: Expr, p: Path) returns (q: Path)
    requires Is(op, t) && Operand(op, t, p)
    ensures Operand(op, t, q) && p != q
  {
    AtStep(op, t, [], false); AtStep(op, t, [], true);
    assert p != [];
    q := SomeOperand(op, t, [!p[0]]);
  }

  lemma {:induction false} QuietIsSettled(e: Expr)
    requires Quiet1(e) && Quiet2(e)
    ensures Settled(e)
    decreases Size(e), 1
  {
    if e.Bin? {
      forall p, q | Operand(e.op, e, p) && Operand(e.op, e, q) && p != q
        ensures Join(e.op, At(e.op, e, p), At(e.op, e, q)).None?
      {
        Quiet1Pair(e.op, e, [], [], p, q);
      }
      forall p, q | Operand(e.op, e, p) && OnChain(e.op, e, q) && p != q
        ensures !Contradicts(e.op, At(e.op, e, p), At(e.op, e, q))
      {
        Quiet2Pair(e.op, e, [], [], p, q);
      }
      AtStep(e.op, e, [], false); AtStep(e.op, e, [], true);
      QuietOperands(e, [false]);
      QuietOperands(e, [true]);
    }
  }

  lemma {:induction false} QuietOperands(e: Expr, p: Path)
    requires e.Bin? && Quiet1(e) && Quiet2(e) && OnChain(e.op, e, p) && p != []
    ensures OperandsSettled(e.op, At(e.op, e, p))
    decreases Size(e), 0, Chain(e.op, At(e.op, e, p))
  {
    var x := At(e.op, e, p);
    PutAt(e.op, e, p, x);
    if Is(e.op, x) {
      AtStep(e.op, e, p, false); AtStep(e.op, e, p, true);
      QuietOperands(e, p + [false]);
      QuietOperands(e, p + [true]);
    } else {
      var q := OtherOperand(e.op, e, p);
      Quiet1Pair(e.op, e, [], [], p, q);
      Quiet2Pair(e.op, e, [], [], p, q);
      QuietIsSettled(x);
    }
  }

  lemma {:induction false} DedupIdempotent(e: Expr)
    ensures Settled(Dedup(e)) && Dedup(Dedup(e)) == Dedup(e)
    decreases Size(e)
  {
    RoundShrinks(e);
    if Round(e).count != 0 {
      DedupIdempotent(EliminateYn(Round(e).tree));
    } else {
      if e.Bin? { Dups1Progress(e.op, e, [], []); }
      QuietIsSettled(e);
    }
  }

  /** The second pass works only on operands that are chains themselves. */
  lemma Idle2(op: Op, t: Expr, p: Path, q: Path)
    requires Operand(op, t, p) && OnChain(op, t, q) && !At(op, t, p).Bin?
    ensures Dups2(op, t, p, q) == Pass(t, 0)
    decreases Chain(op, At(op, t, q))
  {
    PutAt(op, t, p, At(op, t, p));
    if Is(op, At(op, t, q)) {
      AtStep(op, t, q, false); AtStep(op, t, q, true);
      Idle2(op, t, p, q + [false]);
      Idle2(op, t, p, q + [true]);
      assert Dups2Parts(op, t, p, q) == Pass(t, 0);
    }
  }
}
