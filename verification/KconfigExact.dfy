/** When expr_eliminate_dups keeps the value m: exactly, for expressions in which AND and OR alternate at most once, and
    for those of any depth in which no operands join and nothing below the top is contradicted. */
module KconfigExact {
  import opened Common
  import opened KconfigExpr
  import opened KconfigEq
  import opened KconfigDups
  import opened KconfigPasses
  import opened KconfigDedup

  /** No operand of the chain is a chain of the other operator. */
  predicate Single(op: Op, e: Expr) {
    if Is(op, e) then Single(op, e.l) && Single(op, e.r) else !e.Bin?
  }

  /** Every operand of the chain is no chain, or a chain none of whose operands is one. */
  predicate Mixed(op: Op, e: Expr) {
    if Is(op, e) then Mixed(op, e.l) && Mixed(op, e.r) else Single(Dual(op), e)
  }

  predicate Shallow(e: Expr) { e.Bin? ==> Mixed(e.op, e) }

  // ----- the two forms are kept -----

  lemma {:induction false} SingleAt(op: Op, t: Expr, p: Path, s: Expr)
    requires Single(op, t) && OnChain(op, t, p)
    ensures Single(op, At(op, t, p)) && (Single(op, s) ==> Single(op, Put(op, t, p, s)))
  {
    if p != [] { SingleAt(op, Child(t, p[0]), p[1..], s); }
  }

  lemma {:induction false} MixedAt(op: Op, t: Expr, p: Path, s: Expr)
    requires Mixed(op, t) && OnChain(op, t, p)
    ensures Mixed(op, At(op, t, p)) && (Mixed(op, s) ==> Mixed(op, Put(op, t, p, s)))
  {
    if p != [] { MixedAt(op, Child(t, p[0]), p[1..], s); }
  }

  lemma JoinSingle(op: Op, x: Expr, y: Expr)
    requires !x.Bin? && !y.Bin? && Join(op, x, y).Some?
    ensures !Join(op, x, y).value.Bin?
  {
    hide Eq;
  }

  lemma JoinMixed(op: Op, x: Expr, y: Expr)
    requires !Is(op, x) && Single(Dual(op), x) && Join(op, x, y).Some?
    ensures Mixed(op, Join(op, x, y).value)
  {
    hide Eq;
  }

  lemma JoinPairSingle(op: Op, t: Expr, p: Path, q: Path)
    requires Operand(op, t, p) && Operand(op, t, q) && p != q && Single(op, t)
    ensures Single(op, JoinPair(op, t, p, q).tree)
  {
    var x, y := At(op, t, p), At(op, t, q);
    SingleAt(op, t, p, Unit(op)); SingleAt(op, t, q, y);
    if Join(op, x, y).Some? {
      var j := Join(op, x, y).value;
      JoinSingle(op, x, y);
      PutElsewhere(op, t, p, Unit(op), q);
      SingleAt(op, Put(op, t, p, Unit(op)), q, j);
    }
  }

  lemma JoinPairMixed(op: Op, t: Expr, p: Path, q: Path)
    requires Operand(op, t, p) && Operand(op, t, q) && p != q && Mixed(op, t)
    ensures Mixed(op, JoinPair(op, t, p, q).tree)
  {
    var x, y := At(op, t, p), At(op, t, q);
    MixedAt(op, t, p, Unit(op));
    if Join(op, x, y).Some? {
      var j := Join(op, x, y).value;
      JoinMixed(op, x, y);
      PutElsewhere(op, t, p, Unit(op), q);
      MixedAt(op, Put(op, t, p, Unit(op)), q, j);
    }
  }

  lemma {:induction false} Dups1Single(op: Op, t: Expr, p: Path, q: Path)
    requires OnChain(op, t, p) && OnChain(op, t, q) && Single(op, t)
    ensures Single(op, Dups1(op, t, p, q).tree)
    decreases Size(t), Chain(op, At(op, t, p)) + Chain(op, At(op, t, q))
  {
    hide Single, JoinPair;
    if Is(op, At(op, t, p)) {
      AtStep(op, t, p, false); AtStep(op, t, p, true);
      var a := Dups1(op, t, p + [false], q);
      SameChainAt(op, t, a.tree, p + [true]); SameChainAt(op, t, a.tree, q);
      Dups1Single(op, t, p + [false], q);
      Dups1Single(op, a.tree, p + [true], q);
    } else if Is(op, At(op, t, q)) {
      AtStep(op, t, q, false); AtStep(op, t, q, true);
      var a := Dups1(op, t, p, q + [false]);
      SameChainAt(op, t, a.tree, q + [true]); SameChainAt(op, t, a.tree, p);
      Dups1Single(op, t, p, q + [false]);
      Dups1Single(op, a.tree, p, q + [true]);
    } else if p != q {
      var x := At(op, t, p);
      SingleLeaf(op, t, p);
      PutAt(op, t, p, x);
      JoinPairSingle(op, t, p, q);
    }
  }

  lemma SingleLeaf(op: Op, t: Expr, p: Path)
    requires Single(op, t) && Operand(op, t, p)
    ensures !At(op, t, p).Bin?
  {
    SingleAt(op, t, p, t);
  }

  lemma MixedLeaf(op: Op, t: Expr, p: Path)
    requires Mixed(op, t) && Operand(op, t, p)
    ensures var x := At(op, t, p); x.Bin? ==> x.op == Dual(op) && Single(x.op, x)
  {
    MixedAt(op, t, p, t);
  }

  lemma LeafMixed(op: Op, t: Expr, p: Path, s: Expr)
    requires Mixed(op, t) && Operand(op, t, p) && !Is(op, s) && (s.Bin? ==> Single(s.op, s))
    ensures Mixed(op, Put(op, t, p, s))
  {
    MixedAt(op, t, p, s);
  }

  lemma {:induction false} Dups1Mixed(op: Op, t: Expr, p: Path, q: Path)
    requires OnChain(op, t, p) && OnChain(op, t, q) && Mixed(op, t)
    ensures Mixed(op, Dups1(op, t, p, q).tree)
    decreases Size(t), Chain(op, At(op, t, p)) + Chain(op, At(op, t, q))
  {
    hide Mixed, Single, JoinPair;
    if Is(op, At(op, t, p)) {
      AtStep(op, t, p, false); AtStep(op, t, p, true);
      var a := Dups1(op, t, p + [false], q);
      SameChainAt(op, t, a.tree, p + [true]); SameChainAt(op, t, a.tree, q);
      Dups1Mixed(op, t, p + [false], q);
      Dups1Mixed(op, a.tree, p + [true], q);
    } else if Is(op, At(op, t, q)) {
      AtStep(op, t, q, false); AtStep(op, t, q, true);
      var a := Dups1(op, t, p, q + [false]);
      SameChainAt(op, t, a.tree, q + [true]); SameChainAt(op, t, a.tree, p);
      Dups1Mixed(op, t, p, q + [false]);
      Dups1Mixed(op, a.tree, p, q + [true]);
    } else if p != q {
      var x := At(op, t, p);
      MixedLeaf(op, t, p);
      PutAt(op, t, p, x);
      var a := if x.Bin? then Dups1(x.op, x, [], []) else Pass(x, 0);
      if x.Bin? { Dups1Single(x.op, x, [], []); }
      PutAt(op, t, p, a.tree); PutElsewhere(op, t, p, a.tree, q);
      LeafMixed(op, t, p, a.tree);
      JoinPairMixed(op, Put(op, t, p, a.tree), p, q);
    }
  }

  lemma {:induction false} FoldSingle(op: Op, e: Expr)
    requires Single(op, e)
    ensures Single(op, EliminateYn(e))
  {
    if Is(op, e) {
      FoldSingle(op, e.l);
      FoldSingle(op, e.r);
    }
  }

  lemma {:induction false} FoldMixed(op: Op, e: Expr)
    requires Mixed(op, e)
    ensures Mixed(op, EliminateYn(e))
  {
    if Is(op, e) {
      FoldMixed(op, e.l);
      FoldMixed(op, e.r);
    } else if e.Bin? {
      FoldSingle(e.op, e);
    }
  }

  lemma {:induction false} SingleIsMixed(op: Op, e: Expr)
    requires Single(op, e)
    ensures Mixed(op, e)
  {
    if Is(op, e) {
      SingleIsMixed(op, e.l);
      SingleIsMixed(op, e.r);
    }
  }

  lemma FoldShallow(e: Expr)
    requires Shallow(e)
    ensures Shallow(EliminateYn(e))
  {
    if e.Bin? {
      FoldMixed(e.op, e);
      var r := EliminateYn(e);
      if r.Bin? && r.op != e.op { SingleIsMixed(r.op, r); }
    }
  }

  // ----- the second pass on these forms -----

  /** On a chain without chains as operands the second pass does nothing. */
  lemma {:induction false} SingleIdle(op: Op, t: Expr, p: Path, q: Path)
    requires OnChain(op, t, p) && OnChain(op, t, q) && Single(op, t)
    ensures Dups2(op, t, p, q) == Pass(t, 0)
    decreases Chain(op, At(op, t, p))
  {
    if Is(op, At(op, t, p)) {
      AtStep(op, t, p, false); AtStep(op, t, p, true);
      SingleIdle(op, t, p + [false], q);
      SingleIdle(op, t, p + [true], q);
    } else {
      SingleLeaf(op, t, p);
      Idle2(op, t, p, q);
    }
  }

  /** The second pass finds nothing inside any operand of the chain. */
  predicate Calm(op: Op, t: Expr) { if Is(op, t) then Calm(op, t.l) && Calm(op, t.r) else Quiet2(t) }

  lemma {:induction false} CalmAt(op: Op, t: Expr, p: Path, s: Expr)
    requires Calm(op, t) && OnChain(op, t, p)
    ensures Calm(op, At(op, t, p)) && (Calm(op, s) ==> Calm(op, Put(op, t, p, s)))
  {
    if p != [] { CalmAt(op, Child(t, p[0]), p[1..], s); }
  }

  lemma {:induction false} MixedIsCalm(op: Op, t: Expr)
    requires Mixed(op, t)
    ensures Calm(op, t)
  {
    if Is(op, t) {
      MixedIsCalm(op, t.l);
      MixedIsCalm(op, t.r);
    } else if t.Bin? {
      SingleIdle(t.op, t, [], []);
    }
  }

  /** The inner call of the second pass on an operand. */
  lemma InnerIdle(op: Op, t: Expr, p: Path)
    requires Calm(op, t) && Operand(op, t, p)
    ensures var x := At(op, t, p); x.Bin? ==> Dups2(x.op, x, [], []) == Pass(x, 0)
    ensures Put(op, t, p, At(op, t, p)) == t
  {
    var x := At(op, t, p);
    CalmAt(op, t, p, x);
    PutAt(op, t, p, x);
    if x.Bin? { Dups2Progress(x.op, x, [], []); }
  }

  /** Anything the second pass drops on such a chain decides the whole chain. */
  ghost predicate Decided(op: Op, r: Pass, env: Env) { r.count > 0 ==> Eval(r.tree, env) == Eval(Zero(op), env) }

  lemma DecidedThen(op: Op, a: Pass, b: Pass, env: Env)
    requires Decided(op, a, env) && Decided(op, b, env) && (b.count == 0 ==> b.tree == a.tree)
    ensures Decided(op, Pass(b.tree, a.count + b.count), env)
  {}

  lemma {:induction false} Dups2Decides(op: Op, t: Expr, p: Path, q: Path, env: Env)
    requires OnChain(op, t, p) && OnChain(op, t, q) && Calm(op, t) && BooleansNeverMod(env)
    ensures var r := Dups2(op, t, p, q); Decided(op, r, env) && Calm(op, r.tree) && (r.count == 0 ==> r.tree == t)
    decreases Size(t), Chain(op, At(op, t, p)) + Chain(op, At(op, t, q)), 1
  {
    hide Calm, Decided, Contradicts;
    Dups2Progress(op, t, p, q);
    if Is(op, At(op, t, p)) {
      AtStep(op, t, p, false); AtStep(op, t, p, true);
      var a := Dups2(op, t, p + [false], q);
      SameChainAt(op, t, a.tree, p + [true]); SameChainAt(op, t, a.tree, q);
      var b := Dups2(op, a.tree, p + [true], q);
      Dups2Decides(op, t, p + [false], q, env);
      Dups2Decides(op, a.tree, p + [true], q, env);
      DecidedThen(op, a, b, env);
    } else {
      var a := Dups2Parts(op, t, p, q);
      SameChainAt(op, t, a.tree, p); SameChainAt(op, t, a.tree, q);
      PartsDecide(op, t, p, q, env);
      if p != q {
        InnerIdle(op, a.tree, p);
        var c := DropContradicted(op, a.tree, p, q);
        DropDecides(op, a.tree, p, q, env);
        DecidedThen(op, a, c, env);
      }
    }
  }

  lemma DropDecides(op: Op, t: Expr, p: Path, q: Path, env: Env)
    requires Operand(op, t, p) && OnChain(op, t, q) && Calm(op, t) && BooleansNeverMod(env)
    ensures var c := DropContradicted(op, t, p, q);
      && Decided(op, c, env) && Calm(op, c.tree)
      && (c.count == 0 ==> c.tree == t)
  {
    hide Contradicts;
    CalmAt(op, t, p, Zero(op));
    if Contradicts(op, At(op, t, p), At(op, t, q)) { DropContradictedExactly(op, t, p, q, env); }
  }

  lemma {:induction false} PartsDecide(op: Op, t: Expr, p: Path, q: Path, env: Env)
    requires Operand(op, t, p) && OnChain(op, t, q) && Calm(op, t) && BooleansNeverMod(env)
    ensures var r := Dups2Parts(op, t, p, q); Decided(op, r, env) && Calm(op, r.tree) && (r.count == 0 ==> r.tree == t)
    decreases Size(t), Chain(op, At(op, t, p)) + Chain(op, At(op, t, q)), 0
  {
    hide Calm;
    Dups2PartsProgress(op, t, p, q);
    if Is(op, At(op, t, q)) {
      AtStep(op, t, q, false); AtStep(op, t, q, true);
      var a := Dups2(op, t, p, q + [false]);
      SameChainAt(op, t, a.tree, q + [true]); SameChainAt(op, t, a.tree, p);
      var b := Dups2(op, a.tree, p, q + [true]);
      Dups2Decides(op, t, p, q + [false], env);
      Dups2Decides(op, a.tree, p, q + [true], env);
      DecidedThen(op, a, b, env);
    }
  }

  /** Where AND and OR alternate at most once, they still do after the second pass. */
  lemma {:induction false} Dups2Mixed(op: Op, t: Expr, p: Path, q: Path)
    requires OnChain(op, t, p) && OnChain(op, t, q) && Mixed(op, t)
    ensures Mixed(op, Dups2(op, t, p, q).tree)
    decreases Size(t), Chain(op, At(op, t, p)) + Chain(op, At(op, t, q)), 1
  {
    hide Mixed, Contradicts;
    if Is(op, At(op, t, p)) {
      AtStep(op, t, p, false); AtStep(op, t, p, true);
      var a := Dups2(op, t, p + [false], q);
      SameChainAt(op, t, a.tree, p + [true]); SameChainAt(op, t, a.tree, q);
      Dups2Mixed(op, t, p + [false], q);
      Dups2Mixed(op, a.tree, p + [true], q);
    } else {
      var a := Dups2Parts(op, t, p, q);
      SameChainAt(op, t, a.tree, p); SameChainAt(op, t, a.tree, q);
      PartsMixed(op, t, p, q);
      if p != q {
        MixedIsCalm(op, a.tree);
        InnerIdle(op, a.tree, p);
        LeafMixed(op, a.tree, p, Zero(op));
      }
    }
  }

  lemma {:induction false} PartsMixed(op: Op, t: Expr, p: Path, q: Path)
    requires Operand(op, t, p) && OnChain(op, t, q) && Mixed(op, t)
    ensures Mixed(op, Dups2Parts(op, t, p, q).tree)
    decreases Size(t), Chain(op, At(op, t, p)) + Chain(op, At(op, t, q)), 0
  {
    hide Mixed;
    if Is(op, At(op, t, q)) {
      AtStep(op, t, q, false); AtStep(op, t, q, true);
      var a := Dups2(op, t, p, q + [false]);
      SameChainAt(op, t, a.tree, q + [true]); SameChainAt(op, t, a.tree, p);
      Dups2Mixed(op, t, p, q + [false]);
      Dups2Mixed(op, a.tree, p, q + [true]);
    }
  }

  /** Without a contradicted operand the second pass does nothing. */
  lemma {:induction false} Uncontradicted(op: Op, t: Expr, p: Path, q: Path)
    requires OnChain(op, t, p) && OnChain(op, t, q) && Calm(op, t) && !SomeContradicted(op, t)
    ensures Dups2(op, t, p, q) == Pass(t, 0)
    decreases Chain(op, At(op, t, p)) + Chain(op, At(op, t, q))
  {
    hide Contradicts, Calm;
    if Is(op, At(op, t, p)) {
      AtStep(op, t, p, false); AtStep(op, t, p, true);
      Uncontradicted(op, t, p + [false], q);
      Uncontradicted(op, t, p + [true], q);
    } else {
      if Is(op, At(op, t, q)) {
        AtStep(op, t, q, false); AtStep(op, t, q, true);
        Uncontradicted(op, t, p, q + [false]);
        Uncontradicted(op, t, p, q + [true]);
      }
      assert Dups2Parts(op, t, p, q) == Pass(t, 0);
      InnerIdle(op, t, p);
    }
  }

  /** Some operand is contradicted by another part of the chain, as the source tests it. */
  ghost predicate SomeContradicted(op: Op, t: Expr) {
    exists p, q :: p != q && Operand(op, t, p) && OnChain(op, t, q) && Contradicts(op, At(op, t, p), At(op, t, q))
  }

  // ----- the whole loop -----

  /** A chain none of whose operands is a chain is simplified without loss, under every assignment. */
  lemma {:induction false} SingleHasNoComplements(e: Expr)
    requires e.Bin? ==> Single(e.op, e)
    ensures Complements(e) == 0
    decreases Size(e)
  {
    RoundShrinks(e);
    if Round(e).count != 0 {
      var a := Dups1(e.op, e, [], []);
      Dups1Single(e.op, e, [], []);
      SingleIdle(e.op, a.tree, [], []);
      FoldSingle(e.op, a.tree);
      SingleHasNoComplements(EliminateYn(a.tree));
    }
  }

  lemma DedupKeepsSingle(e: Expr, env: Env)
    requires BooleansNeverMod(env) && (e.Bin? ==> Single(e.op, e))
    ensures Eval(Dedup(e), env) == Eval(e, env)
  {
    SingleHasNoComplements(e);
    DedupExactWithoutComplements(e, env);
  }

  /** Where AND and OR alternate at most once, the value is lost exactly when it is m and some operand was dropped. */
  lemma {:induction false} DedupExactly(e: Expr, env: Env)
    requires BooleansNeverMod(env) && Shallow(e)
    ensures Eval(Dedup(e), env) == Eval(e, env) <==> Eval(e, env) != mod || Complements(e) == 0
    decreases Size(e)
  {
    RoundShrinks(e);
    DedupRefines(e, env);
    if Round(e).count != 0 {
      var a := Dups1(e.op, e, [], []);
      var b := Dups2(e.op, a.tree, [], []);
      var rest := EliminateYn(b.tree);
      Dups1KeepsValue(e.op, e, [], [], env);
      Dups1Mixed(e.op, e, [], []);
      MixedIsCalm(e.op, a.tree);
      Dups2Decides(e.op, a.tree, [], [], env);
      Dups2Mixed(e.op, a.tree, [], []);
      EliminateYnKeepsValue(b.tree, env);
      assert Is(e.op, a.tree) && SameChain(e.op, a.tree, b.tree);
      FoldShallow(b.tree);
      if b.count == 0 {
        DedupExactly(rest, env);
      } else {
        TriNames();
        DedupRefines(rest, env);
      }
    }
  }

  /** At any depth: when no operands join and nothing below the top is contradicted, something is dropped if and only if
      some operand at the top is contradicted. */
  lemma ComplementsVisible(e: Expr)
    requires e.Bin? && Quiet1(e) && Calm(e.op, e)
    ensures Complements(e) == 0 <==> !SomeContradicted(e.op, e)
  {
    RoundShrinks(e);
    Dups1Progress(e.op, e, [], []);
    var a := Dups1(e.op, e, [], []);
    assert a == Pass(e, 0);
    if SomeContradicted(e.op, e) {
      var p, q :| p != q && Operand(e.op, e, p) && OnChain(e.op, e, q)
        && Contradicts(e.op, At(e.op, e, p), At(e.op, e, q));
      if Dups2(e.op, e, [], []).count == 0 { Quiet2Pair(e.op, e, [], [], p, q); }
    } else {
      Uncontradicted(e.op, e, [], []);
    }
  }

  /** The exact condition on the expression before the call; what is lost becomes the deciding constant. */
  lemma DedupExactlyWhen(e: Expr, env: Env)
    requires BooleansNeverMod(env) && e.Bin? && Quiet1(e) && Calm(e.op, e)
    ensures Eval(Dedup(e), env) == Eval(e, env) <==> Eval(e, env) != mod || !SomeContradicted(e.op, e)
    ensures SomeContradicted(e.op, e) ==> Eval(Dedup(e), env) == Eval(Zero(e.op), env)
  {
    ComplementsVisible(e);
    DedupRefines(e, env);
    if SomeContradicted(e.op, e) {
      TriNames();
      ContradictedIsDecided(e, env);
    } else {
      DedupExactWithoutComplements(e, env);
    }
  }

  lemma ContradictedIsDecided(e: Expr, env: Env)
    requires BooleansNeverMod(env) && e.Bin? && Quiet1(e) && Calm(e.op, e) && Complements(e) != 0
    ensures Eval(Dedup(e), env) == Eval(Zero(e.op), env)
  {
    TriNames();
    RoundShrinks(e);
    Dups1Progress(e.op, e, [], []);
    Dups2Decides(e.op, e, [], [], env);
    var b := Dups2(e.op, e, [], []);
    assert Round(e) == b;
    EliminateYnKeepsValue(b.tree, env);
    DedupRefines(EliminateYn(b.tree), env);
  }

  // ----- the value m is not always kept -----

  /** (n || a) && !a, for a tristate symbol a */
  const Witness := Bin(And, Bin(Or, Sym(NO), Sym(Var(0, Tristate))), Not(Sym(Var(0, Tristate))))

  lemma QuietTwo1(op: Op, x: Expr, y: Expr)
    requires !Is(op, x) && !Is(op, y) && Quiet1(x) && Quiet1(y)
    requires Join(op, x, y).None? && Join(op, y, x).None?
    ensures Dups1(op, Bin(op, x, y), [], []) == Pass(Bin(op, x, y), 0)
  {
    var t := Bin(op, x, y);
    AtStep(op, t, [], false); AtStep(op, t, [], true);
    assert [] + [false] == [false] && [] + [true] == [true];
    if x.Bin? { Dups1Progress(x.op, x, [], []); }
    if y.Bin? { Dups1Progress(y.op, y, [], []); }
    PutAt(op, t, [false], x); PutAt(op, t, [true], y);
    assert JoinPair(op, t, [false], [true]) == Pass(t, 0);
    assert JoinPair(op, t, [true], [false]) == Pass(t, 0);
    assert Dups1(op, t, [false], [true]) == Pass(t, 0);
    assert Dups1(op, t, [true], [false]) == Pass(t, 0);
    assert Dups1(op, t, [false], []) == Pass(t, 0);
    assert Dups1(op, t, [true], []) == Pass(t, 0);
  }

  lemma WitnessContradicts()
    ensures Contradicts(And, Witness.l, Witness.r)
  {
    TriNames();
    var a := Witness.r;
    var x := Bin(And, Not(Sym(NO)), a);
    assert Transform(a) == a && Transform(Not(Sym(NO))) == Sym(YES);
    assert Transform(Witness.l) == Witness.l;
    assert Transform(Not(Witness.l)) == Transform(x) == Bin(And, Sym(YES), a);
    var s := Extract(And, None, Sym(YES), a);
    assert s == Extraction(None, Sym(YES), a);
    assert Eq(a, a);
    assert Extract(And, None, a, a) == Extraction(Some(a), Sym(YES), Sym(YES));
    assert Extract(And, None, Bin(And, Sym(YES), a), a).x == Bin(And, Sym(YES), Sym(YES));
    assert EliminateYn(Bin(And, Sym(YES), Sym(YES))) == Sym(YES);
  }

  lemma WitnessIsQuiet()
    ensures Shallow(Witness) && Quiet1(Witness) && SomeContradicted(And, Witness)
  {
    TriNames();
    var x, y := Witness.l, Witness.r;
    assert !Eq(x.l, x.r) && !Eq(x.r, x.l);
    QuietTwo1(Or, x.l, x.r);
    QuietTwo1(And, x, y);
    AtStep(And, Witness, [], false); AtStep(And, Witness, [], true);
    assert [] + [false] == [false] && [] + [true] == [true];
    WitnessContradicts();
    assert At(And, Witness, [false]) == x && At(And, Witness, [true]) == y;
  }

  /** With a worth m, the loop turns (n || a) && !a from m into n. */
  lemma DedupLosesMod(env: Env)
    requires BooleansNeverMod(env) && env.tri(Var(0, Tristate)) == mod
    ensures Eval(Witness, env) == mod && Eval(Dedup(Witness), env) == no
  {
    TriNames();
    var x := Witness.l;
    assert Eval(x.l, env) == no && Eval(x.r, env) == mod;
    WitnessIsQuiet();
    MixedIsCalm(And, Witness);
    DedupExactlyWhen(Witness, env);
  }
}
