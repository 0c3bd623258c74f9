/** The two passes of expr_eliminate_dups and the loop that repeats them. */
module KconfigPasses {
  import opened KconfigExpr
  import opened KconfigEq
  import opened KconfigDups

  /** The tree a pass leaves and the number of rewrites it adds to trans_count. */
  datatype Pass = Pass(tree: Expr, count: nat)

  // ----- expr_eliminate_dups1: join operands pairwise -----

  /** One pair: the joined operand replaces the second, the unit replaces the first. */
  function JoinPair(op: Op, t: Expr, p: Path, q: Path): (r: Pass)
    requires Operand(op, t, p) && Operand(op, t, q) && p != q
    ensures SameChain(op, t, r.tree) && Size(r.tree) <= Size(t)
  {
    match Join(op, At(op, t, p), At(op, t, q))
    case None => SameChainRefl(op, t); Pass(t, 0)
    case Some(j) =>
      PutAt(op, t, p, Unit(op)); PutElsewhere(op, t, p, Unit(op), q);
      var u := Put(op, t, p, Unit(op));
      PutAt(op, u, q, j); SameChainTrans(op, t, u, Put(op, u, q, j));
      Pass(Put(op, u, q, j), 1)
  }

  function Dups1(op: Op, t: Expr, p: Path, q: Path): (r: Pass)
    requires OnChain(op, t, p) && OnChain(op, t, q)
    ensures SameChain(op, t, r.tree) && Size(r.tree) <= Size(t)
    decreases Size(t), Chain(op, At(op, t, p)) + Chain(op, At(op, t, q))
  {
    if Is(op, At(op, t, p)) then
      AtStep(op, t, p, false); AtStep(op, t, p, true);
      var a := Dups1(op, t, p + [false], q);
      SameChainAt(op, t, a.tree, p + [true]); SameChainAt(op, t, a.tree, q);
      var b := Dups1(op, a.tree, p + [true], q);
      SameChainTrans(op, t, a.tree, b.tree);
      Pass(b.tree, a.count + b.count)
    else if Is(op, At(op, t, q)) then
      AtStep(op, t, q, false); AtStep(op, t, q, true);
      var a := Dups1(op, t, p, q + [false]);
      SameChainAt(op, t, a.tree, q + [true]); SameChainAt(op, t, a.tree, p);
      var b := Dups1(op, a.tree, p, q + [true]);
      SameChainTrans(op, t, a.tree, b.tree);
      Pass(b.tree, a.count + b.count)
    else if p == q then
      SameChainRefl(op, t); Pass(t, 0)
    else
      var x := At(op, t, p);
      PutAt(op, t, p, x);
      var a := if x.Bin? then Dups1(x.op, x, [], []) else Pass(x, 0);
      PutAt(op, t, p, a.tree); PutElsewhere(op, t, p, a.tree, q);
      var u := Put(op, t, p, a.tree);
      var b := JoinPair(op, u, p, q);
      SameChainTrans(op, t, u, b.tree);
      Pass(b.tree, a.count + b.count)
  }

  lemma JoinPairKeepsValue(op: Op, t: Expr, p: Path, q: Path, env: Env)
    requires Operand(op, t, p) && Operand(op, t, q) && p != q && BooleansNeverMod(env)
    ensures Eval(JoinPair(op, t, p, q).tree, env) == Eval(t, env)
  {
    var x, y := At(op, t, p), At(op, t, q);
    if Join(op, x, y).Some? {
      var j := Join(op, x, y).value;
      JoinKeepsValue(op, x, y, env);
      PutTwoValue(op, t, p, q, j, env);
    }
  }

  /** Moving what two operands are worth into one of them. */
  lemma {:induction false} PutTwoValue(op: Op, t: Expr, p: Path, q: Path, j: Expr, env: Env)
    requires Operand(op, t, p) && Operand(op, t, q) && p != q && !Is(op, j)
    requires Eval(j, env) == Apply(op, Eval(At(op, t, p), env), Eval(At(op, t, q), env))
    ensures OnChain(op, Put(op, t, p, Unit(op)), q)
    ensures Eval(Put(op, Put(op, t, p, Unit(op)), q, j), env) == Eval(t, env)
  {
    var u := Put(op, t, p, Unit(op));
    PutElsewhere(op, t, p, Unit(op), q);
    PutValue(op, t, p, At(op, t, p), env);
    PutValue(op, u, q, At(op, u, q), env);
    PutValue(op, u, q, j, env);
    PutAt(op, t, p, At(op, t, p));
    PutAt(op, u, q, At(op, u, q));
  }

  lemma PutSameValue(op: Op, t: Expr, p: Path, s: Expr, env: Env)
    requires OnChain(op, t, p) && Eval(s, env) == Eval(At(op, t, p), env)
    ensures Eval(Put(op, t, p, s), env) == Eval(t, env)
  {
    PutValue(op, t, p, s, env);
    PutValue(op, t, p, At(op, t, p), env);
    PutAt(op, t, p, At(op, t, p));
  }

  /** The first pass keeps the value under every assignment. */
  lemma {:induction false} Dups1KeepsValue(op: Op, t: Expr, p: Path, q: Path, env: Env)
    requires OnChain(op, t, p) && OnChain(op, t, q) && BooleansNeverMod(env)
    ensures Eval(Dups1(op, t, p, q).tree, env) == Eval(t, env)
    decreases Size(t), Chain(op, At(op, t, p)) + Chain(op, At(op, t, q))
  {
    if Is(op, At(op, t, p)) {
      AtStep(op, t, p, false); AtStep(op, t, p, true);
      var a := Dups1(op, t, p + [false], q);
      SameChainAt(op, t, a.tree, p + [true]); SameChainAt(op, t, a.tree, q);
      Dups1KeepsValue(op, t, p + [false], q, env);
      Dups1KeepsValue(op, a.tree, p + [true], q, env);
    } else if Is(op, At(op, t, q)) {
      AtStep(op, t, q, false); AtStep(op, t, q, true);
      var a := Dups1(op, t, p, q + [false]);
      SameChainAt(op, t, a.tree, q + [true]); SameChainAt(op, t, a.tree, p);
      Dups1KeepsValue(op, t, p, q + [false], env);
      Dups1KeepsValue(op, a.tree, p, q + [true], env);
    } else if p != q {
      var x := At(op, t, p);
      PutAt(op, t, p, x);
      var a := if x.Bin? then Dups1(x.op, x, [], []) else Pass(x, 0);
      if x.Bin? { Dups1KeepsValue(x.op, x, [], [], env); }
      PutAt(op, t, p, a.tree); PutElsewhere(op, t, p, a.tree, q);
      PutSameValue(op, t, p, a.tree, env);
      JoinPairKeepsValue(op, Put(op, t, p, a.tree), p, q, env);
    }
  }

  /** A pass that counts nothing changed nothing; one that counts leaves a smaller
      tree, or one that constant folding will make smaller. */
  predicate Progress(t: Expr, r: Pass) {
    if r.count == 0 then r.tree == t else Size(r.tree) < Size(t) || HasYn(r.tree)
  }

  lemma ProgressThen(t: Expr, a: Pass, b: Pass)
    requires Progress(t, a) && Progress(a.tree, b) && Size(a.tree) <= Size(t)
    ensures Progress(t, Pass(b.tree, a.count + b.count))
  {}

  lemma {:induction false} PutHasYn(op: Op, t: Expr, p: Path, s: Expr)
    requires OnChain(op, t, p)
    ensures HasYn(s) || (p != [] && IsYn(s)) ==> HasYn(Put(op, t, p, s))
  {
    if p != [] { PutHasYn(op, Child(t, p[0]), p[1..], s); }
  }

  lemma JoinPairProgress(op: Op, t: Expr, p: Path, q: Path)
    requires Operand(op, t, p) && Operand(op, t, q) && p != q
    ensures Progress(t, JoinPair(op, t, p, q))
  {
    var u := Put(op, t, p, Unit(op));
    PutAt(op, t, p, Unit(op));
    PutElsewhere(op, t, p, Unit(op), q);
    match Join(op, At(op, t, p), At(op, t, q))
    case None =>
    case Some(j) =>
      var v := Put(op, u, q, j);
      PutElsewhere(op, u, q, j, p);
      PutAt(op, v, p, Unit(op));
      PutHasYn(op, v, p, Unit(op));
  }

  /** Putting back an operand that a nested pass has worked on. */
  lemma PutProgress(op: Op, t: Expr, p: Path, r: Pass)
    requires OnChain(op, t, p) && Progress(At(op, t, p), r)
    ensures Progress(t, Pass(Put(op, t, p, r.tree), r.count))
  {
    PutAt(op, t, p, r.tree);
    PutHasYn(op, t, p, r.tree);
  }

  lemma PairProgress(op: Op, t: Expr, p: Path, q: Path, a: Pass)
    requires Operand(op, t, p) && Operand(op, t, q) && p != q
    requires !Is(op, a.tree) && Size(a.tree) <= Size(At(op, t, p)) && Progress(At(op, t, p), a)
    ensures OnChain(op, t, p) && Operand(op, Put(op, t, p, a.tree), p) && Operand(op, Put(op, t, p, a.tree), q)
    ensures var b := JoinPair(op, Put(op, t, p, a.tree), p, q); Progress(t, Pass(b.tree, a.count + b.count))
  {
    PutAt(op, t, p, a.tree); PutElsewhere(op, t, p, a.tree, q);
    var u := Put(op, t, p, a.tree);
    PutProgress(op, t, p, a);
    JoinPairProgress(op, u, p, q);
    ProgressThen(t, Pass(u, a.count), JoinPair(op, u, p, q));
  }

  lemma {:induction false} Dups1SplitProgress(op: Op, t: Expr, p: Path, q: Path)
    requires OnChain(op, t, p) && OnChain(op, t, q) && Is(op, At(op, t, p))
    ensures Progress(t, Dups1(op, t, p, q))
    decreases Size(t), Chain(op, At(op, t, p)) + Chain(op, At(op, t, q)), 0
  {
    AtStep(op, t, p, false); AtStep(op, t, p, true);
    var a := Dups1(op, t, p + [false], q);
    SameChainAt(op, t, a.tree, p + [true]); SameChainAt(op, t, a.tree, q);
    var b := Dups1(op, a.tree, p + [true], q);
    Dups1Progress(op, t, p + [false], q);
    Dups1Progress(op, a.tree, p + [true], q);
    assert Dups1(op, t, p, q) == Pass(b.tree, a.count + b.count);
    ProgressThen(t, a, b);
  }

  lemma {:induction false} Dups1Progress(op: Op, t: Expr, p: Path, q: Path)
    requires OnChain(op, t, p) && OnChain(op, t, q)
    ensures Progress(t, Dups1(op, t, p, q))
    decreases Size(t), Chain(op, At(op, t, p)) + Chain(op, At(op, t, q)), 1
  {
    hide Join, HasYn, EliminateYn;
    if Is(op, At(op, t, p)) {
      Dups1SplitProgress(op, t, p, q);
    } else if Is(op, At(op, t, q)) {
      AtStep(op, t, q, false); AtStep(op, t, q, true);
      var a := Dups1(op, t, p, q + [false]);
      SameChainAt(op, t, a.tree, q + [true]); SameChainAt(op, t, a.tree, p);
      var b := Dups1(op, a.tree, p, q + [true]);
      Dups1Progress(op, t, p, q + [false]);
      Dups1Progress(op, a.tree, p, q + [true]);
      assert Dups1(op, t, p, q) == Pass(b.tree, a.count + b.count);
      ProgressThen(t, a, b);
    } else if p != q {
      var x := At(op, t, p);
      PutAt(op, t, p, x);
      var a := if x.Bin? then Dups1(x.op, x, [], []) else Pass(x, 0);
      if x.Bin? { Dups1Progress(x.op, x, [], []); }
      PairProgress(op, t, p, q, a);
    }
  }

  // ----- expr_eliminate_dups2: drop operands that another operand contradicts -----

  /** Taking the operands of y out of the negation of x leaves nothing. */
  predicate Contradicts(op: Op, x: Expr, y: Expr) {
    x.Bin? && ExtractEq(op, Transform(Not(x)), y).x == Unit(op)
  }

  function DropContradicted(op: Op, t: Expr, p: Path, q: Path): (r: Pass)
    requires Operand(op, t, p) && OnChain(op, t, q)
    ensures SameChain(op, t, r.tree) && Size(r.tree) <= Size(t)
  {
    PutAt(op, t, p, Zero(op)); SameChainRefl(op, t);
    if Contradicts(op, At(op, t, p), At(op, t, q)) then Pass(Put(op, t, p, Zero(op)), 1) else Pass(t, 0)
  }

  /** Unlike the first pass, it goes on to look at q itself after the two parts of q. */
  function Dups2(op: Op, t: Expr, p: Path, q: Path): (r: Pass)
    requires OnChain(op, t, p) && OnChain(op, t, q)
    ensures SameChain(op, t, r.tree) && Size(r.tree) <= Size(t)
    decreases Size(t), Chain(op, At(op, t, p)) + Chain(op, At(op, t, q)), 1
  {
    if Is(op, At(op, t, p)) then
      AtStep(op, t, p, false); AtStep(op, t, p, true);
      var a := Dups2(op, t, p + [false], q);
      SameChainAt(op, t, a.tree, p + [true]); SameChainAt(op, t, a.tree, q);
      var b := Dups2(op, a.tree, p + [true], q);
      SameChainTrans(op, t, a.tree, b.tree);
      Pass(b.tree, a.count + b.count)
    else
      var a := Dups2Parts(op, t, p, q);
      SameChainAt(op, t, a.tree, p); SameChainAt(op, t, a.tree, q);
      if p == q then a
      else
        var x := At(op, a.tree, p);
        PutAt(op, a.tree, p, x);
        var b := if x.Bin? then Dups2(x.op, x, [], []) else Pass(x, 0);
        PutAt(op, a.tree, p, b.tree);
        var u := Put(op, a.tree, p, b.tree);
        SameChainTrans(op, t, a.tree, u); SameChainAt(op, t, u, q);
        var c := DropContradicted(op, u, p, q);
        SameChainTrans(op, t, u, c.tree);
        Pass(c.tree, a.count + b.count + c.count)
  }

  /** The recursion on the two parts of q. */
  function Dups2Parts(op: Op, t: Expr, p: Path, q: Path): (r: Pass)
    requires Operand(op, t, p) && OnChain(op, t, q)
    ensures SameChain(op, t, r.tree) && Size(r.tree) <= Size(t)
    decreases Size(t), Chain(op, At(op, t, p)) + Chain(op, At(op, t, q)), 0
  {
    if !Is(op, At(op, t, q)) then SameChainRefl(op, t); Pass(t, 0)
    else
      AtStep(op, t, q, false); AtStep(op, t, q, true);
      var a := Dups2(op, t, p, q + [false]);
      SameChainAt(op, t, a.tree, q + [true]); SameChainAt(op, t, a.tree, p);
      var b := Dups2(op, a.tree, p, q + [true]);
      SameChainTrans(op, t, a.tree, b.tree);
      Pass(b.tree, a.count + b.count)
  }

  /** A definite value, y or n, is kept. */
  predicate Refines(v: Tri, w: Tri) { v != mod ==> w == v }

  lemma PutRefines(op: Op, t: Expr, p: Path, s: Expr, env: Env)
    requires OnChain(op, t, p) && Refines(Eval(At(op, t, p), env), Eval(s, env))
    ensures Refines(Eval(t, env), Eval(Put(op, t, p, s), env))
  {
    PutValue(op, t, p, s, env);
    PutValue(op, t, p, At(op, t, p), env);
    PutAt(op, t, p, At(op, t, p));
  }

  lemma {:induction false} PartBounds(op: Op, t: Expr, p: Path, env: Env)
    requires OnChain(op, t, p)
    ensures Eval(t, env) == Apply(op, Eval(t, env), Eval(At(op, t, p), env))
  {
    if p != [] { PartBounds(op, Child(t, p[0]), p[1..], env); }
  }

  lemma ContradictsBounds(op: Op, x: Expr, y: Expr, env: Env)
    requires Contradicts(op, x, y) && BooleansNeverMod(env)
    ensures Eval(y, env) == Apply(op, Eval(y, env), 2 - Eval(x, env))
  {
    TriNames();
    TransformKeepsValue(Not(x), env);
    ExtractEqFactors(op, Transform(Not(x)), y, env);
  }

  /** The complement rule is exact just where the chain was worth y or n, and turns m into the deciding constant. */
  lemma DropContradictedExactly(op: Op, t: Expr, p: Path, q: Path, env: Env)
    requires Operand(op, t, p) && OnChain(op, t, q) && BooleansNeverMod(env)
    requires Contradicts(op, At(op, t, p), At(op, t, q))
    ensures Eval(DropContradicted(op, t, p, q).tree, env) == Eval(Zero(op), env)
    ensures Eval(DropContradicted(op, t, p, q).tree, env) == Eval(t, env) <==> Eval(t, env) != mod
  {
    TriNames();
    PutValue(op, t, p, Zero(op), env);
    PartBounds(op, t, p, env);
    PartBounds(op, t, q, env);
    ContradictsBounds(op, At(op, t, p), At(op, t, q), env);
  }

  /** The second pass keeps every definite value. */
  lemma {:induction false} Dups2Refines(op: Op, t: Expr, p: Path, q: Path, env: Env)
    requires OnChain(op, t, p) && OnChain(op, t, q) && BooleansNeverMod(env)
    ensures Refines(Eval(t, env), Eval(Dups2(op, t, p, q).tree, env))
    decreases Size(t), Chain(op, At(op, t, p)) + Chain(op, At(op, t, q)), 1
  {
    if Is(op, At(op, t, p)) {
      AtStep(op, t, p, false); AtStep(op, t, p, true);
      var a := Dups2(op, t, p + [false], q);
      SameChainAt(op, t, a.tree, p + [true]); SameChainAt(op, t, a.tree, q);
      Dups2Refines(op, t, p + [false], q, env);
      Dups2Refines(op, a.tree, p + [true], q, env);
    } else {
      var a := Dups2Parts(op, t, p, q);
      SameChainAt(op, t, a.tree, p); SameChainAt(op, t, a.tree, q);
      Dups2PartsRefines(op, t, p, q, env);
      if p != q {
        var x := At(op, a.tree, p);
        PutAt(op, a.tree, p, x);
        var b := if x.Bin? then Dups2(x.op, x, [], []) else Pass(x, 0);
        if x.Bin? { Dups2Refines(x.op, x, [], [], env); }
        PutAt(op, a.tree, p, b.tree);
        var u := Put(op, a.tree, p, b.tree);
        SameChainTrans(op, t, a.tree, u); SameChainAt(op, t, u, q);
        PutRefines(op, a.tree, p, b.tree, env);
        if Contradicts(op, At(op, u, p), At(op, u, q)) { DropContradictedExactly(op, u, p, q, env); }
      }
    }
  }

  lemma {:induction false} Dups2PartsRefines(op: Op, t: Expr, p: Path, q: Path, env: Env)
    requires Operand(op, t, p) && OnChain(op, t, q) && BooleansNeverMod(env)
    ensures Refines(Eval(t, env), Eval(Dups2Parts(op, t, p, q).tree, env))
    decreases Size(t), Chain(op, At(op, t, p)) + Chain(op, At(op, t, q)), 0
  {
    if Is(op, At(op, t, q)) {
      AtStep(op, t, q, false); AtStep(op, t, q, true);
      var a := Dups2(op, t, p, q + [false]);
      SameChainAt(op, t, a.tree, q + [true]); SameChainAt(op, t, a.tree, p);
      Dups2Refines(op, t, p, q + [false], env);
      Dups2Refines(op, a.tree, p, q + [true], env);
    }
  }

  lemma DropContradictedProgress(op: Op, t: Expr, p: Path, q: Path)
    requires Operand(op, t, p) && OnChain(op, t, q)
    ensures Progress(t, DropContradicted(op, t, p, q))
  {
    PutAt(op, t, p, Zero(op));
    var x := At(op, t, p);
    if x.Bin? { assert Size(x) == 1 + Size(x.l) + Size(x.r); }
  }

  lemma DropProgress(op: Op, t: Expr, p: Path, q: Path, b: Pass)
    requires Operand(op, t, p) && OnChain(op, t, q)
    requires !Is(op, b.tree) && Size(b.tree) <= Size(At(op, t, p)) && Progress(At(op, t, p), b)
    ensures Operand(op, Put(op, t, p, b.tree), p) && OnChain(op, Put(op, t, p, b.tree), q)
    ensures var c := DropContradicted(op, Put(op, t, p, b.tree), p, q); Progress(t, Pass(c.tree, b.count + c.count))
  {
    PutAt(op, t, p, b.tree);
    var u := Put(op, t, p, b.tree);
    SameChainAt(op, t, u, q);
    PutProgress(op, t, p, b);
    DropContradictedProgress(op, u, p, q);
    ProgressThen(t, Pass(u, b.count), DropContradicted(op, u, p, q));
  }

  lemma {:induction false} Dups2SplitProgress(op: Op, t: Expr, p: Path, q: Path)
    requires OnChain(op, t, p) && OnChain(op, t, q) && Is(op, At(op, t, p))
    ensures Progress(t, Dups2(op, t, p, q))
    decreases Size(t), Chain(op, At(op, t, p)) + Chain(op, At(op, t, q)), 0
  {
    AtStep(op, t, p, false); AtStep(op, t, p, true);
    var a := Dups2(op, t, p + [false], q);
    SameChainAt(op, t, a.tree, p + [true]); SameChainAt(op, t, a.tree, q);
    var b := Dups2(op, a.tree, p + [true], q);
    Dups2Progress(op, t, p + [false], q);
    Dups2Progress(op, a.tree, p + [true], q);
    assert Dups2(op, t, p, q) == Pass(b.tree, a.count + b.count);
    ProgressThen(t, a, b);
  }

  lemma {:induction false} Dups2Progress(op: Op, t: Expr, p: Path, q: Path)
    requires OnChain(op, t, p) && OnChain(op, t, q)
    ensures Progress(t, Dups2(op, t, p, q))
    decreases Size(t), Chain(op, At(op, t, p)) + Chain(op, At(op, t, q)), 1
  {
    if Is(op, At(op, t, p)) {
      Dups2SplitProgress(op, t, p, q);
    } else {
      var a := Dups2Parts(op, t, p, q);
      SameChainAt(op, t, a.tree, p); SameChainAt(op, t, a.tree, q);
      Dups2PartsProgress(op, t, p, q);
      if p != q {
        var x := At(op, a.tree, p);
        PutAt(op, a.tree, p, x);
        var b := if x.Bin? then Dups2(x.op, x, [], []) else Pass(x, 0);
        if x.Bin? { Dups2Progress(x.op, x, [], []); }
        DropProgress(op, a.tree, p, q, b);
        ghost var c := DropContradicted(op, Put(op, a.tree, p, b.tree), p, q);
        ProgressThen(t, a, Pass(c.tree, b.count + c.count));
      }
    }
  }

  lemma {:induction false} Dups2PartsProgress(op: Op, t: Expr, p: Path, q: Path)
    requires Operand(op, t, p) && OnChain(op, t, q)
    ensures Progress(t, Dups2Parts(op, t, p, q))
    decreases Size(t), Chain(op, At(op, t, p)) + Chain(op, At(op, t, q)), 0
  {
    if Is(op, At(op, t, q)) {
      AtStep(op, t, q, false); AtStep(op, t, q, true);
      var a := Dups2(op, t, p, q + [false]);
      SameChainAt(op, t, a.tree, q + [true]); SameChainAt(op, t, a.tree, p);
      var b := Dups2(op, a.tree, p, q + [true]);
      Dups2Progress(op, t, p, q + [false]);
      Dups2Progress(op, a.tree, p, q + [true]);
      assert Dups2Parts(op, t, p, q) == Pass(b.tree, a.count + b.count);
      ProgressThen(t, a, b);
    }
  }
}
