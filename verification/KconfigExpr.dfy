/** Kconfig dependency expressions: syntax, three-valued meaning, and the two
    local rewriters (negation normal form and constant folding). */
module KconfigExpr {

  /** no < mod < yes, as the enumeration of the source orders them. */
  type Tri = x: int | 0 <= x <= 2

  const no: Tri := 0
  const mod: Tri := 1
  const yes: Tri := 2

  datatype Kind = Unknown | Boolean | Tristate | Int | Hex | Text | Other

  /** A symbol is compared by identity. A constant is identified by its name
      (the symbol table holds one constant per name); any other symbol by a number. */
  datatype Symbol = Const(name: string) | Var(id: nat, kind: Kind)

  const YES := Const("y")
  const MOD := Const("m")
  const NO := Const("n")

  predicate IsTriConst(s: Symbol) { s == YES || s == MOD || s == NO }

  function KindOf(s: Symbol): Kind { if s.Const? then Unknown else s.kind }

  datatype Op = And | Or

  function Dual(op: Op): Op { if op.And? then Or else And }

  /** E_AND and E_OR share the constructor Bin. */
  datatype Expr =
    | Sym(s: Symbol)
    | Not(e: Expr)
    | Bin(op: Op, l: Expr, r: Expr)
    | Equal(a: Symbol, b: Symbol)
    | Unequal(a: Symbol, b: Symbol)

  predicate Is(op: Op, e: Expr) { e.Bin? && e.op == op }

  /** The constant that `op` ignores, and the constant that decides it. */
  function Unit(op: Op): Expr { if op.And? then Sym(YES) else Sym(NO) }
  function Zero(op: Op): Expr { Unit(Dual(op)) }

  // ----- meaning -----

  /** What the symbols are currently worth: a tristate for every symbol, and a
      text for those that are neither boolean nor tristate. */
  datatype Env = Env(tri: Symbol -> Tri, text: Symbol -> string)

  function TriOf(s: Symbol, env: Env): Tri {
    if s == YES then yes else if s == MOD then mod else if s.Const? then no else env.tri(s)
  }

  function TriName(t: Tri): string { if t == yes then "y" else if t == mod then "m" else "n" }

  function TextOf(s: Symbol, env: Env): string {
    match s
    case Const(name) => name
    case Var(_, kind) => if kind.Boolean? || kind.Tristate? then TriName(env.tri(s)) else env.text(s)
  }

  function Apply(op: Op, x: Tri, y: Tri): Tri {
    if op.And? then (if x < y then x else y) else (if x > y then x else y)
  }

  /** Two passes that take out c, then d, take out c op d together. */
  lemma ApplyRegroups(op: Op, c: Tri, d: Tri, l: Tri, r: Tri)
    ensures Apply(op, Apply(op, c, l), Apply(op, d, r)) == Apply(op, Apply(op, c, d), Apply(op, l, r))
    ensures Apply(op, c, Apply(op, d, r)) == Apply(op, Apply(op, c, d), r)
  {}

  function Eval(e: Expr, env: Env): Tri {
    match e
    case Sym(s) => TriOf(s, env)
    case Not(x) => 2 - Eval(x, env)
    case Bin(op, l, r) => Apply(op, Eval(l, env), Eval(r, env))
    case Equal(a, b) => if TextOf(a, env) == TextOf(b, env) then yes else no
    case Unequal(a, b) => if TextOf(a, env) == TextOf(b, env) then no else yes
  }

  /** What symbol.c keeps for every symbol declared boolean. */
  ghost predicate BooleansNeverMod(env: Env) {
    forall s: Symbol :: s.Var? && s.kind.Boolean? ==> env.tri(s) != mod
  }

  lemma TriNames()
    ensures YES != MOD && YES != NO && MOD != NO
    ensures TriName(yes) == YES.name && TriName(mod) == MOD.name && TriName(no) == NO.name
    ensures forall t: Tri, u: Tri :: TriName(t) == TriName(u) ==> t == u
  {
    assert YES.name[0] == 'y' && MOD.name[0] == 'm' && NO.name[0] == 'n';
  }

  function Size(e: Expr): (n: nat)
    ensures n >= 1
  {
    match e
    case Not(x) => 1 + Size(x)
    case Bin(_, l, r) => 1 + Size(l) + Size(r)
    case _ => 1
  }

  // ----- expr_transform -----

  /** De Morgan's step makes a tree larger; it makes this weight smaller. */
  function Weight(e: Expr): (n: nat)
    ensures n >= 1
  {
    match e
    case Sym(_) => 1
    case Not(x) => 2 * Weight(x)
    case Bin(_, l, r) => Weight(l) + Weight(r) + 1
    case _ => 3
  }

  lemma DeMorganWeight(op: Op, l: Expr, r: Expr)
    ensures Weight(Bin(Dual(op), Not(l), Not(r))) < Weight(Not(Bin(op, l, r)))
  {
    assert Weight(Not(l)) == 2 * Weight(l) && Weight(Not(r)) == 2 * Weight(r);
    assert Weight(Bin(op, l, r)) == Weight(l) + Weight(r) + 1;
  }

  function TransformComparison(e: Expr): (r: Expr)
    requires e.Equal? || e.Unequal?
    ensures Weight(r) <= Weight(e)
  {
    if !KindOf(e.a).Boolean? then e
    else if e.b == NO then (if e.Equal? then Not(Sym(e.a)) else Sym(e.a))
    else if e.b == MOD then (if e.Equal? then Sym(NO) else Sym(YES))
    else if e.b == YES then (if e.Equal? then Sym(e.a) else Not(Sym(e.a)))
    else e
  }

  function Transform(e: Expr): (r: Expr)
    ensures Weight(r) <= Weight(e)
    decreases Weight(e)
  {
    match e
    case Sym(_) => e
    case Equal(_, _) => TransformComparison(e)
    case Unequal(_, _) => TransformComparison(e)
    case Bin(op, l, r) => Bin(op, Transform(l), Transform(r))
    case Not(x) =>
      match Transform(x)
      case Not(y) => Transform(y)
      case Equal(a, b) => Unequal(a, b)
      case Unequal(a, b) => Equal(a, b)
      case Bin(op, l, r) => DeMorganWeight(op, l, r); Transform(Bin(Dual(op), Not(l), Not(r)))
      case Sym(s) => if s == YES then Sym(NO) else if s == NO then Sym(YES) else if s == MOD then Sym(MOD)
        else Not(Sym(s))
  }

  /** expr_transform keeps the value of every expression. */
  lemma {:induction false} TransformKeepsValue(e: Expr, env: Env)
    requires BooleansNeverMod(env)
    ensures Eval(Transform(e), env) == Eval(e, env)
    decreases Weight(e)
  {
    TriNames();
    match e
    case Sym(_) =>
    case Equal(_, _) =>
    case Unequal(_, _) =>
    case Bin(_, l, r) =>
      TransformKeepsValue(l, env);
      TransformKeepsValue(r, env);
    case Not(x) =>
      TransformKeepsValue(x, env);
      match Transform(x)
      case Not(y) => TransformKeepsValue(y, env);
      case Bin(op, l, r) => DeMorganWeight(op, l, r); TransformKeepsValue(Bin(Dual(op), Not(l), Not(r)), env);
      case _ =>
  }

  /** Negation stands only over a symbol that is not y, m or n, and no boolean
      symbol is compared with y, m or n. */
  predicate Normal(e: Expr) {
    match e
    case Sym(_) => true
    case Not(x) => x.Sym? && !IsTriConst(x.s)
    case Bin(_, l, r) => Normal(l) && Normal(r)
    case _ => !(KindOf(e.a).Boolean? && IsTriConst(e.b))
  }

  lemma {:induction false} TransformIsNormal(e: Expr)
    ensures Normal(Transform(e))
    decreases Weight(e)
  {
    TriNames();
    match e
    case Sym(_) =>
    case Equal(_, _) =>
    case Unequal(_, _) =>
    case Bin(_, l, r) =>
      TransformIsNormal(l);
      TransformIsNormal(r);
    case Not(x) =>
      TransformIsNormal(x);
      match Transform(x)
      case Not(y) => TransformIsNormal(y);
      case Bin(op, l, r) => DeMorganWeight(op, l, r); TransformIsNormal(Bin(Dual(op), Not(l), Not(r)));
      case _ =>
  }

  lemma {:induction false} TransformFixesNormal(e: Expr)
    requires Normal(e)
    ensures Transform(e) == e
    decreases e
  {
    match e
    case Bin(_, l, r) =>
      TransformFixesNormal(l);
      TransformFixesNormal(r);
    case _ =>
  }

  /** The normal forms are exactly the fixed points, so expr_transform is idempotent. */
  lemma TransformIdempotent(e: Expr)
    ensures Transform(Transform(e)) == Transform(e)
    ensures Transform(e) == e <==> Normal(e)
  {
    TransformIsNormal(e);
    TransformFixesNormal(Transform(e));
    if Normal(e) { TransformFixesNormal(e); }
  }

  // ----- expr_eliminate_yn -----

  function FoldConst(op: Op, l: Expr, r: Expr): Expr {
    if l == Zero(op) then Zero(op)
    else if l == Unit(op) then r
    else if r == Zero(op) then Zero(op)
    else if r == Unit(op) then l
    else Bin(op, l, r)
  }

  function EliminateYn(e: Expr): Expr {
    if e.Bin? then FoldConst(e.op, EliminateYn(e.l), EliminateYn(e.r)) else e
  }

  predicate IsYn(e: Expr) { e == Sym(YES) || e == Sym(NO) }

  /** Some AND or OR, not under a NOT, has y or n as an operand. */
  predicate HasYn(e: Expr) {
    e.Bin? && (IsYn(e.l) || IsYn(e.r) || HasYn(e.l) || HasYn(e.r))
  }

  lemma {:induction false} EliminateYnKeepsValue(e: Expr, env: Env)
    ensures Eval(EliminateYn(e), env) == Eval(e, env)
  {
    TriNames();
    if e.Bin? {
      EliminateYnKeepsValue(e.l, env);
      EliminateYnKeepsValue(e.r, env);
    }
  }

  /** Nothing is left to fold, a tree with something to fold shrinks, and any other is kept. */
  lemma {:induction false} EliminateYnFolds(e: Expr)
    ensures !HasYn(EliminateYn(e))
    ensures if HasYn(e) then Size(EliminateYn(e)) < Size(e) else EliminateYn(e) == e
  {
    TriNames();
    if e.Bin? {
      EliminateYnFolds(e.l);
      EliminateYnFolds(e.r);
    }
  }
}
