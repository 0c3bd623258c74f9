/** What the calculated values mean: each is the smallest value that is allowed and meets what prompts, selections, user
    and defaults ask for. */
module SymbolMeaning {
  import opened Common
  import opened KconfigExpr
  import opened SymbolChoice
  import opened SymbolSpec
  import opened SymbolValues

  /** A boolean symbol cannot be m, and neither can a tristate one while modules are off. */
  predicate Allowed(i: Info, modules: Tri, v: Tri) {
    v == mod ==> !i.kind.Boolean? && !(i.kind.Tristate? && modules == no)
  }

  /** As visible as every prompt. */
  predicate Shows(i: Info, env: Env, modules: Tri, v: Tri) {
    Allowed(i, modules, v) && forall p :: p in i.props && p.text ==> EvalMaybe(p.visible, env) <= v
  }

  /** As high as what selects the symbol. */
  predicate Selects(i: Info, env: Env, modules: Tri, v: Tri) {
    Allowed(i, modules, v) && (i.revDep.Some? ==> Eval(i.revDep.value, env) <= v)
  }

  /** As high as what selects the symbol and as what is wanted, but for the latter no higher than it is visible. */
  predicate Serves(i: Info, c: Cell, want: Tri, modules: Tri, v: Tri) {
    Allowed(i, modules, v) && c.rev <= v && (want <= v || c.visible <= v)
  }

  predicate Reaches(i: Info, default: Tri, modules: Tri, v: Tri) { Allowed(i, modules, v) && default <= v }

  /** d is the value of the first default that is visible, or n if none is. */
  ghost predicate FirstDefault(ps: seq<Prop>, env: Env, d: Tri) {
    || (d == no && forall p :: p in ps && p.kind == Default ==> EvalMaybe(p.visible, env) == no)
    || (exists j :: 0 <= j < |ps| && DefaultAt(ps, env, j) && d == EvalMaybe(ps[j].expr, env))
  }

  /** The default at position j is visible and none before it is. */
  ghost predicate DefaultAt(ps: seq<Prop>, env: Env, j: int)
    requires 0 <= j < |ps|
  {
    && ps[j].kind == Default && EvalMaybe(ps[j].visible, env) != no
    && forall n :: 0 <= n < j && ps[n].kind == Default ==> EvalMaybe(ps[n].visible, env) == no
  }

  lemma {:induction false} DefaultMeans(ps: seq<Prop>, env: Env)
    ensures FirstDefault(ps, env, DefaultValue(ps, env))
  {
    if ps != [] {
      if ps[0].kind == Default && EvalMaybe(ps[0].visible, env) != no {
        assert DefaultAt(ps, env, 0);
      } else {
        DefaultMeans(ps[1..], env);
        var d := DefaultValue(ps[1..], env);
        if j :| 0 <= j < |ps[1..]| && DefaultAt(ps[1..], env, j) && d == EvalMaybe(ps[1..][j].expr, env) {
          forall n | 0 <= n < j + 1 && ps[n].kind == Default ensures EvalMaybe(ps[n].visible, env) == no {
            if n > 0 { assert ps[1..][n - 1] == ps[n]; }
          }
          assert DefaultAt(ps, env, j + 1);
        } else {
          forall p | p in ps && p.kind == Default ensures EvalMaybe(p.visible, env) == no {
            assert p == ps[0] || p in ps[1..];
          }
        }
      }
    }
  }

  lemma VisibleMeans(i: Info, env: Env, modules: Tri)
    requires Logical(i.kind)
    ensures var v := Shown(i, PromptsValue(i.props, env), modules);
      Shows(i, env, modules, v) && forall w: Tri :: Shows(i, env, modules, w) ==> v <= w
  {
    forall w: Tri ensures Shows(i, env, modules, w) <==> Allowed(i, modules, w) && PromptsValue(i.props, env) <= w {
      PromptsMean(i.props, env, w);
    }
  }

  lemma SelectionMeans(i: Info, env: Env, modules: Tri)
    requires Logical(i.kind)
    ensures var v := Raised(i, RevValue(i.revDep, env), modules);
      Selects(i, env, modules, v) && forall w: Tri :: Selects(i, env, modules, w) ==> v <= w
  {}

  lemma ValueMeans(i: Info, c: Cell, user: Option<Tri>, default: Tri, modules: Tri)
    requires Logical(i.kind)
    ensures var v, want := Value(i, c, user, default, modules), if user.Some? then user.value else default;
      if c.visible != no || c.rev != no then
        Serves(i, c, want, modules, v) && forall w: Tri :: Serves(i, c, want, modules, w) ==> v <= w
      else Reaches(i, default, modules, v) && forall w: Tri :: Reaches(i, default, modules, w) ==> v <= w
  {}

  /** In every good state, of every finished symbol that has to do with no choice: visibility is the smallest allowed
      value
      that no prompt exceeds, selection the smallest that the selecting expression does not exceed, and the value the
      smallest that the two and the user, or else the first visible default, ask for. */
  lemma Meaning(t: Table, k: Inputs, s: State, u: nat)
    requires Good(t, k, s) && u < |t| && u in Finished(s) && Plain(t[u]) && Current(s, u, t[u]) && !s.looped
    ensures var i, c, env, m := t[u], s.cells[u], EnvOf(k, s), s.modulesVal;
      && Shows(i, env, m, c.visible) && (forall w: Tri :: Shows(i, env, m, w) ==> c.visible <= w)
      && Selects(i, env, m, c.rev) && (forall w: Tri :: Selects(i, env, m, w) ==> c.rev <= w)
    ensures var i, c, env, m := t[u], s.cells[u], EnvOf(k, s), s.modulesVal;
      exists d: Tri :: FirstDefault(i.props, env, d)
        && var want := if k.user[u].Some? then k.user[u].value else d;
        if c.visible != no || c.rev != no then
          Serves(i, c, want, m, c.curr) && forall w: Tri :: Serves(i, c, want, m, w) ==> c.curr <= w
        else Reaches(i, d, m, c.curr) && forall w: Tri :: Reaches(i, d, m, w) ==> c.curr <= w
  {
    var i, c, env, m := t[u], s.cells[u], EnvOf(k, s), s.modulesVal;
    Equations(t, k, s, u);
    hide Good, Value, Shown, Raised, EnvOf, Shows, Selects, Serves, Reaches, FirstDefault;
    VisibleMeans(i, env, m);
    SelectionMeans(i, env, m);
    DefaultMeans(i.props, env);
    ValueMeans(i, c, k.user[u], DefaultValue(i.props, env), m);
  }
}
