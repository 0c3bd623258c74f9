/** What a choice picks: the first of its candidates that is visible. */
module SymbolChoice {
  import opened Common
  import opened KconfigExpr
  import opened SymbolSpec

  /** What the defaults of a choice name that are visible, in order. */
  function Targets(ps: seq<Prop>, env: Env): seq<nat> {
    if ps == [] then []
    else
      var p := ps[|ps| - 1];
      Targets(ps[..|ps| - 1], env) +
      if p.kind == Default && p.target.Some? && EvalMaybe(p.visible, env) != no then [p.target.value] else []
  }

  function TargetNames(ps: seq<Prop>): set<nat> {
    if ps == [] then {}
    else
      var p := ps[|ps| - 1];
      TargetNames(ps[..|ps| - 1]) + if p.kind == Default then MaybeNames(p.visible) else {}
  }

  /** The user's choice comes first, then the defaults, then the values in order. */
  function Candidates(i: Info, env: Env, user: Option<nat>): seq<nat> {
    (if user.Some? then [user.value] else []) + Targets(i.props, env) + i.values
  }

  /** No prompt of v is visible. */
  predicate Hidden(t: Table, env: Env, v: nat) {
    v < |t| && forall p :: p in t[v].props && p.text ==> EvalMaybe(p.visible, env) == no
  }

  ghost predicate FirstShown(t: Table, env: Env, vs: seq<nat>, r: Option<nat>) {
    match r
    case None => forall n :: 0 <= n < |vs| ==> Hidden(t, env, vs[n])
    case Some(v) =>
      exists n :: 0 <= n < |vs| && vs[n] == v && !Hidden(t, env, v) && forall m :: 0 <= m < n ==> Hidden(t, env, vs[m])
  }

  // ----- what has been found out so far, and stays right -----

  ghost predicate HiddenIn(t: Table, k: Inputs, s: State, v: nat) { v < |t| && PromptsGive(k, s, t[v].props, no) }

  ghost predicate ShownIn(t: Table, k: Inputs, s: State, v: nat) {
    v < |t| && exists w: Tri :: w != no && PromptsGive(k, s, t[v].props, w)
  }

  ghost predicate AllHidden(t: Table, k: Inputs, s: State, vs: seq<nat>) {
    forall n :: 0 <= n < |vs| ==> HiddenIn(t, k, s, vs[n])
  }

  ghost predicate TargetsGive(k: Inputs, s: State, ps: seq<Prop>, vs: seq<nat>) {
    !s.looped ==> TargetNames(ps) <= Finished(s) && Targets(ps, EnvOf(k, s)) == vs
  }

  lemma HiddenLater(t: Table, k: Inputs, s: State, s': State, v: nat)
    requires Later(t, s, s', {}) && HiddenIn(t, k, s, v)
    ensures HiddenIn(t, k, s', v)
  {
    PromptsGiveLater(t, k, s, s', {}, t[v].props, no);
  }

  lemma AllHiddenLater(t: Table, k: Inputs, s: State, s': State, vs: seq<nat>)
    requires Later(t, s, s', {}) && AllHidden(t, k, s, vs)
    ensures AllHidden(t, k, s', vs)
  {
    hide Later, HiddenIn;
    forall n | 0 <= n < |vs| ensures HiddenIn(t, k, s', vs[n]) { HiddenLater(t, k, s, s', vs[n]); }
  }

  lemma AllHiddenNone(t: Table, k: Inputs, s: State)
    ensures AllHidden(t, k, s, [])
  {}

  lemma AllHiddenMore(t: Table, k: Inputs, s: State, vs: seq<nat>, v: nat)
    requires AllHidden(t, k, s, vs) && HiddenIn(t, k, s, v)
    ensures AllHidden(t, k, s, vs + [v])
  {
    hide HiddenIn;
  }

  lemma TargetsNone(t: Table, k: Inputs, s: State, ps: seq<Prop>)
    ensures AllHidden(t, k, s, []) && TargetsGive(k, s, ps[..0], [])
  {}

  lemma {:induction false} TargetsAgree(k: Inputs, s: State, s': State, ps: seq<Prop>)
    requires Agree(s, s', TargetNames(ps))
    ensures Targets(ps, EnvOf(k, s')) == Targets(ps, EnvOf(k, s))
  {
    if ps != [] {
      var p := ps[|ps| - 1];
      TargetsAgree(k, s, s', ps[..|ps| - 1]);
      if p.kind == Default && p.visible.Some? { EvalAgrees(k, s, s', p.visible.value); }
    }
  }

  lemma TargetsLater(t: Table, k: Inputs, s: State, s': State, ps: seq<Prop>, vs: seq<nat>)
    requires Later(t, s, s', {}) && TargetsGive(k, s, ps, vs)
    ensures TargetsGive(k, s', ps, vs)
  {
    LaterParts(t, s, s', {});
    if !s'.looped {
      AgreeLater(t, s, s', {}, TargetNames(ps));
      TargetsAgree(k, s, s', ps);
    }
  }

  /** One more property looked at: w is what its condition gives, if it is a default. */
  lemma TargetsMore(k: Inputs, s: State, ps: seq<Prop>, n: nat, vs: seq<nat>, w: Tri)
    requires n < |ps| && TargetsGive(k, s, ps[..n], vs)
    requires (ps[n].kind == Default ==> GivesMaybe(k, s, ps[n].visible, w))
    ensures var p := ps[n];
      TargetsGive(k, s, ps[..n + 1], vs + if p.kind == Default && p.target.Some? && w != no then [p.target.value]
        else [])
  {
    assert ps[..n + 1][..n] == ps[..n];
  }

  /** The visibility of the best prompt is what a value must reach for no prompt to exceed it. */
  lemma {:induction false} PromptsMean(ps: seq<Prop>, env: Env, v: Tri)
    ensures PromptsValue(ps, env) <= v <==> forall p :: p in ps && p.text ==> EvalMaybe(p.visible, env) <= v
  {
    if ps != [] {
      var p, rest := ps[|ps| - 1], ps[..|ps| - 1];
      PromptsMean(rest, env, v);
      assert forall q :: q in ps <==> q in rest || q == p;
    }
  }

  lemma Found(t: Table, k: Inputs, s: State, v: nat)
    requires !s.looped
    ensures HiddenIn(t, k, s, v) ==> Hidden(t, EnvOf(k, s), v)
    ensures ShownIn(t, k, s, v) ==> !Hidden(t, EnvOf(k, s), v)
  {
    if v < |t| { PromptsMean(t[v].props, EnvOf(k, s), no); }
  }

  /** Everything before it is hidden. */
  lemma FirstOf(t: Table, k: Inputs, s: State, vs: seq<nat>, before: seq<nat>, v: nat)
    requires !s.looped && before + [v] <= vs && AllHidden(t, k, s, before) && ShownIn(t, k, s, v)
    ensures FirstShown(t, EnvOf(k, s), vs, Some(v))
  {
    var env := EnvOf(k, s);
    Found(t, k, s, v);
    forall m | 0 <= m < |before| ensures Hidden(t, env, vs[m]) {
      assert vs[m] == (before + [v])[m];
      Found(t, k, s, before[m]);
    }
    assert vs[|before|] == (before + [v])[|before|];
  }

  lemma NoneShown(t: Table, k: Inputs, s: State, vs: seq<nat>)
    requires !s.looped && AllHidden(t, k, s, vs)
    ensures FirstShown(t, EnvOf(k, s), vs, None)
  {
    forall m | 0 <= m < |vs| ensures Hidden(t, EnvOf(k, s), vs[m]) { Found(t, k, s, vs[m]); }
  }

  lemma {:induction false} TargetsPrefix(ps: seq<Prop>, n: nat, env: Env)
    requires n <= |ps|
    ensures Targets(ps[..n], env) <= Targets(ps, env)
    decreases |ps|
  {
    if n == |ps| {
      assert ps[..n] == ps;
    } else {
      TargetsPrefix(ps[..|ps| - 1], n, env);
      assert ps[..|ps| - 1][..n] == ps[..n];
    }
  }

  function Maybe(r: Option<nat>): seq<nat> { if r.Some? then [r.value] else [] }

  lemma MaybeIs(r: Option<nat>)
    ensures Maybe(r) == if r.Some? then [r.value] else []
  {}

  ghost predicate ChoiceGives(t: Table, k: Inputs, s: State, i: Info, user: Option<nat>, r: Option<nat>) {
    !s.looped ==> FirstShown(t, EnvOf(k, s), Candidates(i, EnvOf(k, s), user), r)
  }

  lemma UserPicked(t: Table, k: Inputs, s: State, i: Info, user: Option<nat>)
    requires user.Some? && ShownIn(t, k, s, user.value)
    ensures ChoiceGives(t, k, s, i, user, user)
  {
    if !s.looped { FirstOf(t, k, s, Candidates(i, EnvOf(k, s), user), [], user.value); }
  }

  lemma DefaultPicked(t: Table, k: Inputs, s: State, i: Info, user: Option<nat>, tried: seq<nat>, n: nat, v: nat)
    requires AllHidden(t, k, s, Maybe(user)) && AllHidden(t, k, s, tried) && ShownIn(t, k, s, v)
    requires n <= |i.props| && TargetsGive(k, s, i.props[..n], tried + [v])
    ensures ChoiceGives(t, k, s, i, user, Some(v))
  {
    if !s.looped {
      var env := EnvOf(k, s);
      TargetsPrefix(i.props, n, env);
      var a, b, c := Maybe(user), Targets(i.props, env), i.values;
      assert a + tried + [v] == a + (tried + [v]);
      assert a + tried + [v] <= a + b + c;
      FirstOf(t, k, s, Candidates(i, env, user), a + tried, v);
    }
  }

  lemma ValuePicked(t: Table, k: Inputs, s: State, i: Info, user: Option<nat>, tried: seq<nat>, n: nat, r: Option<nat>)
    requires AllHidden(t, k, s, Maybe(user)) && AllHidden(t, k, s, tried) && TargetsGive(k, s, i.props, tried)
    requires n <= |i.values| && AllHidden(t, k, s, i.values[..n])
    requires if r == None then n == |i.values|
      else n < |i.values| && i.values[n] == r.value && ShownIn(t, k, s, r.value)
    ensures ChoiceGives(t, k, s, i, user, r)
  {
    if !s.looped {
      var env := EnvOf(k, s);
      var before := Maybe(user) + tried + i.values[..n];
      if r == None {
        assert i.values[..n] == i.values;
        NoneShown(t, k, s, before);
      } else {
        assert i.values[..n] + [r.value] == i.values[..n + 1];
        assert before + [r.value] == Maybe(user) + tried + i.values[..n + 1];
        FirstOf(t, k, s, Candidates(i, env, user), before, r.value);
      }
    }
  }
}
