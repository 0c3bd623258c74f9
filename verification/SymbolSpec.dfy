/** What the values of symbols should be, and what a calculation may change while it is under way. */
module SymbolSpec {
  import opened Common
  import opened KconfigExpr

  datatype PropKind = Prompt | Default | Range | Rest

  /** `text` says whether the property has a prompt text. `target` is the symbol of a default; `low` and `high`
      are the bounds of a range. */
  datatype Prop = Prop(kind: PropKind, text: bool, visible: Option<Expr>, expr: Option<Expr>, target: Option<nat>,
    low: nat, high: nat)

  /** `values` are the values of a choice, `owner` the choice of a choice value. */
  datatype Info = Info(kind: Kind, choice: bool, choiceValue: bool, revDep: Option<Expr>, props: seq<Prop>,
    values: seq<nat>, owner: nat)

  type Table = seq<Info>

  predicate Logical(k: Kind) { k.Boolean? || k.Tristate? }

  /** The symbols that an expression names. */
  function NamesOf(y: Symbol): set<nat> { if y.Var? then {y.id} else {} }

  function Names(e: Expr): set<nat> {
    match e
    case Sym(y) => NamesOf(y)
    case Not(x) => Names(x)
    case Bin(_, l, r) => Names(l) + Names(r)
    case Equal(a, b) => NamesOf(a) + NamesOf(b)
    case Unequal(a, b) => NamesOf(a) + NamesOf(b)
  }

  function MaybeNames(e: Option<Expr>): set<nat> { if e.Some? then Names(e.value) else {} }

  ghost predicate PropIn(p: Prop, n: nat) {
    && MaybeNames(p.visible) <= Ids(n) && MaybeNames(p.expr) <= Ids(n)
    && (p.target.Some? ==> p.target.value < n) && p.low < n && p.high < n
  }

  /** A table whose references stay inside it, and where a choice decides only among choice values. */
  ghost predicate TableOk(t: Table) {
    forall u: nat :: u < |t| ==>
      && MaybeNames(t[u].revDep) <= Ids(|t|) && t[u].owner < |t| && (t[u].choiceValue ==> t[t[u].owner].choice)
      && (forall p :: p in t[u].props ==> PropIn(p, |t|))
      && (forall v :: v in t[u].values ==> v < |t| && t[v].choiceValue)
      && (t[u].choice ==> forall p :: p in t[u].props && p.target.Some? ==> t[p.target.value].choiceValue)
  }

  function Max(a: Tri, b: Tri): Tri { if a > b then a else b }
  function Min(a: Tri, b: Tri): Tri { if a < b then a else b }

  /** What sym_calc_value leaves for one symbol. */
  datatype Cell = Cell(curr: Tri, visible: Tri, rev: Tri)

  /** What a calculation takes as given: the texts of the symbols that are neither bool nor tristate, and the
      values set by the user. */
  datatype Inputs = Inputs(texts: nat -> string, user: seq<Option<Tri>>)

  /** The state of a calculation: `modules` is the modules symbol. Since the flags were last cleared, `busy` are the
      symbols being calculated, `stale` those that were begun before modules_val took its present value, and `looped`
      says that a symbol being calculated was asked for. */
  datatype State = State(valid: set<nat>, cells: seq<Cell>, modules: nat, modulesVal: Tri, busy: set<nat>,
    stale: set<nat>, looped: bool)

  /** What symbol u, described by i, has read of modules_val still holds; only tristate symbols read it. */
  predicate Current(s: State, u: nat, i: Info) { u !in s.stale || !i.kind.Tristate? }

  /** The symbols whose calculation is finished. */
  function Finished(s: State): set<nat> { s.valid - s.busy }

  function EnvOf(k: Inputs, s: State): Env {
    Env((y: Symbol) => if y.Var? && y.id < |s.cells| then s.cells[y.id].curr else no,
        (y: Symbol) => if y.Var? then k.texts(y.id) else "")
  }

  // ----- the equations -----

  function EvalMaybe(e: Option<Expr>, env: Env): Tri { if e.Some? then Eval(e.value, env) else yes }

  /** The best of the visible prompts. */
  function PromptsValue(ps: seq<Prop>, env: Env): Tri {
    if ps == [] then no
    else
      var p := ps[|ps| - 1];
      var v := PromptsValue(ps[..|ps| - 1], env);
      if p.text then Max(v, EvalMaybe(p.visible, env)) else v
  }

  function PromptsNames(ps: seq<Prop>): set<nat> {
    if ps == [] then {}
    else
      var p := ps[|ps| - 1];
      PromptsNames(ps[..|ps| - 1]) + if p.text then MaybeNames(p.visible) else {}
  }

  /** The value of the first visible default. */
  function DefaultValue(ps: seq<Prop>, env: Env): Tri {
    if ps == [] then no
    else if ps[0].kind == Default && EvalMaybe(ps[0].visible, env) != no then EvalMaybe(ps[0].expr, env)
    else DefaultValue(ps[1..], env)
  }

  function EffectiveBool(i: Info, modules: Tri): bool { i.kind.Boolean? || (i.kind.Tristate? && modules == no) }

  /** Visibility m counts as y for symbols that cannot be m. */
  function Shown(i: Info, v: Tri, modules: Tri): Tri {
    if v == mod && (!i.kind.Tristate? || modules == no) then yes else v
  }

  function Raised(i: Info, v: Tri, modules: Tri): Tri { if v == mod && EffectiveBool(i, modules) then yes else v }

  /** The value of a symbol that is neither a choice nor a choice value. */
  function Value(i: Info, c: Cell, user: Option<Tri>, default: Tri, modules: Tri): Tri {
    var wanted := if user.Some? then user.value else default;
    Raised(i, if Max(c.visible, c.rev) != no then Max(Min(wanted, c.visible), c.rev) else default, modules)
  }

  predicate NeedsDefault(c: Cell, user: Option<Tri>) { Max(c.visible, c.rev) == no || user.None? }

  // ----- what has been read so far -----

  /** The value v was read off finished symbols only, and stays right from now on. */
  ghost predicate Gives(k: Inputs, s: State, e: Expr, v: Tri) {
    !s.looped ==> Names(e) <= Finished(s) && Eval(e, EnvOf(k, s)) == v
  }

  ghost predicate GivesMaybe(k: Inputs, s: State, e: Option<Expr>, v: Tri) {
    if e.Some? then Gives(k, s, e.value, v) else v == yes
  }

  ghost predicate PromptsGive(k: Inputs, s: State, ps: seq<Prop>, v: Tri) {
    !s.looped ==> PromptsNames(ps) <= Finished(s) && PromptsValue(ps, EnvOf(k, s)) == v
  }

  ghost predicate Passed(k: Inputs, s: State, p: Prop) { p.kind != Default || GivesMaybe(k, s, p.visible, no) }

  ghost predicate Reached(k: Inputs, s: State, p: Prop) {
    p.kind == Default && exists w: Tri :: w != no && GivesMaybe(k, s, p.visible, w)
  }

  /** The first visible default is at position j, and gives v. */
  ghost predicate DefaultGives(k: Inputs, s: State, ps: seq<Prop>, j: nat, v: Tri) {
    && j <= |ps| && (forall n :: 0 <= n < j ==> Passed(k, s, ps[n]))
    && if j == |ps| then v == no else Reached(k, s, ps[j]) && GivesMaybe(k, s, ps[j].expr, v)
  }

  lemma {:induction false} DefaultIsFirst(k: Inputs, s: State, ps: seq<Prop>, j: nat, v: Tri)
    requires DefaultGives(k, s, ps, j, v) && !s.looped
    ensures DefaultValue(ps, EnvOf(k, s)) == v
    decreases |ps|
  {
    if ps != [] {
      if j > 0 {
        assert Passed(k, s, ps[0]);
        forall n | 0 <= n < j - 1 ensures Passed(k, s, ps[1..][n]) { assert ps[1..][n] == ps[n + 1]; }
        DefaultIsFirst(k, s, ps[1..], j - 1, v);
      }
    }
  }

  // ----- what holds of the symbols -----

  /** A boolean symbol is never m. */
  ghost predicate NeverMod(i: Info, c: Cell) { i.kind.Boolean? ==> c.curr != mod }

  /** A bool or tristate symbol that is neither a choice nor a choice value is at least what selects it, and at
      most the larger of that and its visibility, unless both are n; and it is never m while modules are off. */
  ghost predicate Bounded(i: Info, c: Cell, modules: Tri) {
    Logical(i.kind) ==>
      && (modules == no ==> c.curr != mod)
      && (!i.choice && !i.choiceValue ==>
        c.rev <= c.curr && (Max(c.visible, c.rev) != no ==> c.curr <= Max(c.visible, c.rev)))
  }

  predicate Plain(i: Info) { Logical(i.kind) && !i.choice && !i.choiceValue }

  function RevValue(e: Option<Expr>, env: Env): Tri { if e.Some? then Eval(e.value, env) else no }

  /** Visibility and selection are what the expressions say. */
  ghost predicate VisibleSolved(k: Inputs, s: State, u: nat, i: Info, c: Cell) {
    Current(s, u, i) && !s.looped ==>
      && PromptsNames(i.props) <= Finished(s) && c.visible == Shown(i, PromptsValue(i.props, EnvOf(k, s)), s.modulesVal)
      && MaybeNames(i.revDep) <= Finished(s) && c.rev == Raised(i, RevValue(i.revDep, EnvOf(k, s)), s.modulesVal)
  }

  /** The value follows from visibility, selection, user value and first visible default. */
  ghost predicate ValueSolved(k: Inputs, s: State, u: nat, i: Info, c: Cell, user: Option<Tri>) {
    Current(s, u, i) && !s.looped ==>
      exists d: Tri :: c.curr == Value(i, c, user, d, s.modulesVal)
        && (NeedsDefault(c, user) ==> exists j: nat :: DefaultGives(k, s, i.props, j, d))
  }

  ghost predicate Solved(k: Inputs, s: State, u: nat, i: Info, c: Cell, user: Option<Tri>) {
    Plain(i) ==> VisibleSolved(k, s, u, i, c) && ValueSolved(k, s, u, i, c, user)
  }

  ghost predicate Good(t: Table, k: Inputs, s: State) {
    && TableOk(t) && |s.cells| == |k.user| == |t| && s.busy <= s.valid && s.stale <= s.valid
    && (forall u: nat :: u < |t| ==> NeverMod(t[u], s.cells[u]))
    && (forall u: nat :: u < |t| && u in Finished(s) && Current(s, u, t[u]) ==>
      Bounded(t[u], s.cells[u], s.modulesVal))
    && (forall u: nat :: u < |t| && u in Finished(s) ==> Solved(k, s, u, t[u], s.cells[u], k.user[u]))
  }

  // ----- what a calculation may change -----

  ghost function Fresh(t: Table, s: State): nat { |Ids(|t|) - s.valid| }

  ghost predicate Kept(i: Info, c: Cell, c': Cell) { c' == c || (i.choiceValue && c' == c.(visible := c'.visible)) }

  /** From s to s', symbols calculated or being calculated keep what they have, except for those in x and for the
      visibility of choice values. */
  ghost predicate Later(t: Table, s: State, s': State, x: set<nat>) {
    && Fresh(t, s') <= Fresh(t, s) && s.valid <= s'.valid && |s'.cells| == |s.cells| == |t|
    && (forall u :: u !in x ==> (u in s'.busy <==> u in s.busy))
    && s.stale <= s'.stale && (s'.modulesVal != s.modulesVal ==> s.valid <= s'.stale) && (s.looped ==> s'.looped)
    && s'.modules == s.modules
    && (s.modules in Finished(s) && s.modules !in x ==> s'.stale == s.stale && s'.modulesVal == s.modulesVal)
    && forall u: nat :: u < |t| && u in s.valid && u !in x ==> Kept(t[u], s.cells[u], s'.cells[u])
  }

  lemma LaterOn(t: Table, s0: State, s: State, s': State, x: set<nat>, y: set<nat>)
    requires Later(t, s0, s, x) && Later(t, s, s', y) && y <= x
    ensures Later(t, s0, s', x)
  {
    hide Fresh;
    forall u: nat | u < |t| && u in s0.valid && u !in x ensures Kept(t[u], s0.cells[u], s'.cells[u]) {
      assert Kept(t[u], s0.cells[u], s.cells[u]) && Kept(t[u], s.cells[u], s'.cells[u]);
    }
  }

  lemma LaterNot(t: Table, s: State)
    requires |s.cells| == |t|
    ensures Later(t, s, s, {})
  {}

  lemma LaterParts(t: Table, s: State, s': State, x: set<nat>)
    requires Later(t, s, s', x)
    ensures Fresh(t, s') <= Fresh(t, s) && |s'.cells| == |t| && s.valid <= s'.valid
    ensures forall u :: u !in x ==> (u in s'.busy <==> u in s.busy)
    ensures s.stale <= s'.stale && (s'.modulesVal != s.modulesVal ==> s.valid <= s'.stale) && (s.looped ==> s'.looped)
    ensures s.modules in Finished(s) && s.modules !in x ==> s'.stale == s.stale && s'.modulesVal == s.modulesVal
  {}

  /** A symbol that is current has been so all along, with the same modules_val if that matters. */
  lemma CurrentLater(t: Table, s: State, s': State, x: set<nat>, u: nat, i: Info)
    requires Later(t, s, s', x) && u in s.valid && Current(s', u, i)
    ensures Current(s, u, i) && (i.kind.Tristate? ==> s'.modulesVal == s.modulesVal)
  {}

  /** Only a tristate symbol looks at modules_val. */
  lemma OtherModules(i: Info, m: Tri, m': Tri)
    requires i.kind.Tristate? ==> m == m'
    ensures forall v: Tri :: Shown(i, v, m') == Shown(i, v, m) && Raised(i, v, m') == Raised(i, v, m)
    ensures forall c: Cell, user: Option<Tri>, d: Tri :: Value(i, c, user, d, m') == Value(i, c, user, d, m)
    ensures forall c: Cell :: NeverMod(i, c) && Bounded(i, c, m) ==> Bounded(i, c, m')
  {}

  /** A symbol being calculated keeps its cell. */
  lemma LaterCell(t: Table, s: State, s': State, sym: nat)
    requires Later(t, s, s', {}) && sym < |t| && sym in s.valid
    ensures |s'.cells| == |s.cells| == |t| && s'.busy == s.busy && sym in s'.valid
    ensures Kept(t[sym], s.cells[sym], s'.cells[sym])
  {
    assert forall u :: u in s'.busy <==> u in s.busy;
  }

  /** x holds no finished symbol, so that the finished ones keep their values. */
  ghost predicate Spares(s: State, x: set<nat>) { x !! Finished(s) }

  lemma SparesNone(s: State)
    ensures Spares(s, {})
  {}

  lemma FinishedStay(t: Table, s: State, s': State, x: set<nat>)
    requires Later(t, s, s', x) && Spares(s, x)
    ensures Finished(s) <= Finished(s')
    ensures forall u: nat :: u < |t| && u in Finished(s) ==> s'.cells[u].curr == s.cells[u].curr
  {
    hide Fresh;
    forall u | u in Finished(s) ensures u in Finished(s') { assert u !in x; }
    forall u: nat | u < |t| && u in Finished(s) ensures s'.cells[u].curr == s.cells[u].curr {
      assert Kept(t[u], s.cells[u], s'.cells[u]);
    }
  }

  /** The same values for some symbols. */
  ghost predicate Agree(s: State, s': State, ns: set<nat>) {
    |s'.cells| == |s.cells| && forall u: nat :: u in ns && u < |s.cells| ==> s'.cells[u].curr == s.cells[u].curr
  }

  lemma {:induction false} EvalAgrees(k: Inputs, s: State, s': State, e: Expr)
    requires Agree(s, s', Names(e))
    ensures Eval(e, EnvOf(k, s')) == Eval(e, EnvOf(k, s))
  {
    match e
    case Sym(y) => SymbolAgrees(k, s, s', y);
    case Not(x) => EvalAgrees(k, s, s', x);
    case Bin(_, l, r) =>
      EvalAgrees(k, s, s', l);
      EvalAgrees(k, s, s', r);
    case Equal(a, b) =>
      SymbolAgrees(k, s, s', a);
      SymbolAgrees(k, s, s', b);
    case Unequal(a, b) =>
      SymbolAgrees(k, s, s', a);
      SymbolAgrees(k, s, s', b);
  }

  lemma SymbolAgrees(k: Inputs, s: State, s': State, y: Symbol)
    requires Agree(s, s', NamesOf(y))
    ensures TriOf(y, EnvOf(k, s')) == TriOf(y, EnvOf(k, s)) && TextOf(y, EnvOf(k, s')) == TextOf(y, EnvOf(k, s))
  {}

  lemma {:induction false} PromptsAgree(k: Inputs, s: State, s': State, ps: seq<Prop>)
    requires Agree(s, s', PromptsNames(ps))
    ensures PromptsValue(ps, EnvOf(k, s')) == PromptsValue(ps, EnvOf(k, s))
  {
    if ps != [] {
      var p := ps[|ps| - 1];
      PromptsAgree(k, s, s', ps[..|ps| - 1]);
      if p.text && p.visible.Some? { EvalAgrees(k, s, s', p.visible.value); }
    }
  }

  lemma AgreeLater(t: Table, s: State, s': State, x: set<nat>, ns: set<nat>)
    requires Later(t, s, s', x) && Spares(s, x) && ns <= Finished(s)
    ensures Agree(s, s', ns) && ns <= Finished(s')
  {
    FinishedStay(t, s, s', x);
  }

  lemma GivesLater(t: Table, k: Inputs, s: State, s': State, x: set<nat>, e: Expr, v: Tri)
    requires Later(t, s, s', x) && Spares(s, x) && Gives(k, s, e, v)
    ensures Gives(k, s', e, v)
  {
    LaterParts(t, s, s', x);
    if !s'.looped {
      AgreeLater(t, s, s', x, Names(e));
      EvalAgrees(k, s, s', e);
    }
  }

  lemma GivesMaybeLater(t: Table, k: Inputs, s: State, s': State, x: set<nat>, e: Option<Expr>, v: Tri)
    requires Later(t, s, s', x) && Spares(s, x) && GivesMaybe(k, s, e, v)
    ensures GivesMaybe(k, s', e, v)
  {
    if e.Some? { GivesLater(t, k, s, s', x, e.value, v); }
  }

  lemma PromptsGiveLater(t: Table, k: Inputs, s: State, s': State, x: set<nat>, ps: seq<Prop>, v: Tri)
    requires Later(t, s, s', x) && Spares(s, x) && PromptsGive(k, s, ps, v)
    ensures PromptsGive(k, s', ps, v)
  {
    LaterParts(t, s, s', x);
    if !s'.looped {
      AgreeLater(t, s, s', x, PromptsNames(ps));
      PromptsAgree(k, s, s', ps);
    }
  }

  lemma PassedLater(t: Table, k: Inputs, s: State, s': State, x: set<nat>, p: Prop)
    requires Later(t, s, s', x) && Spares(s, x) && Passed(k, s, p)
    ensures Passed(k, s', p)
  {
    if p.kind == Default { GivesMaybeLater(t, k, s, s', x, p.visible, no); }
  }

  lemma ReachedLater(t: Table, k: Inputs, s: State, s': State, x: set<nat>, p: Prop)
    requires Later(t, s, s', x) && Spares(s, x) && Reached(k, s, p)
    ensures Reached(k, s', p)
  {
    var w: Tri :| w != no && GivesMaybe(k, s, p.visible, w);
    GivesMaybeLater(t, k, s, s', x, p.visible, w);
  }

  lemma DefaultLater(t: Table, k: Inputs, s: State, s': State, x: set<nat>, ps: seq<Prop>, j: nat, v: Tri)
    requires Later(t, s, s', x) && Spares(s, x) && DefaultGives(k, s, ps, j, v)
    ensures DefaultGives(k, s', ps, j, v)
  {
    hide Later, Spares, Passed, Reached, GivesMaybe;
    forall n | 0 <= n < j ensures Passed(k, s', ps[n]) { PassedLater(t, k, s, s', x, ps[n]); }
    if j < |ps| {
      ReachedLater(t, k, s, s', x, ps[j]);
      GivesMaybeLater(t, k, s, s', x, ps[j].expr, v);
    }
  }

  lemma VisibleLater(t: Table, k: Inputs, s: State, s': State, x: set<nat>, u: nat, i: Info, c: Cell)
    requires Later(t, s, s', x) && Spares(s, x) && u in s.valid && VisibleSolved(k, s, u, i, c)
    ensures VisibleSolved(k, s', u, i, c)
  {
    LaterParts(t, s, s', x);
    if Current(s', u, i) && !s'.looped {
      CurrentLater(t, s, s', x, u, i);
      OtherModules(i, s.modulesVal, s'.modulesVal);
      AgreeLater(t, s, s', x, PromptsNames(i.props));
      PromptsAgree(k, s, s', i.props);
      AgreeLater(t, s, s', x, MaybeNames(i.revDep));
      if i.revDep.Some? { EvalAgrees(k, s, s', i.revDep.value); }
    }
  }

  lemma ValueLater(t: Table, k: Inputs, s: State, s': State, x: set<nat>, u: nat, i: Info, c: Cell, user: Option<Tri>)
    requires Later(t, s, s', x) && Spares(s, x) && u in s.valid && ValueSolved(k, s, u, i, c, user)
    ensures ValueSolved(k, s', u, i, c, user)
  {
    LaterParts(t, s, s', x);
    hide Later, Spares, DefaultGives;
    if Current(s', u, i) && !s'.looped {
      CurrentLater(t, s, s', x, u, i);
      OtherModules(i, s.modulesVal, s'.modulesVal);
      var d: Tri :| c.curr == Value(i, c, user, d, s.modulesVal)
        && (NeedsDefault(c, user) ==> exists j: nat :: DefaultGives(k, s, i.props, j, d));
      if NeedsDefault(c, user) {
        var j: nat :| DefaultGives(k, s, i.props, j, d);
        DefaultLater(t, k, s, s', x, i.props, j, d);
      }
    }
  }

  lemma SolvedLater(t: Table, k: Inputs, s: State, s': State, x: set<nat>, u: nat, i: Info, c: Cell,
      user: Option<Tri>)
    requires Later(t, s, s', x) && Spares(s, x) && u in s.valid && Solved(k, s, u, i, c, user)
    ensures Solved(k, s', u, i, c, user)
  {
    if Plain(i) {
      VisibleLater(t, k, s, s', x, u, i, c);
      ValueLater(t, k, s, s', x, u, i, c, user);
    }
  }

  // ----- single changes -----

  function Entering(s: State, sym: nat): State { s.(valid := s.valid + {sym}, busy := s.busy + {sym}) }

  function Moving(s: State, v: Tri): State {
    s.(modulesVal := v, stale := if v != s.modulesVal then s.valid else s.stale)
  }

  function Leaving(s: State, sym: nat): State { s.(busy := s.busy - {sym}) }

  function Setting(s: State, sym: nat, c: Cell): State
    requires sym < |s.cells|
  {
    s.(cells := s.cells[sym := c])
  }

  lemma FewerFresh(t: Table, s: State, sym: nat)
    requires sym < |t| && sym !in s.valid
    ensures Fresh(t, Entering(s, sym)) < Fresh(t, s)
  {
    var rest := Ids(|t|) - s.valid;
    assert sym in rest;
    assert Ids(|t|) - (s.valid + {sym}) == rest - {sym};
  }

  /** The finished symbols are as they were, if their cells are. */
  lemma FinishedKept(t: Table, k: Inputs, s: State, s': State, x: set<nat>)
    requires Good(t, k, s) && Later(t, s, s', x) && Spares(s, x) && Finished(s') == Finished(s)
    requires forall u: nat :: u < |t| && NeverMod(t[u], s.cells[u]) ==> NeverMod(t[u], s'.cells[u])
    requires s'.busy <= s'.valid && s'.stale <= s'.valid
    ensures Good(t, k, s')
  {
    LaterParts(t, s, s', x);
    forall u: nat | u < |t| && u in Finished(s)
      ensures Solved(k, s', u, t[u], s'.cells[u], k.user[u])
      ensures Current(s', u, t[u]) ==> Bounded(t[u], s'.cells[u], s'.modulesVal)
    {
      KeptFinished(t, s, s', x, u);
      SolvedLater(t, k, s, s', x, u, t[u], s.cells[u], k.user[u]);
      if Current(s', u, t[u]) {
        CurrentLater(t, s, s', x, u, t[u]);
        OtherModules(t[u], s.modulesVal, s'.modulesVal);
        assert Bounded(t[u], s.cells[u], s'.modulesVal);
      }
    }
  }

  lemma KeptFinished(t: Table, s: State, s': State, x: set<nat>, u: nat)
    requires Later(t, s, s', x) && Spares(s, x) && u < |t| && u in Finished(s)
    ensures Kept(t[u], s.cells[u], s'.cells[u])
  {
    assert u !in x;
  }

  lemma EnteringLater(t: Table, s: State, sym: nat)
    requires sym < |t| && sym !in s.valid && s.busy <= s.valid && |s.cells| == |t|
    ensures Later(t, s, Entering(s, sym), {sym}) && Fresh(t, Entering(s, sym)) < Fresh(t, s)
    ensures Spares(s, {sym}) && Finished(Entering(s, sym)) == Finished(s)
    ensures Entering(s, sym).busy <= Entering(s, sym).valid
    ensures Entering(s, sym).cells == s.cells
  {
    FewerFresh(t, s, sym);
    hide Fresh;
  }

  lemma Entered(t: Table, k: Inputs, s: State, sym: nat)
    requires Good(t, k, s) && sym < |t| && sym !in s.valid
    ensures Good(t, k, Entering(s, sym)) && Later(t, s, Entering(s, sym), {sym})
    ensures Fresh(t, Entering(s, sym)) < Fresh(t, s)
  {
    EnteringLater(t, s, sym);
    assert |s.cells| == |t| && s.busy <= s.valid;
    hide *;
    FinishedKept(t, k, s, Entering(s, sym), {sym});
  }

  /** A symbol gets a new cell while it is being calculated. */
  lemma CellSet(t: Table, k: Inputs, s: State, sym: nat, c: Cell)
    requires Good(t, k, s) && sym < |t| && NeverMod(t[sym], c) && sym in s.busy
    ensures Good(t, k, Setting(s, sym, c)) && Later(t, s, Setting(s, sym, c), {sym})
  {
    var s' := Setting(s, sym, c);
    assert Fresh(t, s') == Fresh(t, s);
    hide Fresh, TableOk, Solved, Bounded, NeverMod;
    FinishedKept(t, k, s, s', {sym});
  }

  /** A choice value gets a new visibility. */
  lemma VisibilitySet(t: Table, k: Inputs, s: State, sym: nat, v: Tri)
    requires Good(t, k, s) && sym < |t| && t[sym].choiceValue
    ensures var s' := Setting(s, sym, s.cells[sym].(visible := v)); Good(t, k, s') && Later(t, s, s', {})
  {
    var s' := Setting(s, sym, s.cells[sym].(visible := v));
    assert Fresh(t, s') == Fresh(t, s);
    assert Later(t, s, s', {}) by { hide Fresh; }
    assert Finished(s') == Finished(s) && Spares(s, {});
    hide Fresh, TableOk, Solved, Bounded, Later, Spares, Finished;
    FinishedKept(t, k, s, s', {});
  }

  /** The end of a calculation. */
  lemma Left(t: Table, k: Inputs, s: State, sym: nat)
    requires Good(t, k, s) && sym < |t| && sym in s.busy
    requires Current(s, sym, t[sym]) ==> Bounded(t[sym], s.cells[sym], s.modulesVal)
    requires Solved(k, s, sym, t[sym], s.cells[sym], k.user[sym])
    ensures Good(t, k, Leaving(s, sym)) && Later(t, s, Leaving(s, sym), {sym})
  {
    var s' := Leaving(s, sym);
    assert Fresh(t, s') == Fresh(t, s);
    hide Fresh, TableOk, Solved, Bounded, NeverMod;
    assert Later(t, s, s', {sym});
    assert Spares(s, {sym});
    assert forall u :: u in Finished(s') ==> u in Finished(s) || u == sym;
    forall u: nat | u < |t| && u in Finished(s') ensures Solved(k, s', u, t[u], s'.cells[u], k.user[u]) {
      SolvedLater(t, k, s, s', {sym}, u, t[u], s.cells[u], k.user[u]);
    }
  }

  /** The modules symbol has been calculated, and modules_val is v from now on. */
  lemma ModulesSet(t: Table, k: Inputs, s: State, v: Tri)
    requires Good(t, k, s)
    ensures Good(t, k, Moving(s, v)) && Later(t, s, Moving(s, v), {s.modules})
  {
    var s' := Moving(s, v);
    assert Fresh(t, s') == Fresh(t, s);
    hide Fresh, TableOk, Solved, Bounded, NeverMod;
    MovedGood(t, k, s, v);
  }

  /** Which symbol the modules symbol is plays no part in what is good. */
  lemma MovedGood(t: Table, k: Inputs, s: State, v: Tri)
    requires Good(t, k, s)
    ensures Good(t, k, Moving(s, v))
  {
    var m := Unused(s.valid);
    var r := s.(modules := m);
    OtherModulesGood(t, k, s, m);
    var r' := Moving(r, v);
    assert Fresh(t, r') == Fresh(t, r);
    assert Later(t, r, r', {}) by { hide Fresh; }
    assert Finished(r') == Finished(r) && Spares(r, {});
    assert |r.cells| == |t| && r'.busy <= r'.valid && r'.stale <= r'.valid;
    hide Fresh, TableOk, Solved, Bounded, Later, Spares, Finished, Good;
    FinishedKept(t, k, r, r', {});
    OtherModulesGood(t, k, r', s.modules);
  }

  lemma OtherModulesGood(t: Table, k: Inputs, s: State, m: nat)
    requires Good(t, k, s)
    ensures Good(t, k, s.(modules := m))
  {
    var r := s.(modules := m);
    hide TableOk, Bounded, Solved;
    forall u: nat | u < |t| && u in Finished(r) ensures Solved(k, r, u, t[u], r.cells[u], k.user[u]) {
      assert Solved(k, s, u, t[u], s.cells[u], k.user[u]);
      SolvedSame(k, k, s, r, u, t[u], s.cells[u], k.user[u]);
    }
  }

  /** The user values enter only through the symbol's own one, and the modules symbol only through modules_val. */
  lemma SolvedSame(k: Inputs, k': Inputs, s: State, s': State, u: nat, i: Info, c: Cell, user: Option<Tri>)
    requires Solved(k, s, u, i, c, user) && k'.texts == k.texts && s' == s.(modules := s'.modules)
    ensures Solved(k', s', u, i, c, user)
  {
    assert EnvOf(k', s') == EnvOf(k, s) && Finished(s') == Finished(s);
    if Plain(i) && Current(s, u, i) && !s.looped {
      var d: Tri :| c.curr == Value(i, c, user, d, s.modulesVal)
        && (NeedsDefault(c, user) ==> exists j: nat :: DefaultGives(k, s, i.props, j, d));
      if NeedsDefault(c, user) {
        var j: nat :| DefaultGives(k, s, i.props, j, d);
        DefaultSame(k, k', s, s', i.props, j, d);
      }
    }
  }

  lemma DefaultSame(k: Inputs, k': Inputs, s: State, s': State, ps: seq<Prop>, j: nat, v: Tri)
    requires DefaultGives(k, s, ps, j, v) && k'.texts == k.texts && s' == s.(modules := s'.modules)
    ensures DefaultGives(k', s', ps, j, v)
  {
    assert EnvOf(k', s') == EnvOf(k, s) && Finished(s') == Finished(s);
    hide EnvOf, Finished;
    forall n | 0 <= n < j ensures Passed(k', s', ps[n]) { assert Passed(k, s, ps[n]); }
    if j < |ps| {
      var w: Tri :| w != no && GivesMaybe(k, s, ps[j].visible, w);
      assert GivesMaybe(k', s', ps[j].visible, w);
    }
  }

  lemma {:induction false} Unused(ids: set<nat>) returns (m: nat)
    ensures m !in ids && forall x :: x in ids ==> x < m
    decreases |ids|
  {
    m := 0;
    if ids != {} {
      var x :| x in ids;
      m := Unused(ids - {x});
      assert forall y :: y in ids && y != x ==> y in ids - {x};
      if m <= x { m := x + 1; }
    }
  }

  lemma LoopSet(t: Table, k: Inputs, s: State)
    requires Good(t, k, s)
    ensures Good(t, k, s.(looped := true)) && Later(t, s, s.(looped := true), {})
  {
    var s' := s.(looped := true);
    assert Fresh(t, s') == Fresh(t, s);
    hide Fresh, TableOk, Solved, Bounded, NeverMod;
    FinishedKept(t, k, s, s', {});
  }

  /** With the symbol entered and left again, nothing else was exempt. */
  lemma LaterWhole(t: Table, s: State, s': State, sym: nat)
    requires Later(t, s, s', {sym}) && sym !in s.valid && sym !in s.busy && sym !in s'.busy
    ensures Later(t, s, s', {})
  {}
}
