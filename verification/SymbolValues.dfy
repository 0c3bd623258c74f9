/** Visibility and value of symbols: sym_calc_visibility and sym_calc_value of symbol.c, with the flag that makes
    each symbol be calculated once. Texts are taken as given. */
module SymbolValues {
  import opened Common
  import opened KconfigExpr
  import opened SymbolSpec
  import opened SymbolChoice

  /** What a symbol reads as, once it is finished. */
  lemma SymbolGives(k: Inputs, s: State, y: Symbol)
    requires y.Var? ==> y.id < |s.cells| && (!s.looped ==> y.id in Finished(s))
    ensures Gives(k, s, Sym(y), TriOf(y, EnvOf(k, s)))
    ensures y.Var? ==> TriOf(y, EnvOf(k, s)) == s.cells[y.id].curr
  {}

  lemma NotGives(k: Inputs, s: State, x: Expr, v: Tri)
    requires Gives(k, s, x, v)
    ensures Gives(k, s, Not(x), 2 - v)
  {}

  lemma BinGives(k: Inputs, s: State, op: Op, l: Expr, r: Expr, v: Tri, w: Tri)
    requires Gives(k, s, l, v) && Gives(k, s, r, w)
    ensures Gives(k, s, Bin(op, l, r), Apply(op, v, w))
  {}

  lemma CompareGives(k: Inputs, s: State, a: Symbol, b: Symbol, v: Tri, w: Tri, same: bool)
    requires Gives(k, s, Sym(a), v) && Gives(k, s, Sym(b), w)
    requires same == (TextOf(a, EnvOf(k, s)) == TextOf(b, EnvOf(k, s)))
    ensures Gives(k, s, Equal(a, b), if same then yes else no) && Gives(k, s, Unequal(a, b), if same then no else yes)
  {}

  lemma PromptGives(k: Inputs, s: State, ps: seq<Prop>, j: nat, v: Tri, w: Tri)
    requires j < |ps| && PromptsGive(k, s, ps[..j], v) && (ps[j].text ==> GivesMaybe(k, s, ps[j].visible, w))
    ensures PromptsGive(k, s, ps[..j + 1], if ps[j].text then Max(v, w) else v)
  {
    assert ps[..j + 1][..j] == ps[..j];
  }

  /** Visibility is known, selection not yet. */
  ghost predicate HalfSolved(k: Inputs, s: State, u: nat, i: Info, c: Cell) {
    Current(s, u, i) && !s.looped ==>
      PromptsNames(i.props) <= Finished(s) && c.visible == Shown(i, PromptsValue(i.props, EnvOf(k, s)), s.modulesVal)
  }

  lemma HalfLater(t: Table, k: Inputs, s: State, s': State, x: set<nat>, u: nat, i: Info, c: Cell)
    requires Later(t, s, s', x) && Spares(s, x) && u in s.valid && HalfSolved(k, s, u, i, c)
    ensures HalfSolved(k, s', u, i, c)
  {
    LaterParts(t, s, s', x);
    if Current(s', u, i) && !s'.looped {
      CurrentLater(t, s, s', x, u, i);
      OtherModules(i, s.modulesVal, s'.modulesVal);
      AgreeLater(t, s, s', x, PromptsNames(i.props));
      PromptsAgree(k, s, s', i.props);
    }
  }

  lemma HalfStart(k: Inputs, s: State, u: nat, i: Info, c: Cell, v: Tri)
    requires PromptsGive(k, s, i.props, v) && c.visible == Shown(i, v, s.modulesVal)
    ensures HalfSolved(k, s, u, i, c)
  {}

  lemma HalfDone(k: Inputs, s: State, u: nat, i: Info, c: Cell, v: Tri)
    requires HalfSolved(k, s, u, i, c) && (if i.revDep.Some? then Gives(k, s, i.revDep.value, v) else v == no)
    requires c.rev == Raised(i, v, s.modulesVal)
    ensures VisibleSolved(k, s, u, i, c)
  {}

  /** Visibility and selection as sym_calc_visibility leaves them. */
  ghost predicate VisibilityOk(i: Info, c: Cell, modules: Tri) {
    (!i.kind.Tristate? || modules == no ==> c.visible != mod) && (EffectiveBool(i, modules) ==> c.rev != mod)
  }

  lemma VisibilityStays(i: Info, c: Cell, m: Tri, m': Tri)
    requires VisibilityOk(i, c, m) && (i.kind.Tristate? ==> m' == m)
    ensures VisibilityOk(i, c, m')
  {}

  /** The value between selection and visibility. */
  lemma InBounds(i: Info, c: Cell, user: Option<Tri>, d: Tri, modules: Tri)
    requires Plain(i) && VisibilityOk(i, c, modules)
    ensures Bounded(i, c.(curr := Value(i, c, user, d, modules)), modules)
  {}

  lemma ValueGives(k: Inputs, s: State, u: nat, i: Info, c: Cell, user: Option<Tri>, d: Tri, j: nat)
    requires NeedsDefault(c, user) ==> DefaultGives(k, s, i.props, j, d)
    requires c.curr == Value(i, c, user, d, s.modulesVal)
    ensures ValueSolved(k, s, u, i, c, user)
  {}

  lemma Shape(t: Table, k: Inputs, s: State)
    requires Good(t, k, s)
    ensures |s.cells| == |k.user| == |t| && s.busy <= s.valid && Spares(s, {}) && Finished(s) !! s.busy
  {}

  lemma InfoParts(t: Table, k: Inputs, s: State, sym: nat)
    requires Good(t, k, s) && sym < |t|
    ensures |s.cells| == |k.user| == |t| && s.busy <= s.valid && Spares(s, {}) && NeverMod(t[sym], s.cells[sym])
    ensures sym in s.busy ==> Spares(s, {sym})
    ensures MaybeNames(t[sym].revDep) <= Ids(|t|) && t[sym].owner < |t|
    ensures t[sym].choiceValue ==> t[t[sym].owner].choice
    ensures forall p :: p in t[sym].props ==>
      PropIn(p, |t|) && (t[sym].choice && p.target.Some? ==> t[p.target.value].choiceValue)
    ensures forall v :: v in t[sym].values ==> v < |t| && t[v].choiceValue
  {}

  lemma ValueIn(t: Table, k: Inputs, s: State, sym: nat, j: nat)
    requires Good(t, k, s) && sym < |t| && j < |t[sym].values|
    ensures t[sym].values[j] < |t| && t[t[sym].values[j]].choiceValue
  {
    assert t[sym].values[j] in t[sym].values;
  }

  lemma SameButValue(k: Inputs, s: State, u: nat, i: Info, c: Cell, v: Tri)
    ensures VisibleSolved(k, s, u, i, c.(curr := v)) <==> VisibleSolved(k, s, u, i, c)
  {}

  /** No value of a choice is visible: its value falls back to n, which others may have read as y before. */
  lemma ChoiceReset(t: Table, k: Inputs, s: State, sym: nat)
    requires Good(t, k, s) && sym < |t| && t[sym].choice
    ensures var s' := Setting(s, sym, s.cells[sym].(curr := no)).(looped := true);
      && Good(t, k, s')
      && Later(t, s, s', {sym})
  {
    var s' := Setting(s, sym, s.cells[sym].(curr := no)).(looped := true);
    assert Fresh(t, s') == Fresh(t, s);
    hide Fresh, TableOk;
  }

  class Symbols {
    const table: Table
    const modules: nat
    const texts: nat -> string
    var valid: set<nat>
    var cells: seq<Cell>
    var chosen: seq<Option<nat>>
    var user: seq<Option<Tri>>
    var userChoice: seq<Option<nat>>
    var modulesVal: Tri
    ghost var busy: set<nat>
    ghost var stale: set<nat>
    ghost var looped: bool

    /** Before anything is read: nobody has a value, and modules are off. */
    constructor (t: Table, modules: nat, texts: nat -> string)
      requires TableOk(t) && modules < |t|
      ensures table == t && this.modules == modules && this.texts == texts
      ensures Sized() && Good(table, Given(), Now()) && busy == {} && valid == {}
    {
      table, this.modules, this.texts := t, modules, texts;
      valid, busy, stale, looped, modulesVal := {}, {}, {}, false, no;
      cells := seq(|t|, _ => Cell(no, no, no));
      user := seq(|t|, _ => None);
      chosen, userChoice := seq(|t|, _ => None), seq(|t|, _ => None);
    }

    ghost function Now(): State
      reads this
    {
      State(valid, cells, modules, modulesVal, busy, stale, looped)
    }

    /** What the symbol has read of modules_val still holds. */
    ghost predicate Timely(sym: nat)
      requires sym < |table|
      reads this
    {
      Current(Now(), sym, table[sym])
    }

    ghost function Given(): Inputs
      reads this`user
    {
      Inputs(texts, user)
    }

    /** The parts that the values do not show: a choice remembers one of its values. */
    ghost predicate Sized()
      reads this`chosen, this`userChoice
    {
      |chosen| == |table| && modules < |table| && ChoicesOk(table, userChoice)
    }

    /** expr_calc_value */
    method CalcExpr(e: Expr) returns (v: Tri)
      requires Sized() && Good(table, Given(), Now()) && Names(e) <= Ids(|table|)
      modifies this`valid, this`cells, this`chosen, this`modulesVal, this`busy, this`stale, this`looped
      ensures Sized() && Good(table, Given(), Now()) && Later(table, old(Now()), Now(), {})
      ensures Gives(Given(), Now(), e, v)
      decreases Fresh(table, Now()), 3, e
    {
      hide Good, Later, Fresh, Sized, Gives, Spares, Eval;
      match e
      case Sym(y) => v := CalcSymbol(y);
      case Not(x) =>
        v := CalcExpr(x);
        NotGives(Given(), Now(), x, v);
        v := 2 - v;
      case Bin(op, l, r) =>
        v := CalcExpr(l);
        ghost var s := Now();
        LaterParts(table, old(Now()), s, {});
        Shape(table, Given(), s);
        var w := CalcExpr(r);
        LaterOn(table, old(Now()), s, Now(), {}, {});
        GivesLater(table, Given(), s, Now(), {}, l, v);
        BinGives(Given(), Now(), op, l, r, v, w);
        v := Apply(op, v, w);
      case Equal(a, b) =>
        var same := Compare(a, b);
        v := if same then yes else no;
      case Unequal(a, b) =>
        var same := Compare(a, b);
        v := if same then no else yes;
    }

    method CalcSymbol(y: Symbol) returns (v: Tri)
      requires Sized() && Good(table, Given(), Now()) && NamesOf(y) <= Ids(|table|)
      modifies this`valid, this`cells, this`chosen, this`modulesVal, this`busy, this`stale, this`looped
      ensures Sized() && Good(table, Given(), Now()) && Later(table, old(Now()), Now(), {})
      ensures Gives(Given(), Now(), Sym(y), v)
      ensures y.Var? ==> y.id < |table| == |cells|
      decreases Fresh(table, Now()), 1
    {
      Shape(table, Given(), Now());
      LaterNot(table, Now());
      hide Good, Later, Fresh, Sized, Gives, Spares;
      if y.Var? {
        assert y.id in NamesOf(y);
        CalcValue(y.id);
        v := cells[y.id].curr;
      } else {
        v := if y == YES then yes else if y == MOD then mod else no;
      }
      SymbolGives(Given(), Now(), y);
    }

    /** sym_get_string_value */
    method TextNow(y: Symbol) returns (text: string)
      requires y.Var? ==> y.id < |cells|
      ensures text == TextOf(y, EnvOf(Given(), Now()))
    {
      match y
      case Const(name) => text := name;
      case Var(id, kind) => text := if kind.Boolean? || kind.Tristate? then TriName(cells[id].curr) else texts(id);
    }

    /** The two comparisons of expr_calc_value. */
    method Compare(a: Symbol, b: Symbol) returns (same: bool)
      requires Sized() && Good(table, Given(), Now()) && NamesOf(a) <= Ids(|table|) && NamesOf(b) <= Ids(|table|)
      modifies this`valid, this`cells, this`chosen, this`modulesVal, this`busy, this`stale, this`looped
      ensures Sized() && Good(table, Given(), Now()) && Later(table, old(Now()), Now(), {})
      ensures Gives(Given(), Now(), Equal(a, b), if same then yes else no)
      ensures Gives(Given(), Now(), Unequal(a, b), if same then no else yes)
      decreases Fresh(table, Now()), 2
    {
      hide Good, Later, Fresh, Sized, Gives, Spares, TextOf, EnvOf;
      var x := CalcSymbol(a);
      ghost var s := Now();
      LaterParts(table, old(Now()), s, {});
      Shape(table, Given(), s);
      var y := CalcSymbol(b);
      LaterParts(table, s, Now(), {});
      LaterOn(table, old(Now()), s, Now(), {}, {});
      GivesLater(table, Given(), s, Now(), {}, Sym(a), x);
      var p := TextNow(a);
      var q := TextNow(b);
      same := p == q;
      CompareGives(Given(), Now(), a, b, x, y, same);
    }

    /** A null expression counts as y. */
    method CalcMaybe(e: Option<Expr>) returns (v: Tri)
      requires Sized() && Good(table, Given(), Now()) && MaybeNames(e) <= Ids(|table|)
      modifies this`valid, this`cells, this`chosen, this`modulesVal, this`busy, this`stale, this`looped
      ensures Sized() && Good(table, Given(), Now()) && Later(table, old(Now()), Now(), {})
      ensures GivesMaybe(Given(), Now(), e, v)
      decreases Fresh(table, Now()), 4
    {
      Shape(table, Given(), Now());
      LaterNot(table, Now());
      hide Good, Later, Fresh, Sized, Gives;
      v := yes;
      if e.Some? { v := CalcExpr(e.value); }
    }

    /** The first loop of sym_calc_visibility: is any prompt visible? */
    method AnyPrompt(sym: nat) returns (tri: Tri)
      requires Sized() && Good(table, Given(), Now()) && sym < |table|
      modifies this`valid, this`cells, this`chosen, this`modulesVal, this`busy, this`stale, this`looped
      ensures Sized() && Good(table, Given(), Now()) && Later(table, old(Now()), Now(), {})
      ensures PromptsGive(Given(), Now(), table[sym].props, tri)
      decreases Fresh(table, Now()), 5
    {
      tri := no;
      InfoParts(table, Given(), Now(), sym);
      LaterNot(table, Now());
      var ps := table[sym].props;
      assert PromptsGive(Given(), Now(), ps[..0], tri);
      hide Good, Later, Fresh, Sized, Spares, GivesMaybe, PromptsGive, PromptsNames, NeverMod;
      for j := 0 to |ps|
        invariant Sized() && Good(table, Given(), Now()) && Later(table, old(Now()), Now(), {})
        invariant PromptsGive(Given(), Now(), ps[..j], tri)
      {
        ghost var s := Now();
        var v := yes;
        if ps[j].text {
          LaterParts(table, old(Now()), s, {});
          Shape(table, Given(), s);
          assert ps[j] in ps;
          v := CalcMaybe(ps[j].visible);
          LaterOn(table, old(Now()), s, Now(), {}, {});
          PromptsGiveLater(table, Given(), s, Now(), {}, ps[..j], tri);
        }
        PromptGives(Given(), Now(), ps, j, tri, v);
        if ps[j].text { tri := Max(tri, v); }
      }
      assert ps[..|ps|] == ps;
    }

    /** sym_calc_visibility of a choice value. */
    method CalcChoiceVisibility(sym: nat)
      requires Sized() && Good(table, Given(), Now()) && sym < |table| && table[sym].choiceValue
      modifies this`valid, this`cells, this`chosen, this`modulesVal, this`busy, this`stale, this`looped
      ensures Sized() && Good(table, Given(), Now()) && Later(table, old(Now()), Now(), {}) && |cells| == |table|
      ensures cells[sym].visible == no ==> HiddenIn(table, Given(), Now(), sym)
      ensures cells[sym].visible != no ==> ShownIn(table, Given(), Now(), sym)
      decreases Fresh(table, Now()), 6
    {
      hide Good, Later, Fresh, Sized, Spares, PromptsGive, PromptsNames;
      var tri := AnyPrompt(sym);
      ghost var s := Now();
      Shape(table, Given(), s);
      VisibilitySet(table, Given(), s, sym, Shown(table[sym], tri, modulesVal));
      cells := cells[sym := cells[sym].(visible := Shown(table[sym], tri, modulesVal))];
      LaterOn(table, old(Now()), s, Now(), {}, {});
      SparesNone(s);
      PromptsGiveLater(table, Given(), s, Now(), {}, table[sym].props, tri);
    }

    /** sym_calc_visibility of a symbol that is no choice value. */
    method CalcVisibility(sym: nat)
      requires Sized() && Good(table, Given(), Now()) && sym < |table| && sym in busy && !table[sym].choiceValue
      modifies this`valid, this`cells, this`chosen, this`modulesVal, this`busy, this`stale, this`looped
      ensures Sized() && Good(table, Given(), Now()) && Later(table, old(Now()), Now(), {sym}) && |cells| == |table|
      ensures busy == old(busy)
      ensures VisibleSolved(Given(), Now(), sym, table[sym], cells[sym])
      ensures Timely(sym) ==> VisibilityOk(table[sym], cells[sym], modulesVal)
      decreases Fresh(table, Now()), 7
    {
      hide Good, Later, Fresh, Sized, Spares, PromptsGive, PromptsNames, VisibleSolved, HalfSolved, NeverMod;
      var tri := AnyPrompt(sym);
      ghost var s := Now();
      Shape(table, Given(), old(Now()));
      LaterCell(table, old(Now()), s, sym);
      InfoParts(table, Given(), s, sym);
      var c := cells[sym].(visible := Shown(table[sym], tri, modulesVal));
      SameValue(table[sym], cells[sym], c);
      CellSet(table, Given(), s, sym, c);
      HalfStart(Given(), s, sym, table[sym], c, tri);
      cells := cells[sym := c];
      HalfLater(table, Given(), s, Now(), {sym}, sym, table[sym], c);
      LaterSub(table, old(Now()), s, {sym});
      LaterOn(table, old(Now()), s, Now(), {sym}, {sym});
      LaterParts(table, old(Now()), Now(), {sym});
      s := Now();
      CalcSelection(sym);
      LaterOn(table, old(Now()), s, Now(), {sym}, {sym});
    }

    /** The second half of sym_calc_visibility: what selects the symbol. */
    method CalcSelection(sym: nat)
      requires Sized() && Good(table, Given(), Now()) && sym < |table| && sym in busy && !table[sym].choiceValue
      requires |cells| == |table|
      requires HalfSolved(Given(), Now(), sym, table[sym], cells[sym])
      requires Timely(sym) ==> (!table[sym].kind.Tristate? || modulesVal == no ==> cells[sym].visible != mod)
      modifies this`valid, this`cells, this`chosen, this`modulesVal, this`busy, this`stale, this`looped
      ensures Sized() && Good(table, Given(), Now()) && Later(table, old(Now()), Now(), {sym}) && |cells| == |table|
      ensures busy == old(busy)
      ensures VisibleSolved(Given(), Now(), sym, table[sym], cells[sym])
      ensures Timely(sym) ==> VisibilityOk(table[sym], cells[sym], modulesVal)
      decreases Fresh(table, Now()), 5
    {
      hide Good, Later, Fresh, Sized, Spares, PromptsGive, PromptsNames, VisibleSolved, HalfSolved, NeverMod, Gives;
      var i, tri := table[sym], no;
      ghost var s := Now();
      InfoParts(table, Given(), s, sym);
      LaterNot(table, s);
      if i.revDep.Some? { tri := CalcExpr(i.revDep.value); }
      LaterCell(table, s, Now(), sym);
      LaterParts(table, s, Now(), {});
      HalfLater(table, Given(), s, Now(), {}, sym, i, cells[sym]);
      LaterSub(table, s, Now(), {sym});
      InfoParts(table, Given(), Now(), sym);
      ghost var s1 := Now();
      var c := cells[sym].(rev := Raised(i, tri, modulesVal));
      SameValue(i, cells[sym], c);
      SameShown(Given(), s1, sym, i, cells[sym], c);
      HalfDone(Given(), s1, sym, i, c, tri);
      CellSet(table, Given(), s1, sym, c);
      cells := cells[sym := c];
      VisibleLater(table, Given(), s1, Now(), {sym}, sym, i, c);
      LaterOn(table, s, s1, Now(), {sym}, {sym});
    }

    /** sym_get_default_prop: the position of the first default that is visible. */
    method DefaultAt(sym: nat) returns (j: nat)
      requires Sized() && Good(table, Given(), Now()) && sym < |table|
      modifies this`valid, this`cells, this`chosen, this`modulesVal, this`busy, this`stale, this`looped
      ensures Sized() && Good(table, Given(), Now()) && Later(table, old(Now()), Now(), {}) && j <= |table[sym].props|
      ensures AllPassed(Given(), Now(), table[sym].props, j)
      ensures j < |table[sym].props| ==> Reached(Given(), Now(), table[sym].props[j])
      decreases Fresh(table, Now()), 5
    {
      hide Good, Later, Fresh, Sized, Spares, GivesMaybe, NeverMod, Passed, Reached, TableOk, Finished;
      InfoParts(table, Given(), Now(), sym);
      LaterNot(table, Now());
      var ps := table[sym].props;
      assert AllPassed(Given(), Now(), ps, 0);
      hide AllPassed;
      j := 0;
      while j < |ps|
        invariant j <= |ps| && Sized() && Good(table, Given(), Now()) && Later(table, old(Now()), Now(), {})
        invariant AllPassed(Given(), Now(), ps, j)
      {
        ghost var s := Now();
        var v := no;
        if ps[j].kind == Default {
          LaterParts(table, old(Now()), s, {});
          Shape(table, Given(), s);
          assert ps[j] in ps && PropIn(ps[j], |table|);
          hide PropIn;
          v := CalcMaybe(ps[j].visible);
          LaterOn(table, old(Now()), s, Now(), {}, {});
          AllPassedLater(table, Given(), s, Now(), ps, j);
        }
        OneDefault(Given(), Now(), ps, j, v);
        if v != no { return; }
        j := j + 1;
      }
    }

    /** The value of the first visible default, or n. */
    method FromDefault(sym: nat) returns (v: Tri, ghost j: nat)
      requires Sized() && Good(table, Given(), Now()) && sym < |table|
      modifies this`valid, this`cells, this`chosen, this`modulesVal, this`busy, this`stale, this`looped
      ensures Sized() && Good(table, Given(), Now()) && Later(table, old(Now()), Now(), {})
      ensures DefaultGives(Given(), Now(), table[sym].props, j, v)
      decreases Fresh(table, Now()), 6
    {
      InfoParts(table, Given(), Now(), sym);
      var ps := table[sym].props;
      hide Good, Later, Fresh, Sized, Spares, GivesMaybe, Passed, Reached, NeverMod;
      v := no;
      var n := DefaultAt(sym);
      j := n;
      if n < |ps| {
        ghost var s := Now();
        LaterParts(table, old(Now()), s, {});
        Shape(table, Given(), s);
        assert ps[n] in ps;
        v := CalcMaybe(ps[n].expr);
        LaterOn(table, old(Now()), s, Now(), {}, {});
        AllPassedLater(table, Given(), s, Now(), ps, n);
        ReachedLater(table, Given(), s, Now(), {}, ps[n]);
      }
    }

    /** The middle of sym_calc_value for a bool or tristate symbol: visibility and selection are known. */
    method NewValue(sym: nat) returns (v: Tri)
      requires Sized() && Good(table, Given(), Now()) && sym < |table| && sym in busy && Logical(table[sym].kind)
      requires !table[sym].choiceValue && Timely(sym) ==>
        |cells| == |table| && VisibilityOk(table[sym], cells[sym], modulesVal)
      modifies this`valid, this`cells, this`chosen, this`modulesVal, this`busy, this`stale, this`looped
      ensures Sized() && Good(table, Given(), Now()) && Later(table, old(Now()), Now(), {})
      ensures |cells| == |table| == |user| && busy == old(busy)
      ensures table[sym].kind.Boolean? ==> v != mod
      ensures Timely(sym) ==> Bounded(table[sym], cells[sym].(curr := v), modulesVal)
      ensures Plain(table[sym]) ==> ValueSolved(Given(), Now(), sym, table[sym], cells[sym].(curr := v), user[sym])
      ensures table[sym].choiceValue && old(cells)[sym].visible == yes ==> v == if old(Picked(sym)) then yes else no
      decreases Fresh(table, Now()), 8
    {
      InfoParts(table, Given(), Now(), sym);
      LaterNot(table, Now());
      hide Good, Later, Fresh, Spares, ValueSolved, DefaultGives, NeverMod;
      if Plain(table[sym]) {
        v := PlainValue(sym);
      } else {
        v := ChoiceValue(sym);
      }
    }

    /** The value of a symbol that has to do with no choice. */
    method PlainValue(sym: nat) returns (v: Tri)
      requires Sized() && Good(table, Given(), Now()) && sym < |table| && sym in busy && Plain(table[sym])
      requires |cells| == |table| == |user| && (Timely(sym) ==> VisibilityOk(table[sym], cells[sym], modulesVal))
      modifies this`valid, this`cells, this`chosen, this`modulesVal, this`busy, this`stale, this`looped
      ensures Sized() && Good(table, Given(), Now()) && Later(table, old(Now()), Now(), {}) && |cells| == |table|
      ensures busy == old(busy)
      ensures table[sym].kind.Boolean? ==> v != mod
      ensures Timely(sym) ==> Bounded(table[sym], cells[sym].(curr := v), modulesVal)
      ensures ValueSolved(Given(), Now(), sym, table[sym], cells[sym].(curr := v), user[sym])
      decreases Fresh(table, Now()), 7
    {
      hide Good, Later, Fresh, Sized, Spares, ValueSolved, DefaultGives, VisibilityOk, Bounded;
      LaterNot(table, Now());
      Shape(table, Given(), Now());
      var i := table[sym];
      v := no;
      ghost var j, d := 0, no;
      if Max(cells[sym].visible, cells[sym].rev) != no {
        if user[sym].Some? {
          v := user[sym].value;
        } else {
          v, j := FromDefault(sym);
          d := v;
        }
        LaterCell(table, old(Now()), Now(), sym);
        v := Max(Min(v, cells[sym].visible), cells[sym].rev);
      } else {
        v, j := FromDefault(sym);
        d := v;
        LaterCell(table, old(Now()), Now(), sym);
      }
      LaterParts(table, old(Now()), Now(), {});
      if v == mod && EffectiveBool(i, modulesVal) { v := yes; }
      assert v == Value(i, cells[sym], user[sym], d, modulesVal);
      if Timely(sym) {
        CurrentLater(table, old(Now()), Now(), {}, sym, i);
        VisibilityStays(i, cells[sym], old(modulesVal), modulesVal);
        InBounds(i, cells[sym], user[sym], d, modulesVal);
      }
      ValueGives(Given(), Now(), sym, i, cells[sym].(curr := v), user[sym], d, j);
    }

    /** The choice of a choice value has picked it. */
    ghost predicate Picked(sym: nat)
      reads this
    {
      sym < |table| && table[sym].owner < |chosen| && chosen[table[sym].owner] == Some(sym)
    }

    /** The value of a choice or a choice value. Of the values that are fully visible exactly the one that is picked is
        y, and the others are n. */
    method ChoiceValue(sym: nat) returns (v: Tri)
      requires Sized() && Good(table, Given(), Now()) && sym < |table| && sym in busy && Logical(table[sym].kind)
      requires !Plain(table[sym])
      requires |cells| == |table| == |user|
      modifies this`valid, this`cells, this`chosen, this`modulesVal, this`busy, this`stale, this`looped
      ensures Sized() && Good(table, Given(), Now()) && Later(table, old(Now()), Now(), {}) && |cells| == |table|
      ensures busy == old(busy)
      ensures table[sym].choiceValue && old(cells)[sym].visible == yes ==> v == if old(Picked(sym)) then yes else no
      ensures table[sym].kind.Boolean? ==> v != mod
      ensures Timely(sym) ==> Bounded(table[sym], cells[sym].(curr := v), modulesVal)
      decreases Fresh(table, Now()), 7
    {
      InfoParts(table, Given(), Now(), sym);
      LaterNot(table, Now());
      hide Good, Later, Fresh, Spares, DefaultGives, NeverMod;
      var i := table[sym];
      v := no;
      ghost var j;
      if i.choiceValue && cells[sym].visible == yes {
        if chosen[i.owner] == Some(sym) { v := yes; }
      } else if Max(cells[sym].visible, cells[sym].rev) != no {
        if user[sym].Some? {
          v := user[sym].value;
        } else if !i.choice {
          v, j := FromDefault(sym);
        }
        LaterCell(table, old(Now()), Now(), sym);
        v := Max(Min(v, cells[sym].visible), cells[sym].rev);
      } else if !i.choice {
        v, j := FromDefault(sym);
      }
      LaterCell(table, old(Now()), Now(), sym);
      if v == mod && (i.kind.Boolean? || (i.choiceValue && cells[sym].visible == yes) || modulesVal == no) { v := yes; }
    }

    /** One more candidate, those in `before` being hidden. */
    method Visible(v: nat, ghost before: seq<nat>) returns (seen: bool)
      requires Sized() && Good(table, Given(), Now()) && v < |table| && table[v].choiceValue
      requires AllHidden(table, Given(), Now(), before)
      modifies this`valid, this`cells, this`chosen, this`modulesVal, this`busy, this`stale, this`looped
      ensures Sized() && Good(table, Given(), Now()) && Later(table, old(Now()), Now(), {})
      ensures AllHidden(table, Given(), Now(), before)
      ensures if seen then ShownIn(table, Given(), Now(), v) else AllHidden(table, Given(), Now(), before + [v])
      decreases Fresh(table, Now()), 7
    {
      hide *;
      CalcChoiceVisibility(v);
      seen := cells[v].visible != no;
      AllHiddenLater(table, Given(), old(Now()), Now(), before);
      if !seen { AllHiddenMore(table, Given(), Now(), before, v); }
    }

    /** The first default of a choice that is visible and names a visible value. Those in `tried` are hidden, and come
        before it in the first n properties. */
    method DefaultChoice(sym: nat) returns (r: Option<nat>, ghost tried: seq<nat>, ghost n: nat)
      requires Sized() && Good(table, Given(), Now()) && sym < |table| && table[sym].choice
      modifies this`valid, this`cells, this`chosen, this`modulesVal, this`busy, this`stale, this`looped
      ensures Sized() && Good(table, Given(), Now()) && Later(table, old(Now()), Now(), {})
      ensures AllHidden(table, Given(), Now(), tried) && n <= |table[sym].props|
      ensures TargetsGive(Given(), Now(), table[sym].props[..n], tried + Maybe(r))
      ensures if r.Some? then ShownIn(table, Given(), Now(), r.value) else n == |table[sym].props|
      decreases Fresh(table, Now()), 8
    {
      InfoParts(table, Given(), Now(), sym);
      LaterNot(table, Now());
      var ps := table[sym].props;
      TargetsNone(table, Given(), Now(), ps);
      hide Good, Later, Fresh, Sized, Spares, NeverMod, AllHidden, TargetsGive, GivesMaybe, ShownIn, HiddenIn;
      tried := [];
      for j := 0 to |ps|
        invariant Sized() && Good(table, Given(), Now()) && Later(table, old(Now()), Now(), {})
        invariant AllHidden(table, Given(), Now(), tried) && TargetsGive(Given(), Now(), ps[..j], tried)
      {
        ghost var s, w := Now(), no;
        if ps[j].kind == Default {
          LaterParts(table, old(Now()), s, {});
          assert ps[j] in ps;
          var v := CalcMaybe(ps[j].visible);
          w := v;
          LaterOn(table, old(Now()), s, Now(), {}, {});
          AllHiddenLater(table, Given(), s, Now(), tried);
          TargetsLater(table, Given(), s, Now(), ps[..j], tried);
          if v != no && ps[j].target.Some? {
            TargetsMore(Given(), Now(), ps, j, tried, w);
            s := Now();
            LaterParts(table, old(Now()), s, {});
            var seen := Visible(ps[j].target.value, tried);
            LaterOn(table, old(Now()), s, Now(), {}, {});
            TargetsLater(table, Given(), s, Now(), ps[..j + 1], tried + [ps[j].target.value]);
            if seen { return ps[j].target, tried, j + 1; }
            tried := tried + [ps[j].target.value];
            continue;
          }
        }
        TargetsMore(Given(), Now(), ps, j, tried, w);
        assert tried + [] == tried;
      }
      r, n := None, |ps|;
      assert tried + [] == tried;
    }

    /** The first visible value of a choice: the first n are hidden. */
    method FirstValue(sym: nat) returns (r: Option<nat>, ghost n: nat)
      requires Sized() && Good(table, Given(), Now()) && sym < |table| && table[sym].choice
      modifies this`valid, this`cells, this`chosen, this`modulesVal, this`busy, this`stale, this`looped
      ensures Sized() && Good(table, Given(), Now()) && Later(table, old(Now()), Now(), {})
      ensures n <= |table[sym].values| && AllHidden(table, Given(), Now(), table[sym].values[..n])
      ensures if r == None then n == |table[sym].values|
        else n < |table[sym].values| && table[sym].values[n] == r.value && ShownIn(table, Given(), Now(), r.value)
      decreases Fresh(table, Now()), 8
    {
      hide *;
      Shape(table, Given(), Now());
      LaterNot(table, Now());
      AllHiddenNone(table, Given(), Now());
      var vs := table[sym].values;
      ghost var passed: seq<nat> := [];
      for j := 0 to |vs|
        invariant Sized() && Good(table, Given(), Now()) && Later(table, old(Now()), Now(), {})
        invariant AllHidden(table, Given(), Now(), passed) && passed == vs[..j]
      {
        ghost var s := Now();
        LaterParts(table, old(Now()), s, {});
        ValueIn(table, Given(), s, sym, j);
        var seen := Visible(vs[j], passed);
        LaterOn(table, old(Now()), s, Now(), {}, {});
        if seen { return Some(vs[j]), j; }
        passed := passed + [vs[j]];
      }
      r, n := None, |vs|;
    }

    lemma UserChoiceIn(sym: nat)
      requires Sized() && sym < |table|
      ensures sym < |userChoice|
      ensures userChoice[sym].Some? ==>
        userChoice[sym].value < |table| && table[userChoice[sym].value].choiceValue
    {}

    /** The value chosen by the user, else the first visible default, else the first visible value. */
    method FindChoice(sym: nat) returns (r: Option<nat>)
      requires Sized() && Good(table, Given(), Now()) && sym < |table| && table[sym].choice
      modifies this`valid, this`cells, this`chosen, this`modulesVal, this`busy, this`stale, this`looped
      ensures Sized() && Good(table, Given(), Now()) && Later(table, old(Now()), Now(), {})
      ensures sym < |userChoice| && ChoiceGives(table, Given(), Now(), table[sym], userChoice[sym], r)
      decreases Fresh(table, Now()), 9, 1
    {
      hide *;
      UserChoiceIn(sym);
      var u := userChoice[sym];
      Shape(table, Given(), Now());
      LaterNot(table, Now());
      AllHiddenNone(table, Given(), Now());
      if u.Some? {
        var seen := Visible(u.value, []);
        if seen {
          UserPicked(table, Given(), Now(), table[sym], u);
          return u;
        }
        assert [] + [u.value] == [u.value];
      }
      MaybeIs(u);
      ghost var s := Now();
      LaterParts(table, old(Now()), s, {});
      ghost var tried, n;
      r, tried, n := DefaultChoice(sym);
      LaterOn(table, old(Now()), s, Now(), {}, {});
      AllHiddenLater(table, Given(), s, Now(), Maybe(u));
      MaybeIs(r);
      if r.Some? {
        DefaultPicked(table, Given(), Now(), table[sym], u, tried, n, r.value);
      } else {
        LaterParts(table, old(Now()), Now(), {});
        assert table[sym].props[..n] == table[sym].props && tried + [] == tried;
        s := Now();
        r := LastResort(sym, u, tried);
        LaterOn(table, old(Now()), s, Now(), {}, {});
      }
      assert userChoice[sym] == u;
    }

    /** The end of sym_calc_choice, with the user's choice and what the defaults name hidden. */
    method LastResort(sym: nat, ghost u: Option<nat>, ghost tried: seq<nat>) returns (r: Option<nat>)
      requires Sized() && Good(table, Given(), Now()) && sym < |table| && table[sym].choice
      requires AllHidden(table, Given(), Now(), Maybe(u)) && AllHidden(table, Given(), Now(), tried)
      requires TargetsGive(Given(), Now(), table[sym].props, tried)
      modifies this`valid, this`cells, this`chosen, this`modulesVal, this`busy, this`stale, this`looped
      ensures Sized() && Good(table, Given(), Now()) && Later(table, old(Now()), Now(), {})
      ensures ChoiceGives(table, Given(), Now(), table[sym], u, r)
      decreases Fresh(table, Now()), 9, 0
    {
      hide *;
      ghost var s := Now();
      ghost var n;
      r, n := FirstValue(sym);
      AllHiddenLater(table, Given(), s, Now(), Maybe(u));
      AllHiddenLater(table, Given(), s, Now(), tried);
      TargetsLater(table, Given(), s, Now(), table[sym].props, tried);
      ValuePicked(table, Given(), Now(), table[sym], u, tried, n, r);
    }

    /** sym_calc_choice */
    method CalcChoice(sym: nat) returns (r: Option<nat>)
      requires Sized() && Good(table, Given(), Now()) && sym < |table| && table[sym].choice
      modifies this`valid, this`cells, this`chosen, this`modulesVal, this`busy, this`stale, this`looped
      ensures Sized() && Good(table, Given(), Now()) && Later(table, old(Now()), Now(), {sym}) && busy == old(busy)
      ensures |cells| == |table|
      ensures sym < |userChoice| && ChoiceGives(table, Given(), Now(), table[sym], userChoice[sym], r)
      decreases Fresh(table, Now()), 9, 2
    {
      hide Good, Later, Fresh, Spares;
      r := FindChoice(sym);
      ghost var s := Now();
      LaterParts(table, old(Now()), s, {});
      assert busy == old(busy);
      LaterSub(table, old(Now()), s, {sym});
      if r == None {
        ChoiceReset(table, Given(), s, sym);
        looped := true;
        cells := cells[sym := cells[sym].(curr := no)];
        LaterOn(table, old(Now()), s, Now(), {sym}, {sym});
      }
    }

    /** sym_validate_range calculates the bounds of the first visible range; comparing the numbers is left open. */
    method ValidateRange(sym: nat)
      requires Sized() && Good(table, Given(), Now()) && sym < |table|
      modifies this`valid, this`cells, this`chosen, this`modulesVal, this`busy, this`stale, this`looped
      ensures Sized() && Good(table, Given(), Now()) && Later(table, old(Now()), Now(), {})
      decreases Fresh(table, Now()), 5
    {
      InfoParts(table, Given(), Now(), sym);
      LaterNot(table, Now());
      var ps := table[sym].props;
      hide Good, Later, Fresh, Sized, Spares, NeverMod;
      for n := 0 to |ps|
        invariant Sized() && Good(table, Given(), Now()) && Later(table, old(Now()), Now(), {})
      {
        if ps[n].kind == Range {
          ghost var s := Now();
          LaterParts(table, old(Now()), s, {});
          assert ps[n] in ps;
          var v := CalcMaybe(ps[n].visible);
          LaterOn(table, old(Now()), s, Now(), {}, {});
          if v != no {
            s := Now();
            LaterParts(table, old(Now()), s, {});
            CalcValue(ps[n].low);
            LaterOn(table, old(Now()), s, Now(), {}, {});
            var above: bool := *;
            if above {
              s := Now();
              LaterParts(table, old(Now()), s, {});
              CalcValue(ps[n].high);
              LaterOn(table, old(Now()), s, Now(), {}, {});
            }
            return;
          }
        }
      }
    }

    /** The middle of sym_calc_value for a symbol with a text: the symbol that a default names is calculated. */
    method NewText(sym: nat)
      requires Sized() && Good(table, Given(), Now()) && sym < |table|
      modifies this`valid, this`cells, this`chosen, this`modulesVal, this`busy, this`stale, this`looped
      ensures Sized() && Good(table, Given(), Now()) && Later(table, old(Now()), Now(), {})
      decreases Fresh(table, Now()), 6
    {
      InfoParts(table, Given(), Now(), sym);
      LaterNot(table, Now());
      var ps := table[sym].props;
      hide Good, Later, Fresh, Sized, Spares, NeverMod, AllPassed, Reached;
      if cells[sym].visible != no && user[sym].Some? { return; }
      var n := DefaultAt(sym);
      if n < |ps| {
        assert ps[n] in ps;
        if ps[n].target.Some? {
          ghost var s := Now();
          LaterParts(table, old(Now()), s, {});
          CalcValue(ps[n].target.value);
          LaterOn(table, old(Now()), s, Now(), {}, {});
        }
      }
    }

    method Set(sym: nat, v: Tri)
      requires Good(table, Given(), Now()) && sym < |table| && sym in busy && (table[sym].kind.Boolean? ==> v != mod)
      modifies this`cells
      ensures Good(table, Given(), Now()) && Later(table, old(Now()), Now(), {sym})
      ensures |cells| == |old(cells)| == |table| && cells == old(cells)[sym := old(cells)[sym].(curr := v)]
    {
      CellSet(table, Given(), Now(), sym, cells[sym].(curr := v));
      cells := cells[sym := cells[sym].(curr := v)];
    }

    /** From known visibility to the new value of a bool or tristate symbol. */
    method Settle(sym: nat)
      requires Sized() && Good(table, Given(), Now()) && sym < |table| && sym in busy && Logical(table[sym].kind)
      requires |cells| == |table|
      requires !table[sym].choiceValue ==>
        VisibleSolved(Given(), Now(), sym, table[sym], cells[sym])
          && (Timely(sym) ==> VisibilityOk(table[sym], cells[sym], modulesVal))
      modifies this`valid, this`cells, this`chosen, this`modulesVal, this`busy, this`stale, this`looped
      ensures Sized() && Good(table, Given(), Now()) && Later(table, old(Now()), Now(), {sym})
      ensures busy == old(busy) - {sym} && |cells| == |table|
      ensures table[sym].choice && cells[sym].curr == yes ==>
        ChoiceGives(table, Given(), Now(), table[sym], userChoice[sym], chosen[sym])
      decreases Fresh(table, Now()), 10
    {
      hide Good, Later, Fresh, Spares, VisibleSolved, VisibilityOk, ValueSolved, Bounded, NeverMod, ChoiceGives;
      var i := table[sym];
      InfoParts(table, Given(), Now(), sym);
      Set(sym, no);
      chosen := chosen[sym := None];
      SameButValue(Given(), old(Now()), sym, i, old(cells)[sym], no);
      ghost var s := Now();
      if !i.choiceValue {
        VisibleLater(table, Given(), old(Now()), s, {sym}, sym, i, cells[sym]);
        LaterParts(table, old(Now()), s, {sym});
        if Timely(sym) { SameVisibility(i, old(cells)[sym], cells[sym], modulesVal); }
      }
      LaterParts(table, old(Now()), s, {sym});
      InfoParts(table, Given(), s, sym);
      var v := NewValue(sym);
      LaterCell(table, s, Now(), sym);
      if !i.choiceValue { VisibleLater(table, Given(), s, Now(), {}, sym, i, cells[sym]); }
      LaterSub(table, s, Now(), {sym});
      LaterOn(table, old(Now()), s, Now(), {sym}, {sym});
      s := Now();
      LaterParts(table, old(Now()), s, {sym});
      SettleOn(sym, v);
      LaterOn(table, old(Now()), s, Now(), {sym}, {sym});
    }

    /** The new value is stored and the symbol is finished; a choice that is y then picks its value. */
    method SettleOn(sym: nat, v: Tri)
      requires Sized() && Good(table, Given(), Now()) && sym < |table| && sym in busy && |cells| == |table| == |user|
      requires table[sym].kind.Boolean? ==> v != mod
      requires Timely(sym) ==> Bounded(table[sym], cells[sym].(curr := v), modulesVal)
      requires Plain(table[sym]) ==> VisibleSolved(Given(), Now(), sym, table[sym], cells[sym])
      requires Plain(table[sym]) ==> ValueSolved(Given(), Now(), sym, table[sym], cells[sym].(curr := v), user[sym])
      modifies this`valid, this`cells, this`chosen, this`modulesVal, this`busy, this`stale, this`looped
      ensures Sized() && Good(table, Given(), Now()) && Later(table, old(Now()), Now(), {sym})
      ensures busy == old(busy) - {sym} && |cells| == |table|
      ensures table[sym].choice && cells[sym].curr == yes ==>
        ChoiceGives(table, Given(), Now(), table[sym], userChoice[sym], chosen[sym])
      decreases Fresh(table, Now()), 10, 0
    {
      hide Good, Later, Fresh, Spares, VisibleSolved, ValueSolved, Bounded, NeverMod, ChoiceGives;
      var i := table[sym];
      InfoParts(table, Given(), Now(), sym);
      SameButValue(Given(), Now(), sym, i, cells[sym], v);
      ghost var s := Now();
      Set(sym, v);
      SolvedLater(table, Given(), s, Now(), {sym}, sym, i, cells[sym], user[sym]);
      Left(table, Given(), Now(), sym);
      LaterParts(table, s, Now(), {sym});
      ghost var s1 := Now();
      busy := busy - {sym};
      LaterOn(table, s, s1, Now(), {sym}, {sym});
      LaterParts(table, s, Now(), {sym});
      if i.choice && v == yes {
        s1 := Now();
        var r := CalcChoice(sym);
        LaterOn(table, s, s1, Now(), {sym}, {sym});
        chosen := chosen[sym := r];
      }
    }

    /** sym_calc_value for a symbol whose value is a text, or that has no type. */
    method SettleText(sym: nat)
      requires Sized() && Good(table, Given(), Now()) && sym < |table| && sym in busy && !Logical(table[sym].kind)
      modifies this`valid, this`cells, this`chosen, this`modulesVal, this`busy, this`stale, this`looped
      ensures Sized() && Good(table, Given(), Now()) && Later(table, old(Now()), Now(), {sym})
      ensures busy == old(busy) - {sym} && |cells| == |table|
      decreases Fresh(table, Now()), 10
    {
      hide Good, Later, Fresh, Spares, NeverMod, Sized, Bounded;
      Set(sym, no);
      ghost var s := Now();
      LaterParts(table, old(Now()), s, {sym});
      CalcText(sym);
      LaterCell(table, s, Now(), sym);
      LaterSub(table, s, Now(), {sym});
      LaterOn(table, old(Now()), s, Now(), {sym}, {sym});
      s := Now();
      TextLeft(table, Given(), s, sym);
      busy := busy - {sym};
      LaterOn(table, old(Now()), s, Now(), {sym}, {sym});
    }

    /** The text and, for a number, its range. */
    method CalcText(sym: nat)
      requires Sized() && Good(table, Given(), Now()) && sym < |table|
      modifies this`valid, this`cells, this`chosen, this`modulesVal, this`busy, this`stale, this`looped
      ensures Sized() && Good(table, Given(), Now()) && Later(table, old(Now()), Now(), {}) && |cells| == |table|
      decreases Fresh(table, Now()), 7
    {
      hide Good, Later, Fresh, Spares, NeverMod, Sized;
      var i := table[sym];
      Shape(table, Given(), Now());
      LaterNot(table, Now());
      if i.kind.Unknown? || i.kind.Other? { return; }
      NewText(sym);
      ghost var s := Now();
      LaterParts(table, old(Now()), s, {});
      if i.kind.Int? || i.kind.Hex? {
        ValidateRange(sym);
        LaterOn(table, old(Now()), s, Now(), {}, {});
        LaterParts(table, old(Now()), Now(), {});
      }
    }

    /** sym_calc_value from the point where the flag is set to where the new value is compared with the old. */
    method Calculate(sym: nat)
      requires Sized() && Good(table, Given(), Now()) && sym < |table| && sym in busy
      modifies this`valid, this`cells, this`chosen, this`modulesVal, this`busy, this`stale, this`looped
      ensures Sized() && Good(table, Given(), Now()) && Later(table, old(Now()), Now(), {sym})
      ensures busy == old(busy) - {sym} && |cells| == |table|
      decreases Fresh(table, Now()), 11
    {
      hide Good, Later, Fresh, Sized, Spares, VisibleSolved, VisibilityOk;
      var i := table[sym];
      Shape(table, Given(), Now());
      LaterNot(table, Now());
      LaterSub(table, Now(), Now(), {sym});
      ghost var s := Now();
      if !i.kind.Unknown? && !i.kind.Other? {
        if i.choiceValue {
          CalcChoiceVisibility(sym);
          LaterCell(table, s, Now(), sym);
          LaterSub(table, s, Now(), {sym});
        } else {
          CalcVisibility(sym);
        }
      }
      s := Now();
      LaterParts(table, old(Now()), s, {sym});
      if Logical(i.kind) { Settle(sym); } else { SettleText(sym); }
      LaterOn(table, old(Now()), s, Now(), {sym}, {sym});
    }

    /** sym_calc_value */
    method CalcValue(sym: nat)
      requires Sized() && Good(table, Given(), Now()) && sym < |table|
      modifies this`valid, this`cells, this`chosen, this`modulesVal, this`busy, this`stale, this`looped
      ensures Sized() && Good(table, Given(), Now()) && Later(table, old(Now()), Now(), {}) && |cells| == |table|
      ensures sym !in old(busy) ==> sym in Finished(Now())
      ensures !looped ==> sym in Finished(Now())
      ensures sym in Finished(Now()) && Timely(sym) ==> Bounded(table[sym], cells[sym], modulesVal)
      ensures sym !in old(valid) && modules in Finished(old(Now())) ==> Timely(sym)
      decreases Fresh(table, Now()), 0
    {
      hide Good, Later, Fresh, Spares, Bounded;
      Shape(table, Given(), Now());
      Finishes(table, Given(), Now(), sym);
      LaterNot(table, Now());
      if sym in valid {
        if sym in busy {
          LoopSet(table, Given(), Now());
          looped := true;
        }
        Finishes(table, Given(), Now(), sym);
        return;
      }
      Entered(table, Given(), Now(), sym);
      var before := cells[sym].curr;
      valid, busy := valid + {sym}, busy + {sym};
      ghost var s := Now();
      Calculate(sym);
      LaterParts(table, s, Now(), {sym});
      LaterOn(table, old(Now()), s, Now(), {sym}, {sym});
      var changed: bool := *;
      if sym == modules && !table[sym].kind.Unknown? && !table[sym].kind.Other?
        && (changed || cells[sym].curr != before)
      {
        s := Now();
        ModulesSet(table, Given(), s, cells[sym].curr);
        stale := if cells[sym].curr != modulesVal then valid else stale;
        modulesVal := cells[sym].curr;
        LaterOn(table, old(Now()), s, Now(), {sym}, {sym});
      }
      LaterWhole(table, old(Now()), Now(), sym);
      LaterParts(table, old(Now()), Now(), {});
      Finishes(table, Given(), Now(), sym);
    }

    /** sym_clear_all_valid: a new round of calculations begins with the modules symbol. */
    method ClearAllValid()
      requires Sized() && Good(table, Given(), Cleared(Now())) && busy == {}
      modifies this`valid, this`cells, this`chosen, this`modulesVal, this`busy, this`stale, this`looped
      ensures Sized() && Good(table, Given(), Now()) && busy == {} && modules in Finished(Now())
    {
      valid, stale, looped := {}, {}, false;
      ghost var s := Now();
      CalcValue(modules);
      LaterBusy(table, s, Now());
    }

    /** sym_set_tristate_value: refused unless the symbol already has the value or the value is within its range. The
        symbols are calculated again only if the value is a new one. */
    method SetTristate(sym: nat, val: Tri) returns (ok: bool)
      requires Sized() && Good(table, Given(), Now()) && busy == {} && sym < |table| && |cells| == |table|
      modifies this
      ensures Sized() && Good(table, Given(), Now()) && busy == {} && |user| == |table| && |cells| == |table|
      ensures ok == (old(cells)[sym].curr == val || Within(table[sym], old(cells)[sym], old(modulesVal), val))
      ensures !ok ==> user == old(user) && userChoice == old(userChoice)
      ensures ok ==> user[sym] == Some(val) && Picks(table[sym], sym, val, old(userChoice), userChoice)
      ensures ok ==> Marks(table, sym, val, old(cells), old(user), user)
      ensures !ok || old(cells)[sym].curr == val ==> Now() == old(Now())
    {
      Shape(table, Given(), Now());
      hide Good, Within, Sized, MarksChoice;
      var before := cells[sym].curr;
      ok := before == val || Within(table[sym], cells[sym], modulesVal, val);
      if !ok { return; }
      if table[sym].choiceValue && val == yes { MarkChoice(sym); }
      assert |user| == |table|;
      ghost var k := Given();
      user := user[sym := Some(val)];
      if before != val {
        ClearedIsGood(table, k, Given(), Now());
        ClearAllValid();
      } else {
        SameValueIsGood(table, k, Given(), Now(), sym, val);
      }
    }

    /** The choice remembers the value, and it and its visible values count as set by the user; what a value not set
        before counts as is left open. */
    method MarkChoice(sym: nat)
      requires Sized() && Good(table, Given(), Now()) && sym < |table| && table[sym].choiceValue
      requires |cells| == |table| == |user|
      modifies this`user, this`userChoice
      ensures Sized() && Good(table, Given(), Now()) && |user| == |table|
      ensures userChoice == old(userChoice)[table[sym].owner := Some(sym)]
      ensures MarksChoice(table, sym, cells, old(user), user)
    {
      InfoParts(table, Given(), Now(), sym);
      var owner := table[sym].owner;
      userChoice := userChoice[owner := Some(sym)];
      MarkUser(owner);
      InfoParts(table, Given(), Now(), owner);
      hide Good, TableOk;
      ghost var u := user;
      MarkVisible(table[owner].values);
      assert user[owner].Some? by { assert Keeps(u, user, set v | v in table[owner].values); }
    }

    method MarkVisible(vs: seq<nat>)
      requires Good(table, Given(), Now()) && |cells| == |table| == |user|
      requires forall v :: v in vs ==> v < |table| && table[v].choiceValue
      modifies this`user
      ensures Good(table, Given(), Now()) && |user| == |table| && Keeps(old(user), user, set v | v in vs)
      ensures forall v :: v in vs && cells[v].visible != no ==> user[v].Some?
    {
      hide Good;
      for n := 0 to |vs|
        invariant Good(table, Given(), Now()) && |user| == |table| && Keeps(old(user), user, set v | v in vs)
        invariant forall v :: v in vs && v in vs[..n] && cells[v].visible != no ==> user[v].Some?
      {
        ghost var before := user;
        assert vs[n] in vs && vs[..n + 1] == vs[..n] + [vs[n]];
        if cells[vs[n]].visible != no {
          MarkUser(vs[n]);
          assert Keeps(before, user, {vs[n]});
        }
      }
      assert vs[..|vs|] == vs;
    }

    /** Sets the flag of a choice or choice value. */
    method MarkUser(u: nat)
      requires u < |table| && |user| == |table| && Good(table, Given(), Now()) && !Plain(table[u])
      modifies this`user
      ensures Good(table, Given(), Now()) && |user| == |table| && user[u].Some? && Keeps(old(user), user, {u})
    {
      var tri: Tri := *;
      ghost var before := Given();
      if user[u].None? { user := user[u := Some(tri)]; }
      hide TableOk, Bounded, NeverMod;
      OtherUserIsGood(table, before, Given(), Now(), u);
    }

    /** Everything a front end does with the symbols: ask for values, set values, load a configuration, start over. */
    method Session(actions: seq<Action>)
      requires Sized() && Good(table, Given(), Now()) && busy == {}
      modifies this
      ensures Sized() && Good(table, Given(), Now()) && busy == {}
    {
      for n := 0 to |actions|
        invariant Sized() && Good(table, Given(), Now()) && busy == {}
      {
        Shape(table, Given(), Now());
        hide Good;
        match actions[n]
        case Ask(sym) =>
          if sym < |table| {
            ghost var s := Now();
            CalcValue(sym);
            LaterBusy(table, s, Now());
          }
        case Choose(sym, val) =>
          if sym < |table| { var ok := SetTristate(sym, val); }
        case Load(values, choices) =>
          if |values| == |table| && ChoicesOk(table, choices) {
            ClearedIsGood(table, Given(), Inputs(texts, values), Now());
            user, userChoice := values, choices;
            ClearAllValid();
          }
        case Restart =>
          ClearedIsGood(table, Given(), Given(), Now());
          ClearAllValid();
      }
    }
  }

  /** What is remembered of the user's choices are choice values. */
  predicate ChoicesOk(t: Table, choices: seq<Option<nat>>) {
    && |choices| == |t|
    && forall u: nat :: u < |t| && choices[u].Some? ==> choices[u].value < |t| && t[choices[u].value].choiceValue
  }

  datatype Action = Ask(sym: nat) | Choose(sym: nat, val: Tri)
    | Load(values: seq<Option<Tri>>, choices: seq<Option<nat>>) | Restart

  /** Of the user values only those in x may be new, and none that was there is changed. */
  ghost predicate Keeps(user: seq<Option<Tri>>, user': seq<Option<Tri>>, x: set<nat>) {
    |user'| == |user| && forall v: nat :: v < |user| && (v !in x || user[v].Some?) ==> user'[v] == user[v]
  }

  /** The choice of sym and its visible values count as set by the user. */
  ghost predicate MarksChoice(t: Table, sym: nat, cells: seq<Cell>, user: seq<Option<Tri>>, user': seq<Option<Tri>>)
    requires TableOk(t) && sym < |t| == |cells| == |user'|
  {
    var i := t[t[sym].owner];
    && Keeps(user, user', {t[sym].owner} + set v | v in i.values) && user'[t[sym].owner].Some?
    && forall v :: v in i.values && cells[v].visible != no ==> user'[v].Some?
  }

  ghost predicate Marks(t: Table, sym: nat, val: Tri, cells: seq<Cell>, user: seq<Option<Tri>>, user': seq<Option<Tri>>)
    requires sym < |t|
  {
    exists mid: seq<Option<Tri>> :: |mid| == |t| == |cells| && user' == mid[sym := Some(val)]
      && if t[sym].choiceValue && val == yes then TableOk(t) && MarksChoice(t, sym, cells, user, mid) else mid == user
  }

  /** A choice value set to y is the user's choice. */
  ghost predicate Picks(i: Info, sym: nat, val: Tri, choices: seq<Option<nat>>, choices': seq<Option<nat>>) {
    if i.choiceValue && val == yes then i.owner < |choices| && choices' == choices[i.owner := Some(sym)]
      else choices' == choices
  }

  /** sym_tristate_within_range */
  predicate Within(i: Info, c: Cell, modules: Tri, val: Tri) {
    var boolean := i.kind.Boolean? || (i.kind.Tristate? && ((i.choiceValue && c.visible == yes) || modules == no));
    && c.visible != no && Logical(i.kind) && !(boolean && val == mod) && c.visible > c.rev
    && if i.choiceValue && c.visible == yes then val == yes else c.rev <= val <= c.visible
  }

  /** A value within range is the value the symbol gets, as long as visibility and selection stay. */
  lemma SetSticks(i: Info, c: Cell, modules: Tri, val: Tri, default: Tri)
    requires Plain(i) && Within(i, c, modules, val)
    ensures Value(i, c, Some(val), default, modules) == val
  {}

  function Cleared(s: State): State { s.(valid := {}, stale := {}, looped := false) }

  /** All flags cleared, any user values will do. */
  lemma ClearedIsGood(t: Table, k: Inputs, k': Inputs, s: State)
    requires Good(t, k, s) && |k'.user| == |t| && s.busy == {}
    ensures Good(t, k', Cleared(s))
  {
    hide TableOk, NeverMod, Bounded, Solved;
  }

  /** A text is neither bounded nor subject to the equations. */
  lemma TextLeft(t: Table, k: Inputs, s: State, sym: nat)
    requires Good(t, k, s) && sym < |t| && sym in s.busy && !Logical(t[sym].kind)
    ensures Good(t, k, Leaving(s, sym)) && Later(t, s, Leaving(s, sym), {sym}) && |s.cells| == |t|
  {
    Left(t, k, s, sym);
  }

  lemma Finishes(t: Table, k: Inputs, s: State, u: nat)
    requires Good(t, k, s) && u < |t|
    ensures |s.cells| == |t| && s.stale <= s.valid
    ensures u in Finished(s) && Current(s, u, t[u]) ==> Bounded(t[u], s.cells[u], s.modulesVal)
  {}

  lemma LaterBusy(t: Table, s: State, s': State)
    requires Later(t, s, s', {}) && s.busy == {}
    ensures s'.busy == {}
  {
    assert forall u :: u in s'.busy <==> u in s.busy;
  }

  /** Setting a symbol to the value it has: the equations still hold, so nothing needs to be calculated again. */
  lemma SameValueIsGood(t: Table, k: Inputs, k': Inputs, s: State, sym: nat, val: Tri)
    requires Good(t, k, s) && sym < |t| && |s.cells| == |k.user| == |t| && s.cells[sym].curr == val
    requires k' == k.(user := k.user[sym := Some(val)])
    ensures Good(t, k', s)
  {
    hide TableOk, NeverMod, Bounded, Solved;
    forall u: nat | u < |t| && u in Finished(s) ensures Solved(k', s, u, t[u], s.cells[u], k'.user[u]) {
      assert Solved(k, s, u, t[u], s.cells[u], k.user[u]);
      SolvedSame(k, k', s, s, u, t[u], s.cells[u], k.user[u]);
      if u == sym {
        assert NeverMod(t[u], s.cells[u]) && (Current(s, u, t[u]) ==> Bounded(t[u], s.cells[u], s.modulesVal));
        SameValueSolved(k', s, u, t[u], s.cells[u], k.user[u]);
      }
    }
  }

  /** A choice or choice value has no equation for a user value to enter. */
  lemma OtherUserIsGood(t: Table, k: Inputs, k': Inputs, s: State, u: nat)
    requires Good(t, k, s) && u < |t| && !Plain(t[u]) && |k.user| == |k'.user| == |t| && k'.texts == k.texts
    requires forall v: nat :: v < |t| && v != u ==> k'.user[v] == k.user[v]
    ensures Good(t, k', s)
  {
    hide TableOk, NeverMod, Bounded, VisibleSolved, ValueSolved;
    forall v: nat | v < |t| && v in Finished(s) ensures Solved(k', s, v, t[v], s.cells[v], k'.user[v]) {
      assert Solved(k, s, v, t[v], s.cells[v], k.user[v]);
      SolvedSame(k, k', s, s, v, t[v], s.cells[v], k.user[v]);
    }
  }

  /** The value a symbol has is one it would get if the user asked for it. */
  lemma SameValueSolved(k: Inputs, s: State, u: nat, i: Info, c: Cell, user: Option<Tri>)
    requires Solved(k, s, u, i, c, user) && NeverMod(i, c) && (Current(s, u, i) ==> Bounded(i, c, s.modulesVal))
    ensures Solved(k, s, u, i, c, Some(c.curr))
  {
    hide VisibleSolved, DefaultGives;
    if Plain(i) && Current(s, u, i) && !s.looped {
      var d: Tri :| c.curr == Value(i, c, user, d, s.modulesVal)
        && (NeedsDefault(c, user) ==> exists j: nat :: DefaultGives(k, s, i.props, j, d));
      assert c.curr == Value(i, c, Some(c.curr), d, s.modulesVal);
    }
  }

  /** From the start, whatever is asked, set and loaded: the state is good. */
  method Configure(t: Table, modules: nat, texts: nat -> string, actions: seq<Action>) returns (s: Symbols)
    requires TableOk(t) && modules < |t|
    ensures s.table == t && s.Sized() && Good(t, s.Given(), s.Now())
    ensures |s.cells| == |t| && forall u: nat :: u < |t| && t[u].kind.Boolean? ==> s.cells[u].curr != mod
  {
    s := new Symbols(t, modules, texts);
    s.Session(actions);
  }

  /** No default before position j is visible. */
  ghost predicate AllPassed(k: Inputs, s: State, ps: seq<Prop>, j: nat) {
    j <= |ps| && forall n :: 0 <= n < j ==> Passed(k, s, ps[n])
  }

  lemma AllPassedLater(t: Table, k: Inputs, s: State, s': State, ps: seq<Prop>, j: nat)
    requires Later(t, s, s', {}) && Spares(s, {}) && AllPassed(k, s, ps, j)
    ensures AllPassed(k, s', ps, j)
  {
    hide Later, Spares, Passed;
    forall n | 0 <= n < j ensures Passed(k, s', ps[n]) { PassedLater(t, k, s, s', {}, ps[n]); }
  }

  lemma OneDefault(k: Inputs, s: State, ps: seq<Prop>, j: nat, v: Tri)
    requires j < |ps| && AllPassed(k, s, ps, j)
    requires if ps[j].kind == Default then GivesMaybe(k, s, ps[j].visible, v) else v == no
    ensures if v == no then AllPassed(k, s, ps, j + 1) else Reached(k, s, ps[j])
  {
    hide GivesMaybe;
  }

  lemma SameVisibility(i: Info, c: Cell, c': Cell, modules: Tri)
    requires c' == c.(curr := c'.curr) && VisibilityOk(i, c, modules)
    ensures VisibilityOk(i, c', modules)
  {}

  lemma SameValue(i: Info, c: Cell, c': Cell)
    requires NeverMod(i, c) && c'.curr == c.curr
    ensures NeverMod(i, c')
  {}

  lemma SameShown(k: Inputs, s: State, u: nat, i: Info, c: Cell, c': Cell)
    requires HalfSolved(k, s, u, i, c) && c'.visible == c.visible
    ensures HalfSolved(k, s, u, i, c')
  {}

  lemma LaterSub(t: Table, s: State, s': State, x: set<nat>)
    requires Later(t, s, s', {})
    ensures Later(t, s, s', x)
  {}

  /** When no calculation has met a symbol under calculation, the finished symbols solve the equations: visibility,
      selection and value are what the expressions say of the values. Tristate symbols begun before modules_val took
      its value are excepted. */
  lemma Equations(t: Table, k: Inputs, s: State, u: nat)
    requires Good(t, k, s) && u < |t| && u in Finished(s) && Plain(t[u]) && Current(s, u, t[u]) && !s.looped
    ensures var env, c := EnvOf(k, s), s.cells[u];
      && c.visible == Shown(t[u], PromptsValue(t[u].props, env), s.modulesVal)
      && c.rev == Raised(t[u], RevValue(t[u].revDep, env), s.modulesVal)
      && c.curr == Value(t[u], c, k.user[u], DefaultValue(t[u].props, env), s.modulesVal)
  {
    var c := s.cells[u];
    assert Solved(k, s, u, t[u], c, k.user[u]);
    var d: Tri :| c.curr == Value(t[u], c, k.user[u], d, s.modulesVal)
      && (NeedsDefault(c, k.user[u]) ==> exists j: nat :: DefaultGives(k, s, t[u].props, j, d));
    if NeedsDefault(c, k.user[u]) {
      var j: nat :| DefaultGives(k, s, t[u].props, j, d);
      DefaultIsFirst(k, s, t[u].props, j, d);
    }
  }
}
