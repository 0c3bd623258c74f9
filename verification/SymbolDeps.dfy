/** The recursive-dependency check of symbol.c. */
module SymbolDeps {
  import opened Common

  /** An expression as far as the check looks at it; `Absent` is a null pointer, `Other` any kind of node that the
      check does not know. */
  datatype Dep = Absent | Two(l: Dep, r: Dep) | Negated(e: Dep) | Compare(left: nat, right: nat) | Leaf(sym: nat)
    | Other

  datatype Kind = Prompt | Comment | Menu | Default | Choice | Select | Range

  datatype Prop = Prop(kind: Kind, visible: Dep, expr: Dep)

  datatype Symbol = Symbol(choice: bool, revDep: Dep, props: seq<Prop>)

  function Names(d: Dep): set<nat> {
    match d
    case Absent => {}
    case Two(l, r) => Names(l) + Names(r)
    case Negated(e) => Names(e)
    case Compare(left, right) => {left, right}
    case Leaf(sym) => {sym}
    case Other => {}
  }

  /** What one property adds to the dependencies of its symbol. */
  function PropNames(p: Prop, choice: bool): set<nat> {
    if p.kind == Choice || p.kind == Select then {}
    else Names(p.visible) + if p.kind == Default && !choice then Names(p.expr) else {}
  }

  function PropsNames(ps: seq<Prop>, choice: bool): set<nat> {
    if ps == [] then {} else PropsNames(ps[..|ps| - 1], choice) + PropNames(ps[|ps| - 1], choice)
  }

  /** The symbols on which a symbol depends. */
  function Walked(s: Symbol): set<nat> { Names(s.revDep) + PropsNames(s.props, s.choice) }

  type Table = seq<Symbol>

  ghost predicate Closed(t: Table) { forall u: nat, v :: u < |t| && v in Walked(t[u]) ==> v < |t| }

  ghost predicate Edge(t: Table, u: nat, v: nat) { u < |t| && v in Walked(t[u]) }

  /** Each name in the list depends on the one before it. */
  ghost predicate Chain(t: Table, w: seq<nat>) { forall i :: 0 <= i < |w| - 1 ==> Edge(t, w[i + 1], w[i]) }

  ghost predicate Cycle(t: Table, w: seq<nat>) { |w| >= 2 && Chain(t, w) && w[0] == w[|w| - 1] }

  /** Every symbol in the list comes after all those on which it depends. */
  ghost predicate Settled(t: Table, order: seq<nat>) {
    Distinct(order) && forall i :: 0 <= i < |order| ==> order[i] < |t| && forall v ::
      v in Walked(t[order[i]]) ==> v in order[..i]
  }

  lemma SettledMore(t: Table, order: seq<nat>, u: nat)
    requires Settled(t, order) && u < |t| && u !in order && forall v :: v in Walked(t[u]) ==> v in order
    ensures Settled(t, order + [u])
  {
    var more := order + [u];
    forall i | 0 <= i < |more| ensures more[i] < |t| && forall v :: v in Walked(t[more[i]]) ==> v in more[..i] {
      assert more[..i] == order[..i];
    }
  }

  /** Going back along dependencies in a settled list never returns. */
  lemma {:induction false} NoReturn(t: Table, order: seq<nat>, w: seq<nat>, k: nat)
    requires Settled(t, order) && k < |order| && |w| >= 2 && Chain(t, w) && w[|w| - 1] == order[k]
    ensures w[0] in order[..k]
    decreases |w|
  {
    var n := |w| - 1;
    assert Edge(t, w[n], w[n - 1]);
    assert w[n - 1] in order[..k];
    var j :| 0 <= j < k && order[j] == w[n - 1];
    if n >= 2 {
      assert Chain(t, w[..n]);
      NoReturn(t, order, w[..n], j);
      assert order[..j] <= order[..k];
    }
  }

  lemma NoCycle(t: Table, order: seq<nat>, w: seq<nat>)
    requires Settled(t, order) && Cycle(t, w)
    ensures w[0] !in order
  {
    forall k | 0 <= k < |order| ensures order[k] != w[0] {
      if order[k] == w[0] { NoReturn(t, order, w, k); }
    }
  }

  /** The flags, the warnings printed and the one being printed; all symbols entered, and those left again. */
  datatype Marks = Marks(check: set<nat>, checked: set<nat>, warnings: seq<seq<nat>>, chain: seq<nat>,
                         entered: seq<nat>, order: seq<nat>)

  /** `path` are the symbols being checked, each depending on the next. */
  ghost predicate PathOk(t: Table, check: set<nat>, path: seq<nat>) {
    && Distinct(path) && (forall u :: u in check <==> u in path)
    && forall i :: 0 <= i < |path| - 1 ==> Edge(t, path[i], path[i + 1])
  }

  /** Each symbol flagged has been entered once. */
  ghost predicate EnteredOk(t: Table, checked: set<nat>, entered: seq<nat>) {
    Distinct(entered) && forall u :: (u in entered <==> u in checked) && (u in checked ==> u < |t|)
  }

  ghost predicate WarningsOk(t: Table, warnings: seq<seq<nat>>) { forall w :: w in warnings ==> Cycle(t, w) }

  /** As long as there is no warning, the symbols left are settled. */
  ghost predicate OrderOk(t: Table, m: Marks) {
    m.warnings == [] && m.chain == [] ==>
      Settled(t, m.order) && forall u :: u in m.order <==> u in m.checked && u !in m.check
  }

  ghost predicate Ok(t: Table, m: Marks, path: seq<nat>) {
    PathOk(t, m.check, path) && m.check <= m.checked && EnteredOk(t, m.checked, m.entered) && WarningsOk(t, m.warnings)
      && OrderOk(t, m)
  }

  /** How many symbols have not been entered. */
  ghost function Fresh(t: Table, m: Marks): nat { |Ids(|t|) - m.checked| }

  /** What a call leaves unchanged, and what it only adds to. */
  ghost predicate Grown(t: Table, m: Marks, m': Marks) {
    && m.checked <= m'.checked && m'.check == m.check && m.entered <= m'.entered && m.warnings <= m'.warnings
    && Fresh(t, m') <= Fresh(t, m)
    && (m'.warnings == [] && m'.chain == [] ==> m.order <= m'.order)
  }

  lemma GrownOn(t: Table, m0: Marks, m: Marks, m': Marks)
    requires Grown(t, m0, m) && Grown(t, m, m') && m.chain == []
    ensures Grown(t, m0, m')
    ensures m'.warnings == [] ==> m.warnings == []
    ensures m'.warnings == [] && m'.chain == [] ==> m.order <= m'.order
  {
    hide Fresh;
  }

  lemma GrownLess(t: Table, m: Marks, m': Marks)
    requires Grown(t, m, m')
    ensures Fresh(t, m') <= Fresh(t, m)
  {}

  lemma OpenLast(t: Table, m: Marks, path: seq<nat>, head: nat)
    requires Open(t, m, path, head)
    ensures m.chain != []
  {}

  /** What is known about a symbol when it is met. */
  lemma Seen(t: Table, m: Marks, path: seq<nat>, sym: nat)
    requires Ok(t, m, path) && m.chain == []
    ensures Grown(t, m, m) && m.check <= m.checked
    ensures sym in m.check ==> sym in m.checked
    ensures sym in m.checked && sym !in m.check && m.warnings == [] ==> sym in m.order
    ensures sym in m.check ==> var m' := m.(chain := [sym]);
      && Ok(t, m', path) && Open(t, m', path, sym)
      && Grown(t, m, m')
  {}

  /** From entering a symbol to leaving it again. */
  lemma Returned(t: Table, m0: Marks, m: Marks, m': Marks, sym: nat)
    requires m == Enter(m0, sym) && Grown(t, m, m') && sym !in m0.checked && m0.check <= m0.checked && sym < |t|
    requires m0.chain == []
    ensures m'.check - {sym} == m0.check && sym in m'.checked
    ensures m'.chain == [] ==> Grown(t, m0, m'.(check := m'.check - {sym}, order := m'.order + [sym]))
    ensures forall c: seq<nat> :: c != [] ==> Grown(t, m0, m'.(check := m'.check - {sym}, chain := c))
    ensures forall w: seq<nat> ::
      Grown(t, m0, m'.(check := m'.check - {sym}, chain := [], warnings := m'.warnings + [w]))
  {
    FewerFresh(t, m0, sym);
    assert Fresh(t, m'.(check := m'.check - {sym})) == Fresh(t, m');
  }

  lemma NameParts(t: Table, d: Dep, sym: nat)
    requires Closed(t) && sym < |t| && Names(d) <= Walked(t[sym])
    ensures d.Two? ==> Names(d) == Names(d.l) + Names(d.r) && Names(d.l) <= Walked(t[sym])
    ensures d.Two? ==> Names(d.r) <= Walked(t[sym])
    ensures d.Negated? ==> Names(d.e) == Names(d)
    ensures d.Compare? ==> Names(d) == {d.left} + {d.right} && Edge(t, sym, d.left) && Edge(t, sym, d.right)
    ensures d.Compare? ==> d.left < |t| && d.right < |t|
    ensures d.Leaf? ==> Names(d) == {d.sym} && Edge(t, sym, d.sym) && d.sym < |t|
    ensures d.Absent? || d.Other? ==> forall order :: Covered(Names(d), order)
  {}

  lemma GrownNot(t: Table, m: Marks)
    ensures Grown(t, m, m)
  {}

  /** The warning being printed starts with `head`, which is being checked. */
  ghost predicate Open(t: Table, m: Marks, path: seq<nat>, head: nat) {
    m.chain != [] && m.chain[0] == head && head in path && Chain(t, m.chain)
  }

  function Enter(m: Marks, sym: nat): Marks {
    m.(check := m.check + {sym}, checked := m.checked + {sym}, entered := m.entered + [sym])
  }

  lemma PathOn(t: Table, check: set<nat>, path: seq<nat>, sym: nat)
    requires PathOk(t, check, path) && sym !in check && (path != [] ==> Edge(t, path[|path| - 1], sym))
    ensures PathOk(t, check + {sym}, path + [sym])
  {
    hide Edge;
    assert sym !in path;
  }

  lemma EnteredOn(t: Table, checked: set<nat>, entered: seq<nat>, sym: nat)
    requires EnteredOk(t, checked, entered) && sym !in checked && sym < |t|
    ensures EnteredOk(t, checked + {sym}, entered + [sym])
  {
    assert sym !in entered;
  }

  lemma Entered(t: Table, m: Marks, path: seq<nat>, sym: nat)
    requires Ok(t, m, path) && m.chain == [] && sym < |t| && sym !in m.checked
    requires path != [] ==> Edge(t, path[|path| - 1], sym)
    ensures Ok(t, Enter(m, sym), path + [sym]) && Fresh(t, Enter(m, sym)) < Fresh(t, m)
  {
    PathOn(t, m.check, path, sym);
    EnteredOn(t, m.checked, m.entered, sym);
    FewerFresh(t, m, sym);
    hide PathOk, EnteredOk, WarningsOk, Settled, Fresh;
  }

  lemma FewerFresh(t: Table, m: Marks, sym: nat)
    requires sym < |t| && sym !in m.checked
    ensures Fresh(t, Enter(m, sym)) < Fresh(t, m)
  {
    var s := Ids(|t|) - m.checked;
    assert sym in s;
    assert Ids(|t|) - (m.checked + {sym}) == s - {sym};
  }

  lemma PathBack(t: Table, check: set<nat>, path: seq<nat>, sym: nat)
    requires PathOk(t, check, path + [sym])
    ensures PathOk(t, check - {sym}, path) && sym in check
  {
    hide Edge;
    var p := path + [sym];
    assert p[|path|] == sym && sym in p;
    forall i | 0 <= i < |path| - 1 ensures Edge(t, path[i], path[i + 1]) { assert Edge(t, p[i], p[i + 1]); }
    forall i, j | 0 <= i < j < |path| ensures path[i] != path[j] { assert p[i] != p[j]; }
    forall u ensures u in check - {sym} <==> u in path {
      if u in path {
        var i :| 0 <= i < |path| && path[i] == u;
        assert p[i] != p[|path|];
      }
      assert u in p <==> u in path || u == sym;
    }
  }

  /** Left without a warning being printed. */
  lemma Left(t: Table, m: Marks, path: seq<nat>, sym: nat)
    requires Ok(t, m, path + [sym]) && m.chain == [] && sym < |t|
    requires m.warnings == [] ==> Covered(Walked(t[sym]), m.order)
    ensures Ok(t, m.(check := m.check - {sym}, order := m.order + [sym]), path) && sym in m.checked
  {
    PathBack(t, m.check, path, sym);
    hide PathOk, EnteredOk, WarningsOk, Walked;
    if m.warnings == [] { SettledMore(t, m.order, sym); }
    hide Settled;
  }

  /** Left while a warning is being printed: one more name, and a newline if it is the one the warning starts with. */
  lemma LeftWarning(t: Table, m: Marks, path: seq<nat>, sym: nat, head: nat)
    requires Ok(t, m, path + [sym]) && Open(t, m, path + [sym], head) && Edge(t, sym, m.chain[|m.chain| - 1])
    ensures sym in m.checked
    ensures var m' := m.(chain := m.chain + [sym], check := m.check - {sym});
      head != sym ==> Ok(t, m', path) && Open(t, m', path, head)
    ensures head == sym ==> Ok(t, m.(chain := [], warnings := m.warnings + [m.chain + [sym]], check := m.check - {sym}),
      path)
  {
    PathBack(t, m.check, path, sym);
    var w := m.chain + [sym];
    assert Chain(t, w) by {
      hide Edge;
      forall i | 0 <= i < |w| - 1 ensures Edge(t, w[i + 1], w[i]) {
        if i < |m.chain| - 1 { assert Edge(t, m.chain[i + 1], m.chain[i]); }
      }
    }
    hide PathOk, EnteredOk, Settled, Chain;
  }

  class Checker {
    const table: Table
    var check: set<nat>
    var checked: set<nat>
    var warnings: seq<seq<nat>>
    var chain: seq<nat>
    ghost var entered: seq<nat>
    ghost var order: seq<nat>

    constructor (t: Table)
      ensures table == t && Now() == Marks({}, {}, [], [], [], [])
    {
      table := t;
      check, checked, warnings, chain, entered, order := {}, {}, [], [], [], [];
    }

    ghost function Now(): Marks
      reads this
    {
      Marks(check, checked, warnings, chain, entered, order)
    }

    /** sym_check_deps, with None for NULL. */
    method CheckDeps(sym: nat, ghost path: seq<nat>) returns (r: Option<nat>)
      requires Closed(table) && Ok(table, Now(), path) && chain == []
      requires sym < |table| && (path != [] ==> Edge(table, path[|path| - 1], sym))
      modifies this
      ensures Ok(table, Now(), path) && Grown(table, old(Now()), Now()) && sym in checked
      ensures r == None ==> chain == [] && (warnings == [] ==> sym in order)
      ensures r.Some? ==> Open(table, Now(), path, r.value) && chain[|chain| - 1] == sym
      decreases Fresh(table, Now()), 0
    {
      hide Ok, Open, Grown, Fresh, Edge, Closed, Names, PropsNames, PropNames, Walked, Covered;
      Seen(table, Now(), path, sym);
      if sym in check {
        chain := [sym];
        return Some(sym);
      }
      if sym in checked { return None; }
      Entered(table, Now(), path, sym);
      check, checked, entered := check + {sym}, checked + {sym}, entered + [sym];
      ghost var m := Now();
      r := CheckProps(sym, path);
      if r.Some? {
        LeftWarning(table, Now(), path, sym, r.value);
        Returned(table, old(Now()), m, Now(), sym);
        chain := chain + [sym];
        if r.value == sym {
          warnings := warnings + [chain];
          chain := [];
          r := None;
        }
      } else {
        Left(table, Now(), path, sym);
        Returned(table, old(Now()), m, Now(), sym);
        order := order + [sym];
      }
      check := check - {sym};
    }

    /** The body of sym_check_deps between setting and clearing the flag: all expressions of one symbol. */
    method CheckProps(sym: nat, ghost path: seq<nat>) returns (r: Option<nat>)
      requires Closed(table) && Ok(table, Now(), path + [sym]) && chain == [] && sym < |table|
      modifies this
      ensures Ok(table, Now(), path + [sym]) && Grown(table, old(Now()), Now())
      ensures r == None ==> chain == [] && (warnings == [] ==> Covered(Walked(table[sym]), order))
      ensures r.Some? ==> Open(table, Now(), path + [sym], r.value) && chain != []
      ensures r.Some? ==> Edge(table, sym, chain[|chain| - 1])
      decreases Fresh(table, Now()), 3
    {
      hide Ok, Open, Grown, Fresh, Edge, Closed, Names, PropsNames, PropNames, Walked, Covered;
      ghost var p := path + [sym];
      var s := table[sym];
      WalkedParts(s);
      r := CheckExpr(s.revDep, sym, p);
      if r.Some? { return; }
      var i := 0;
      while i < |s.props|
        invariant 0 <= i <= |s.props| && Ok(table, Now(), p) && Grown(table, old(Now()), Now()) && chain == []
        invariant r == None
        invariant warnings == [] ==>
          Covered(Names(s.revDep), order) && Covered(PropsNames(s.props[..i], s.choice), order)
      {
        ghost var m := Now();
        GrownLess(table, old(Now()), m);
        r := CheckProp(sym, p, i);
        GrownOn(table, old(Now()), m, Now());
        if r.Some? { return; }
        PropsWalked(s, i);
        if warnings == [] {
          CoveredMore(PropsNames(s.props[..i], s.choice), PropNames(s.props[i], s.choice), m.order, order);
          CoveredLater(Names(s.revDep), m.order, order);
        }
        i := i + 1;
      }
      assert s.props[..i] == s.props;
      if warnings == [] { CoveredMore(Names(s.revDep), PropsNames(s.props, s.choice), order, order); }
    }

    /** One property of the symbol. */
    method CheckProp(sym: nat, ghost p: seq<nat>, i: nat) returns (r: Option<nat>)
      requires Closed(table) && Ok(table, Now(), p) && chain == [] && sym < |table| && i < |table[sym].props|
      requires p != [] && p[|p| - 1] == sym
      modifies this
      ensures Ok(table, Now(), p) && Grown(table, old(Now()), Now())
      ensures r == None ==> chain == []
      ensures r == None ==> (warnings == [] ==> Covered(PropNames(table[sym].props[i], table[sym].choice), order))
      ensures r.Some? ==> Open(table, Now(), p, r.value) && chain != [] && Edge(table, sym, chain[|chain| - 1])
      decreases Fresh(table, Now()), 2
    {
      hide Ok, Open, Grown, Fresh, Edge, Closed, Names, PropsNames, PropNames, Walked, Covered;
      var prop, choice := table[sym].props[i], table[sym].choice;
      PropsWalked(table[sym], i);
      PropParts(prop, choice);
      GrownNot(table, Now());
      r := None;
      if prop.kind == Choice || prop.kind == Select { return; }
      r := CheckExpr(prop.visible, sym, p);
      if r.Some? || prop.kind != Default || choice { return; }
      ghost var m := Now();
      GrownLess(table, old(Now()), m);
      r := CheckExpr(prop.expr, sym, p);
      GrownOn(table, old(Now()), m, Now());
      if r == None && warnings == [] { CoveredMore(Names(prop.visible), Names(prop.expr), m.order, order); }
    }

    /** sym_check_expr_deps */
    method CheckExpr(d: Dep, ghost sym: nat, ghost p: seq<nat>) returns (r: Option<nat>)
      requires Closed(table) && Ok(table, Now(), p) && chain == [] && sym < |table| && Names(d) <= Walked(table[sym])
      requires p != [] && p[|p| - 1] == sym
      modifies this
      ensures Ok(table, Now(), p) && Grown(table, old(Now()), Now())
      ensures r == None ==> chain == [] && (warnings == [] ==> Covered(Names(d), order))
      ensures r.Some? ==> Open(table, Now(), p, r.value) && chain != [] && Edge(table, sym, chain[|chain| - 1])
      decreases Fresh(table, Now()), 1, d
    {
      hide Ok, Open, Grown, Fresh, Edge, Closed, Names, PropsNames, PropNames, Walked, Covered;
      NameParts(table, d, sym);
      GrownNot(table, Now());
      r := None;
      match d
      case Absent =>
      case Two(left, right) =>
        r := CheckExpr(left, sym, p);
        if r.Some? { return; }
        ghost var m := Now();
        GrownLess(table, old(Now()), m);
        r := CheckExpr(right, sym, p);
        GrownOn(table, old(Now()), m, Now());
        if r == None && warnings == [] { CoveredMore(Names(left), Names(right), m.order, order); }
      case Negated(e) =>
        r := CheckExpr(e, sym, p);
      case Compare(left, right) =>
        r := CheckDeps(left, p);
        if r.Some? {
          OpenLast(table, Now(), p, r.value);
          return;
        }
        ghost var m := Now();
        GrownLess(table, old(Now()), m);
        r := CheckDeps(right, p);
        GrownOn(table, old(Now()), m, Now());
        if r.Some? {
          OpenLast(table, Now(), p, r.value);
        } else if warnings == [] {
          CoveredOne(left, m.order);
          CoveredOne(right, order);
          CoveredMore({left}, {right}, m.order, order);
        }
      case Leaf(v) =>
        r := CheckDeps(v, p);
        if r.Some? { OpenLast(table, Now(), p, r.value); } else if warnings == [] { CoveredOne(v, order); }
      case Other =>
    }

    /** The loop of conf_parse over the symbol table: each symbol is entered at most once, every warning is a
        real cycle of dependencies, and there is a warning if a symbol of the table lies on a cycle. */
    method CheckAll(symbols: seq<nat>)
      requires Closed(table) && Now() == Marks({}, {}, [], [], [], []) && forall u :: u in symbols ==> u < |table|
      modifies this
      ensures check == {} && chain == [] && Distinct(entered)
      ensures forall u :: u in symbols ==> u in entered
      ensures forall w :: w in warnings ==> Cycle(table, w)
      ensures warnings == [] ==> forall w :: Cycle(table, w) ==> w != [] && w[0] !in symbols
    {
      hide Ok, Open, Grown, Fresh, Edge, Closed, Settled, Cycle, Reached;
      Beginning(table, symbols);
      for i := 0 to |symbols|
        invariant Ok(table, Now(), []) && chain == [] && Reached(Now(), symbols, i)
      {
        ghost var m := Now();
        assert symbols[i] in symbols;
        var r := CheckDeps(symbols[i], []);
        NothingOpen(table, m, Now(), r);
        ReachedMore(m, Now(), symbols, i);
      }
      AllDone(table, Now(), symbols);
      if warnings == [] {
        forall w | Cycle(table, w) ensures w != [] && w[0] !in symbols {
          CycleStart(table, w);
          NoCycle(table, order, w);
        }
      }
    }
  }

  /** The first i symbols have been checked. */
  ghost predicate Reached(m: Marks, symbols: seq<nat>, i: nat) {
    && i <= |symbols| && (forall u :: u in symbols[..i] ==> u in m.checked)
    && (m.warnings == [] ==> forall u :: u in symbols[..i] ==> u in m.order)
  }

  lemma Beginning(t: Table, symbols: seq<nat>)
    ensures Ok(t, Marks({}, {}, [], [], [], []), []) && Reached(Marks({}, {}, [], [], [], []), symbols, 0)
  {}

  lemma ReachedMore(m: Marks, m': Marks, symbols: seq<nat>, i: nat)
    requires Reached(m, symbols, i) && i < |symbols| && symbols[i] in m'.checked && m.checked <= m'.checked
    requires m'.warnings == [] ==> m.warnings == [] && m.order <= m'.order && symbols[i] in m'.order
    ensures Reached(m', symbols, i + 1)
  {
    assert symbols[..i + 1] == symbols[..i] + [symbols[i]];
  }

  lemma CycleStart(t: Table, w: seq<nat>)
    requires Cycle(t, w)
    ensures w != []
  {}

  lemma NothingOpen(t: Table, m: Marks, m': Marks, r: Option<nat>)
    requires Grown(t, m, m') && (r.Some? ==> Open(t, m', [], r.value)) && (r == None ==> m'.chain == [])
    ensures r == None && m.checked <= m'.checked && (m'.warnings == [] ==> m.warnings == [] && m.order <= m'.order)
  {}

  lemma AllDone(t: Table, m: Marks, symbols: seq<nat>)
    requires Ok(t, m, []) && m.chain == [] && Reached(m, symbols, |symbols|)
    ensures m.check == {} && Distinct(m.entered) && (forall u :: u in symbols ==> u in m.entered)
    ensures forall w :: w in m.warnings ==> Cycle(t, w)
    ensures m.warnings == [] ==> Settled(t, m.order) && forall u :: u in symbols ==> u in m.order
  {
    assert symbols[..|symbols|] == symbols;
  }

  ghost predicate Covered(s: set<nat>, order: seq<nat>) { forall v :: v in s ==> v in order }

  lemma CoveredMore(a: set<nat>, b: set<nat>, order: seq<nat>, order': seq<nat>)
    requires Covered(a, order) && Covered(b, order') && order <= order'
    ensures Covered(a + b, order')
  {}

  lemma CoveredOne(v: nat, order: seq<nat>)
    requires v in order
    ensures Covered({v}, order)
  {}

  lemma CoveredLater(a: set<nat>, order: seq<nat>, order': seq<nat>)
    requires Covered(a, order) && order <= order'
    ensures Covered(a, order')
  {}

  lemma PropsWalked(s: Symbol, i: nat)
    requires i < |s.props|
    ensures PropNames(s.props[i], s.choice) <= Walked(s)
    ensures PropsNames(s.props[..i + 1], s.choice) == PropsNames(s.props[..i], s.choice)
      + PropNames(s.props[i], s.choice)
  {
    assert s.props[..i + 1][..i] == s.props[..i];
    PropsMore(s.props, i, s.choice);
  }

  lemma {:induction false} PropsMore(ps: seq<Prop>, i: nat, choice: bool)
    requires i < |ps|
    ensures PropNames(ps[i], choice) <= PropsNames(ps, choice)
    decreases |ps|
  {
    if i < |ps| - 1 { PropsMore(ps[..|ps| - 1], i, choice); }
  }

  lemma WalkedParts(s: Symbol)
    ensures Walked(s) == Names(s.revDep) + PropsNames(s.props, s.choice)
    ensures Names(s.revDep) <= Walked(s) && forall order :: Covered(PropsNames(s.props[..0], s.choice), order)
  {}

  lemma PropParts(p: Prop, choice: bool)
    ensures p.kind == Choice || p.kind == Select ==> forall order :: Covered(PropNames(p, choice), order)
    ensures p.kind != Choice && p.kind != Select ==> Names(p.visible) <= PropNames(p, choice)
    ensures p.kind != Choice && p.kind != Select && (p.kind != Default || choice) ==>
      PropNames(p, choice) == Names(p.visible)
    ensures p.kind == Default && !choice ==> PropNames(p, choice) == Names(p.visible) + Names(p.expr)
    ensures p.kind == Default && !choice ==> Names(p.expr) <= PropNames(p, choice)
  {}
}
