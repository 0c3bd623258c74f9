/** What menu_finalize makes of a menu tree: entries are taken over first, then menus without a prompt dissolve. */
module MenuSpec {
  import opened Common
  import opened MenuTree
  import opened MenuSteps

  type Test = nat -> bool
  type Test2 = (nat, nat) -> bool

  /** The first entry of f with everything it ends up with below it, and how many entries of f that uses up. */
  function First(symbol: Test, adopts: Test2, f: seq<Tree>): (r: (Tree, nat))
    requires f != []
    ensures 1 <= r.1 <= |f| && r.0.id == f[0].id
    decreases f, 0
  {
    var p := f[0].id;
    if f[0].kids != [] then (Tree(p, Grown(symbol, adopts, f[0].kids)), 1)
    else if symbol(p) then
      var (ks, k) := Taken(symbol, adopts, p, f[1..]);
      (Tree(p, ks), k + 1)
    else (f[0], 1)
  }

  lemma {:induction false} FirstIs(symbol: Test, adopts: Test2, f: seq<Tree>)
    requires f != []
    ensures var p, r := f[0].id, First(symbol, adopts, f);
      if f[0].kids != [] then r == (Tree(p, Grown(symbol, adopts, f[0].kids)), 1)
      else if symbol(p) then
        var (ks, k) := Taken(symbol, adopts, p, f[1..]);
        r == (Tree(p, ks), k + 1)
      else r == (Tree(p, []), 1)
  {}

  lemma {:induction false} TakenIs(symbol: Test, adopts: Test2, p: nat, f: seq<Tree>)
    ensures
      if f == [] || !adopts(p, f[0].id) then Taken(symbol, adopts, p, f) == ([], 0)
      else
        var (t, k) := First(symbol, adopts, f);
        var (ks, n) := Taken(symbol, adopts, p, f[k..]);
        Taken(symbol, adopts, p, f) == ([t] + ks, k + n)
  {
    hide First;
  }

  /** What p takes over from the entries f that follow it: all of them up to the first that it does not adopt. */
  function Taken(symbol: Test, adopts: Test2, p: nat, f: seq<Tree>): (r: (seq<Tree>, nat))
    ensures r.1 <= |f|
    decreases f, 1
  {
    if f == [] || !adopts(p, f[0].id) then ([], 0)
    else
      var (t, k) := First(symbol, adopts, f);
      var (ks, n) := Taken(symbol, adopts, p, f[k..]);
      ([t] + ks, k + n)
  }

  function Grown(symbol: Test, adopts: Test2, f: seq<Tree>): seq<Tree>
    decreases f, 1
  {
    if f == [] then []
    else
      var (t, k) := First(symbol, adopts, f);
      [t] + Grown(symbol, adopts, f[k..])
  }

  /** Menus without a prompt are left without children: these follow them instead. */
  function Lifted(prompted: Test, f: seq<Tree>): seq<Tree> {
    if f == [] then []
    else
      var ks := Lifted(prompted, f[0].kids);
      (if prompted(f[0].id) then [Tree(f[0].id, ks)] else [Tree(f[0].id, [])] + ks) + Lifted(prompted, f[1..])
  }

  /** Lifted everywhere but at the roots. */
  function LiftedBelow(prompted: Test, f: seq<Tree>): seq<Tree> {
    if f == [] then [] else [Tree(f[0].id, Lifted(prompted, f[0].kids))] + LiftedBelow(prompted, f[1..])
  }

  lemma LiftedNone(prompted: Test)
    ensures LiftedBelow(prompted, []) == []
  {}

  /** Lifted at the roots only. */
  function Dissolved(prompted: Test, f: seq<Tree>): seq<Tree> {
    if f == [] then []
    else (if prompted(f[0].id) then [f[0]] else [Tree(f[0].id, [])] + f[0].kids) + Dissolved(prompted, f[1..])
  }

  lemma {:induction false} DissolvedLast(prompted: Test, f: seq<Tree>)
    ensures Dissolved(prompted, LiftedBelow(prompted, f)) == Lifted(prompted, f)
  {
    if f != [] {
      DissolvedLast(prompted, f[1..]);
      var g := LiftedBelow(prompted, f);
      assert g[1..] == LiftedBelow(prompted, f[1..]);
    }
  }

  lemma {:induction false} DissolvedConcat(prompted: Test, f: seq<Tree>, g: seq<Tree>)
    ensures Dissolved(prompted, f + g) == Dissolved(prompted, f) + Dissolved(prompted, g)
  {
    if f == [] {
      assert f + g == g;
    } else {
      assert (f + g)[1..] == f[1..] + g;
      DissolvedConcat(prompted, f[1..], g);
    }
  }

  lemma {:induction false} DissolvedFlat(prompted: Test, f: seq<Tree>)
    requires Flat(prompted, f)
    ensures Dissolved(prompted, f) == f
  {
    if f != [] {
      DissolvedFlat(prompted, f[1..]);
      assert f[0].kids == [] ==> f[0] == Tree(f[0].id, []);
      assert [f[0]] + f[1..] == f;
    }
  }

  /** Of one dissolving step: children with a prompt stay as they are, the children of the others come up, and nothing
      else is there afterwards. */
  ghost predicate MovesUp(prompted: Test, f: seq<Tree>, g: seq<Tree>) {
    && (forall t :: t in f ==> if prompted(t.id) then t in g else Tree(t.id, []) in g)
    && (forall t, c :: t in f && !prompted(t.id) && c in t.kids ==> c in g)
    && (forall c :: c in g ==>
      || (c in f && prompted(c.id))
      || exists t :: t in f && !prompted(t.id) && (c == Tree(t.id, []) || c in t.kids))
  }

  lemma {:induction false} DissolvedMoves(prompted: Test, f: seq<Tree>)
    ensures MovesUp(prompted, f, Dissolved(prompted, f))
  {
    if f != [] {
      DissolvedMoves(prompted, f[1..]);
      assert forall t :: t in f <==> t == f[0] || t in f[1..];
      assert f[0] in f;
      var head := if prompted(f[0].id) then [f[0]] else [Tree(f[0].id, [])] + f[0].kids;
      assert forall c :: c in Dissolved(prompted, f) <==> c in head || c in Dissolved(prompted, f[1..]);
    }
  }

  // The loops: ks is done, the entries in `rest` are still to come.

  ghost predicate Growing(symbol: Test, adopts: Test2, prompted: Test, f: seq<Tree>, ks: seq<Tree>, rest: seq<Tree>) {
    ks + LiftedBelow(prompted, Grown(symbol, adopts, rest)) == LiftedBelow(prompted, Grown(symbol, adopts, f))
  }

  lemma {:induction false} GrownStep(symbol: Test, adopts: Test2, prompted: Test, f: seq<Tree>, ks: seq<Tree>,
                                     rest: seq<Tree>, t: Tree, k: nat)
    requires Growing(symbol, adopts, prompted, f, ks, rest) && rest != [] && k == First(symbol, adopts, rest).1
    requires t == Tree(rest[0].id, Lifted(prompted, First(symbol, adopts, rest).0.kids))
    ensures k <= |rest| && Growing(symbol, adopts, prompted, f, ks + [t], rest[k..])
  {
    var g := Grown(symbol, adopts, rest);
    assert g[1..] == Grown(symbol, adopts, rest[k..]);
    var gs := LiftedBelow(prompted, Grown(symbol, adopts, rest[k..]));
    assert LiftedBelow(prompted, g) == [t] + gs;
    hide *;
    assert ks + [t] + gs == ks + ([t] + gs);
  }

  lemma GrownEnds(symbol: Test, adopts: Test2, prompted: Test, f: seq<Tree>, ks: seq<Tree>)
    ensures Growing(symbol, adopts, prompted, f, [], f)
    ensures Growing(symbol, adopts, prompted, f, ks, []) ==> ks == LiftedBelow(prompted, Grown(symbol, adopts, f))
  {
    assert ks + [] == ks;
  }

  ghost predicate Taking(symbol: Test, adopts: Test2, prompted: Test, p: nat, f: seq<Tree>, ks: seq<Tree>, k: nat) {
    && k <= |f| && k + Taken(symbol, adopts, p, f[k..]).1 == Taken(symbol, adopts, p, f).1
    && ks + LiftedBelow(prompted, Taken(symbol, adopts, p, f[k..]).0) ==
      LiftedBelow(prompted, Taken(symbol, adopts, p, f).0)
    && forall t :: t in ks ==> adopts(p, t.id)
  }

  lemma {:induction false} TakenStep(symbol: Test, adopts: Test2, prompted: Test, p: nat, f: seq<Tree>, ks: seq<Tree>,
                                     k: nat, t: Tree, n: nat)
    requires Taking(symbol, adopts, prompted, p, f, ks, k) && k < |f| && adopts(p, f[k].id)
    requires n == First(symbol, adopts, f[k..]).1
    requires t == Tree(f[k].id, Lifted(prompted, First(symbol, adopts, f[k..]).0.kids))
    ensures Taking(symbol, adopts, prompted, p, f, ks + [t], k + n)
  {
    var rest := f[k..];
    var own := Taken(symbol, adopts, p, rest).0;
    assert own[1..] == Taken(symbol, adopts, p, rest[n..]).0;
    var gs := LiftedBelow(prompted, own[1..]);
    assert LiftedBelow(prompted, own) == [t] + gs;
    assert rest[n..] == f[k + n..];
    assert ks + [t] + gs == ks + ([t] + gs);
  }

  lemma {:induction false} TakenEnds(symbol: Test, adopts: Test2, prompted: Test, p: nat, f: seq<Tree>, ks: seq<Tree>,
                                     k: nat)
    ensures Taking(symbol, adopts, prompted, p, f, [], 0)
    ensures Taking(symbol, adopts, prompted, p, f, ks, k) && (k < |f| ==> !adopts(p, f[k].id)) ==>
      && Taken(symbol, adopts, p, f).1 == k && ks == LiftedBelow(prompted, Taken(symbol, adopts, p, f).0)
      && forall t :: t in ks ==> adopts(p, t.id)
  {
    assert f[0..] == f;
    assert ks + [] == ks;
  }

  lemma {:induction false} TakenStops(symbol: Test, adopts: Test2, prompted: Test, p: nat, m: Nodes, f: seq<Tree>,
                                      ks: seq<Tree>, k: nat, menu: nat, par: nat)
    requires 1 <= k <= |f| && Taking(symbol, adopts, prompted, p, f[1..], ks, k - 1)
    requires Spells(m, f[k..], menu, NULL, par) && (menu != NULL ==> !adopts(p, menu))
    ensures (forall t :: t in ks ==> adopts(p, t.id)) && (k < |f| ==> !adopts(p, f[k].id))
    ensures var r := Taken(symbol, adopts, p, f[1..]); ks == LiftedBelow(prompted, r.0) && k == r.1 + 1
  {
    hide *;
    if menu != NULL { NotEmpty(m, f[k..], menu, par); } else { Empty(m, f[k..], par); }
    TakenEnds(symbol, adopts, prompted, p, f[1..], ks, k - 1);
  }

  ghost predicate Dissolving(prompted: Test, f: seq<Tree>, ks: seq<Tree>, rest: seq<Tree>) {
    ks + Dissolved(prompted, rest) == Dissolved(prompted, f)
  }

  lemma DissolvingIs(prompted: Test, f: seq<Tree>, ks: seq<Tree>, rest: seq<Tree>)
    ensures Dissolving(prompted, f, ks, rest) <==> ks + Dissolved(prompted, rest) == Dissolved(prompted, f)
  {}

  lemma {:induction false} DissolvedStep(prompted: Test, f: seq<Tree>, ks: seq<Tree>, rest: seq<Tree>, g: seq<Tree>)
    requires Dissolving(prompted, f, ks, rest) && rest != [] && FlatBelow(prompted, rest)
    requires g == if !prompted(rest[0].id) then [Tree(rest[0].id, [])] + rest[0].kids + rest[1..] else rest
    ensures Dissolving(prompted, f, ks + [g[0]], g[1..])
  {
    hide *;
    DissolvedFirst(prompted, rest, g);
    var gs := Dissolved(prompted, g[1..]);
    DissolvingIs(prompted, f, ks, rest);
    DissolvingIs(prompted, f, ks + [g[0]], g[1..]);
    assert ks + [g[0]] + gs == ks + ([g[0]] + gs);
  }

  lemma {:induction false} DissolvedFirst(prompted: Test, f: seq<Tree>, g: seq<Tree>)
    requires f != [] && FlatBelow(prompted, f)
    requires g == if !prompted(f[0].id) then [Tree(f[0].id, [])] + f[0].kids + f[1..] else f
    ensures Dissolved(prompted, f) == [g[0]] + Dissolved(prompted, g[1..])
  {
    hide *;
    var leaf, ks, rest := Tree(f[0].id, []), f[0].kids, f[1..];
    FlatFirst(prompted, f);
    DissolvedIs(prompted, f);
    if !prompted(f[0].id) {
      assert g[1..] == ks + rest && g[0] == leaf;
      DissolvedConcat(prompted, ks, rest);
      DissolvedFlat(prompted, ks);
      assert [leaf] + ks + Dissolved(prompted, rest) == [leaf] + (ks + Dissolved(prompted, rest));
    }
  }

  lemma FlatFirst(prompted: Test, f: seq<Tree>)
    requires f != [] && FlatBelow(prompted, f)
    ensures Flat(prompted, f[0].kids)
  {}

  lemma DissolvedIs(prompted: Test, f: seq<Tree>)
    requires f != []
    ensures var head := if prompted(f[0].id) then [f[0]] else [Tree(f[0].id, [])] + f[0].kids;
      Dissolved(prompted, f) == head + Dissolved(prompted, f[1..])
  {}

  lemma DissolvedEnds(prompted: Test, f: seq<Tree>, ks: seq<Tree>)
    ensures Dissolving(prompted, f, [], f)
    ensures Dissolving(prompted, f, ks, []) ==> ks == Dissolved(prompted, f)
  {
    assert ks + [] == ks;
  }

  // What the two functions mean.

  /** The ancestors of y, from the top. */
  function Above(f: seq<Tree>, y: nat): seq<nat> {
    if f == [] || f[0].id == y then []
    else if y in Preorder(f[0].kids) then [f[0].id] + Above(f[0].kids, y)
    else Above(f[1..], y)
  }

  function Filter(keep: Test, s: seq<nat>): seq<nat> {
    if s == [] then [] else (if keep(s[0]) then [s[0]] else []) + Filter(keep, s[1..])
  }

  lemma {:induction false} AboveConcat(f: seq<Tree>, g: seq<Tree>, y: nat)
    ensures Above(f + g, y) == if y in Preorder(f) then Above(f, y) else Above(g, y)
  {
    if f == [] {
      assert f + g == g;
    } else {
      assert (f + g)[1..] == f[1..] + g;
      AboveConcat(f[1..], g, y);
    }
  }

  lemma {:induction false} LiftedOrder(prompted: Test, f: seq<Tree>)
    ensures Preorder(Lifted(prompted, f)) == Preorder(f)
  {
    if f != [] {
      LiftedOrder(prompted, f[0].kids);
      LiftedOrder(prompted, f[1..]);
      var ks := Lifted(prompted, f[0].kids);
      var head := if prompted(f[0].id) then [Tree(f[0].id, ks)] else [Tree(f[0].id, [])] + ks;
      PreorderConcat(head, Lifted(prompted, f[1..]));
      assert head[1..] == if prompted(f[0].id) then [] else ks;
    }
  }

  /** Exactly the ancestors with a prompt are left. */
  lemma {:induction false} LiftedAbove(prompted: Test, f: seq<Tree>, y: nat)
    ensures Above(Lifted(prompted, f), y) == Filter(prompted, Above(f, y))
  {
    if f != [] {
      var p, ks := f[0].id, Lifted(prompted, f[0].kids);
      var head := if prompted(p) then [Tree(p, ks)] else [Tree(p, [])] + ks;
      LiftedAbove(prompted, f[0].kids, y);
      LiftedAbove(prompted, f[1..], y);
      LiftedOrder(prompted, f[0].kids);
      AboveConcat(head, Lifted(prompted, f[1..]), y);
      assert head[1..] == if prompted(p) then [] else ks;
      if f[0].id != y && y in Preorder(f[0].kids) {
        assert Above(f, y)[1..] == Above(f[0].kids, y);
      }
    }
  }

  /** `inner` tells of every node of f whether it has children. */
  ghost predicate Tells(inner: Test, f: seq<Tree>) {
    f == [] || ((inner(f[0].id) <==> f[0].kids != []) && Tells(inner, f[0].kids) && Tells(inner, f[1..]))
  }

  lemma {:induction false} TellsConcat(inner: Test, f: seq<Tree>, g: seq<Tree>)
    ensures Tells(inner, f + g) <==> Tells(inner, f) && Tells(inner, g)
  {
    if f == [] {
      assert f + g == g;
    } else {
      assert (f + g)[1..] == f[1..] + g;
      TellsConcat(inner, f[1..], g);
    }
  }

  lemma {:induction false} TellsDrop(inner: Test, f: seq<Tree>, k: nat)
    requires k <= |f| && Tells(inner, f)
    ensures Tells(inner, f[k..])
  {
    assert f[..k] + f[k..] == f;
    TellsConcat(inner, f[..k], f[k..]);
  }

  lemma {:induction false} PreorderSplit(f: seq<Tree>, k: nat)
    requires k <= |f|
    ensures Preorder(f) == Preorder(f[..k]) + Preorder(f[k..])
  {
    assert f[..k] + f[k..] == f;
    PreorderConcat(f[..k], f[k..]);
  }

  lemma {:induction false} FirstOrder(symbol: Test, adopts: Test2, f: seq<Tree>)
    requires f != []
    ensures var (t, k) := First(symbol, adopts, f); Preorder([t]) + Preorder(f[k..]) == Preorder(f)
    decreases f, 0
  {
    hide *;
    var p := f[0].id;
    var (t, k) := First(symbol, adopts, f);
    FirstIs(symbol, adopts, f);
    RootOrder(t);
    RootOrder(f[0]);
    PreorderSplit(f, 1);
    assert f[..1] == [f[0]];
    if f[0].kids != [] {
      GrownOrder(symbol, adopts, f[0].kids);
    } else if symbol(p) {
      LeavesNone();
      TakenOrder(symbol, adopts, p, f[1..]);
      assert f[1..][k - 1..] == f[k..];
    }
  }

  lemma RootOrder(t: Tree)
    ensures Preorder([t]) == [t.id] + Preorder(t.kids)
  {
    assert [t][1..] == [];
  }

  lemma {:induction false} TakenOrder(symbol: Test, adopts: Test2, p: nat, f: seq<Tree>)
    ensures var (ks, k) := Taken(symbol, adopts, p, f); Preorder(ks) + Preorder(f[k..]) == Preorder(f)
    decreases f, 1
  {
    hide *;
    TakenIs(symbol, adopts, p, f);
    if f == [] || !adopts(p, f[0].id) {
      assert f[0..] == f;
      LeavesNone();
    } else {
      var (t, k) := First(symbol, adopts, f);
      var (ks, n) := Taken(symbol, adopts, p, f[k..]);
      FirstOrder(symbol, adopts, f);
      TakenOrder(symbol, adopts, p, f[k..]);
      TakenJoin(f, t, k, ks, n);
    }
  }

  lemma LeavesNone()
    ensures Preorder([]) == []
  {}

  lemma {:induction false} TakenJoin(f: seq<Tree>, t: Tree, k: nat, ks: seq<Tree>, n: nat)
    requires k + n <= |f| && Preorder([t]) + Preorder(f[k..]) == Preorder(f)
    requires Preorder(ks) + Preorder(f[k..][n..]) == Preorder(f[k..])
    ensures Preorder([t] + ks) + Preorder(f[k + n..]) == Preorder(f)
  {
    hide *;
    PreorderConcat([t], ks);
    assert f[k..][n..] == f[k + n..];
    Regroup(Preorder([t]), Preorder(ks), Preorder(f[k + n..]));
  }

  lemma {:induction false} GrownOrder(symbol: Test, adopts: Test2, f: seq<Tree>)
    ensures Preorder(Grown(symbol, adopts, f)) == Preorder(f)
    decreases f, 1
  {
    if f != [] {
      var (t, k) := First(symbol, adopts, f);
      FirstOrder(symbol, adopts, f);
      GrownOrder(symbol, adopts, f[k..]);
      PreorderConcat([t], Grown(symbol, adopts, f[k..]));
    }
  }

  /** What comes off the front of f does not hide the rest. */
  lemma {:induction false} AboveRest(f: seq<Tree>, g: seq<Tree>, k: nat, y: nat)
    requires k <= |f| && Preorder(g) + Preorder(f[k..]) == Preorder(f) && y !in Preorder(g)
    ensures Above(f, y) == Above(f[k..], y)
  {
    PreorderSplit(f, k);
    var a, b, c := Preorder(f[..k]), Preorder(g), Preorder(f[k..]);
    assert a == (a + c)[..|a|] && b == (b + c)[..|b|];
    assert f[..k] + f[k..] == f;
    AboveConcat(f[..k], f[k..], y);
  }

  /** Of the ancestors in the grown menus, those that had children before are the ancestors there were before. */
  lemma {:induction false} GrownAbove(symbol: Test, adopts: Test2, inner: Test, f: seq<Tree>, y: nat)
    requires Tells(inner, f)
    ensures Filter(inner, Above(Grown(symbol, adopts, f), y)) == Above(f, y)
    decreases f, 1
  {
    if f != [] {
      var (t, k) := First(symbol, adopts, f);
      FirstOrder(symbol, adopts, f);
      AboveConcat([t], Grown(symbol, adopts, f[k..]), y);
      if y in Preorder([t]) {
        FirstAbove(symbol, adopts, inner, f, y);
      } else {
        AboveRest(f, [t], k, y);
        TellsDrop(inner, f, k);
        GrownAbove(symbol, adopts, inner, f[k..], y);
      }
    }
  }

  lemma {:induction false} FirstAbove(symbol: Test, adopts: Test2, inner: Test, f: seq<Tree>, y: nat)
    requires f != [] && Tells(inner, f) && y in Preorder([First(symbol, adopts, f).0])
    ensures Filter(inner, Above([First(symbol, adopts, f).0], y)) == Above(f, y)
    decreases f, 0
  {
    var p := f[0].id;
    var t := First(symbol, adopts, f).0;
    assert [t][1..] == [];
    if p != y {
      assert y in Preorder(t.kids);
      assert Above([t], y)[1..] == Above(t.kids, y);
      if f[0].kids != [] {
        GrownOrder(symbol, adopts, f[0].kids);
        GrownAbove(symbol, adopts, inner, f[0].kids, y);
      } else if symbol(p) {
        TakenAbove(symbol, adopts, inner, p, f[1..], y);
      }
    }
  }

  lemma {:induction false} TakenAbove(symbol: Test, adopts: Test2, inner: Test, p: nat, f: seq<Tree>, y: nat)
    requires Tells(inner, f) && y in Preorder(Taken(symbol, adopts, p, f).0)
    ensures Filter(inner, Above(Taken(symbol, adopts, p, f).0, y)) == Above(f, y)
    decreases f, 1
  {
    if f != [] && adopts(p, f[0].id) {
      var (t, k) := First(symbol, adopts, f);
      var ks := Taken(symbol, adopts, p, f[k..]).0;
      FirstOrder(symbol, adopts, f);
      PreorderConcat([t], ks);
      AboveConcat([t], ks, y);
      if y in Preorder([t]) {
        FirstAbove(symbol, adopts, inner, f, y);
      } else {
        AboveRest(f, [t], k, y);
        TellsDrop(inner, f, k);
        TakenAbove(symbol, adopts, inner, p, f[k..], y);
      }
    }
  }

  /** In the list f, followed by the entry `after` if there is one: an entry that had no children before has a symbol
      and
      adopts each child it has now, and one with a symbol does not adopt the entry that comes next. */
  ghost predicate Fits(symbol: Test, adopts: Test2, inner: Test, f: seq<Tree>, after: Option<nat>) {
    f == [] ||
    var p, next := f[0].id, if |f| > 1 then Some(f[1].id) else after;
    && Fits(symbol, adopts, inner, f[1..], after)
    && Fits(symbol, adopts, inner, f[0].kids, if inner(p) then None else next)
    && (!inner(p) ==>
      && (forall c :: c in f[0].kids ==> symbol(p) && adopts(p, c.id))
      && (symbol(p) && next.Some? ==> !adopts(p, next.value)))
  }

  function Head(f: seq<Tree>): Option<nat> { if f == [] then None else Some(f[0].id) }

  lemma {:induction false} FitsCons(symbol: Test, adopts: Test2, inner: Test, t: Tree, f: seq<Tree>, after: Option<nat>)
    requires Fits(symbol, adopts, inner, f, after)
    requires Fits(symbol, adopts, inner, [t], if f == [] then after else Some(f[0].id))
    ensures Fits(symbol, adopts, inner, [t] + f, after)
  {
    var g := [t] + f;
    assert g[1..] == f && g[0] == t;
    assert |g| > 1 ==> g[1] == f[0];
  }

  lemma {:induction false} GrownFits(symbol: Test, adopts: Test2, inner: Test, f: seq<Tree>)
    requires Tells(inner, f)
    ensures Fits(symbol, adopts, inner, Grown(symbol, adopts, f), None)
    decreases f, 1
  {
    if f != [] {
      var (t, k) := First(symbol, adopts, f);
      FirstFits(symbol, adopts, inner, f);
      TellsDrop(inner, f, k);
      GrownFits(symbol, adopts, inner, f[k..]);
      FitsCons(symbol, adopts, inner, t, Grown(symbol, adopts, f[k..]), None);
    }
  }

  lemma {:induction false} FirstFits(symbol: Test, adopts: Test2, inner: Test, f: seq<Tree>)
    requires f != [] && Tells(inner, f)
    ensures var (t, k) := First(symbol, adopts, f); Fits(symbol, adopts, inner, [t], Head(f[k..]))
    decreases f, 0
  {
    var p := f[0].id;
    var (t, k) := First(symbol, adopts, f);
    if f[0].kids != [] {
      GrownFits(symbol, adopts, inner, f[0].kids);
    } else if symbol(p) {
      TakenFits(symbol, adopts, inner, p, f[1..]);
      assert f[1..][k - 1..] == f[k..];
    }
    assert inner(p) <==> f[0].kids != [];
    hide *;
    FitsOne(symbol, adopts, inner, t, Head(f[k..]));
  }

  lemma {:induction false} FitsOne(symbol: Test, adopts: Test2, inner: Test, t: Tree, after: Option<nat>)
    requires Fits(symbol, adopts, inner, t.kids, if inner(t.id) then None else after)
    requires !inner(t.id) ==> (t.kids != [] ==> symbol(t.id)) && (forall c :: c in t.kids ==> adopts(t.id, c.id))
    requires !inner(t.id) && symbol(t.id) && after.Some? ==> !adopts(t.id, after.value)
    ensures Fits(symbol, adopts, inner, [t], after)
  {
    assert [t][1..] == [];
  }

  lemma {:induction false} TakenFits(symbol: Test, adopts: Test2, inner: Test, p: nat, f: seq<Tree>)
    requires Tells(inner, f)
    ensures var (ks, k) := Taken(symbol, adopts, p, f);
      && Fits(symbol, adopts, inner, ks, Head(f[k..])) && (forall c :: c in ks ==> adopts(p, c.id))
      && (k < |f| ==> !adopts(p, f[k].id))
    decreases f, 1
  {
    hide *;
    TakenIs(symbol, adopts, p, f);
    if f == [] || !adopts(p, f[0].id) {
      FitsNone(symbol, adopts, inner, Head(f[0..]));
    } else {
      var (t, k) := First(symbol, adopts, f);
      var (ks, n) := Taken(symbol, adopts, p, f[k..]);
      FirstFits(symbol, adopts, inner, f);
      TellsDrop(inner, f, k);
      TakenFits(symbol, adopts, inner, p, f[k..]);
      TakenHead(symbol, adopts, p, f[k..]);
      assert f[k..][n..] == f[k + n..];
      HeadOf(f, k);
      HeadOf(f, k + n);
      FitsCons(symbol, adopts, inner, t, ks, Head(f[k + n..]));
    }
  }

  lemma FitsNone(symbol: Test, adopts: Test2, inner: Test, after: Option<nat>)
    ensures Fits(symbol, adopts, inner, [], after)
  {}

  lemma HeadOf(f: seq<Tree>, k: nat)
    requires k <= |f|
    ensures Head(f[k..]) == if k < |f| then Some(f[k].id) else None
  {}

  lemma {:induction false} TakenHead(symbol: Test, adopts: Test2, p: nat, f: seq<Tree>)
    ensures var (ks, k) := Taken(symbol, adopts, p, f);
      if ks == [] then k == 0 else f != [] && ks[0].id == f[0].id
  {}

  predicate Inner(f: seq<Tree>, x: nat) {
    f != [] && ((f[0].id == x && f[0].kids != []) || Inner(f[0].kids, x) || Inner(f[1..], x))
  }

  lemma {:induction false} InnerIn(f: seq<Tree>, x: nat)
    requires Inner(f, x)
    ensures x in Preorder(f)
  {
    if Inner(f[0].kids, x) { InnerIn(f[0].kids, x); }
    if Inner(f[1..], x) { InnerIn(f[1..], x); }
  }

  lemma {:induction false} InnerTells(inner: Test, f: seq<Tree>)
    requires Distinct(Preorder(f)) && forall x :: x in Preorder(f) ==> (inner(x) <==> Inner(f, x))
    ensures Tells(inner, f)
  {
    if f != [] {
      var a, b, c := [f[0].id], Preorder(f[0].kids), Preorder(f[1..]);
      DistinctConcat(a + b, c);
      DistinctConcat(a, b);
      assert f[0].id in a && f[0].id in a + b;
      forall x ensures Inner(f[0].kids, x) ==> x in b {
        if Inner(f[0].kids, x) { InnerIn(f[0].kids, x); }
      }
      forall x ensures Inner(f[1..], x) ==> x in c {
        if Inner(f[1..], x) { InnerIn(f[1..], x); }
      }
      assert forall x :: x in b ==> x in a + b;
      InnerTells(inner, f[0].kids);
      InnerTells(inner, f[1..]);
    }
  }

  lemma {:induction false} FilterCons(keep: Test, x: nat, s: seq<nat>)
    ensures Filter(keep, [x] + s) == (if keep(x) then [x] else []) + Filter(keep, s)
  {
    assert ([x] + s)[1..] == s;
  }

  lemma {:induction false} FilterCommutes(a: Test, b: Test, s: seq<nat>)
    ensures Filter(a, Filter(b, s)) == Filter(b, Filter(a, s))
  {
    if s != [] {
      FilterCommutes(a, b, s[1..]);
      FilterCons(a, s[0], Filter(b, s[1..]));
      FilterCons(b, s[0], Filter(a, s[1..]));
      assert [] + Filter(a, s[1..]) == Filter(a, s[1..]) && [] + Filter(b, s[1..]) == Filter(b, s[1..]);
    }
  }

  lemma {:induction false} FilterIn(keep: Test, s: seq<nat>, x: nat)
    ensures x in Filter(keep, s) <==> x in s && keep(x)
  {
    if s != [] { FilterIn(keep, s[1..], x); }
  }

  /** Below a node that had no children before, the way down starts with an entry that the node adopts. */
  lemma {:induction false} WayDown(symbol: Test, adopts: Test2, inner: Test, f: seq<Tree>, after: Option<nat>, x: nat,
                                   y: nat)
    requires Fits(symbol, adopts, inner, f, after) && x in Above(f, y) && !inner(x)
    ensures symbol(x) && exists c :: adopts(x, c) && (c == y || c in Above(f, y))
  {
    var p, ks := f[0].id, f[0].kids;
    if y !in Preorder(ks) {
      WayDown(symbol, adopts, inner, f[1..], after, x, y);
    } else if x in Above(ks, y) {
      WayDown(symbol, adopts, inner, ks, if inner(p) then None else if |f| > 1 then Some(f[1].id) else after, x, y);
      assert forall c :: c in Above(ks, y) ==> c in Above(f, y);
    } else {
      assert x == p;
      var c := TopOf(ks, y);
      assert adopts(x, c.id);
      assert c.id == y || c.id in Above(f, y);
    }
  }

  lemma {:induction false} TopOf(f: seq<Tree>, y: nat) returns (c: Tree)
    requires y in Preorder(f)
    ensures c in f && (c.id == y || c.id in Above(f, y))
  {
    if f[0].id == y || y in Preorder(f[0].kids) {
      c := f[0];
    } else {
      c := TopOf(f[1..], y);
    }
  }

  function Final(symbol: Test, adopts: Test2, prompted: Test, f: seq<Tree>): seq<Tree> {
    Lifted(prompted, Grown(symbol, adopts, f))
  }

  /** Of the menus that y is in at the end, those that were menus before are exactly the ones with a prompt that y was
      in
      before. */
  lemma FinalKeeps(symbol: Test, adopts: Test2, prompted: Test, f: seq<Tree>, y: nat)
    requires Distinct(Preorder(f))
    ensures Filter((x: nat) => Inner(f, x), Above(Final(symbol, adopts, prompted, f), y))
      == Filter(prompted, Above(f, y))
  {
    var inner := (x: nat) => Inner(f, x);
    var g := Grown(symbol, adopts, f);
    InnerTells(inner, f);
    LiftedAbove(prompted, g, y);
    GrownAbove(symbol, adopts, inner, f, y);
    FilterCommutes(inner, prompted, Above(g, y));
  }

  /** Any other menu that y is in at the end has a prompt and a symbol, had no children, and adopts y or another entry
      that y is in on the way. */
  lemma FinalGains(symbol: Test, adopts: Test2, prompted: Test, f: seq<Tree>, x: nat, y: nat)
    requires Distinct(Preorder(f)) && x in Above(Final(symbol, adopts, prompted, f), y) && x !in Above(f, y)
    ensures prompted(x) && symbol(x) && !Inner(f, x)
    ensures exists c :: adopts(x, c) && (c == y || c in Above(Grown(symbol, adopts, f), y))
  {
    var inner := (x: nat) => Inner(f, x);
    var g := Grown(symbol, adopts, f);
    InnerTells(inner, f);
    LiftedAbove(prompted, g, y);
    FilterIn(prompted, Above(g, y), x);
    GrownAbove(symbol, adopts, inner, f, y);
    FilterIn(inner, Above(g, y), x);
    GrownFits(symbol, adopts, inner, f);
    WayDown(symbol, adopts, inner, g, None, x, y);
  }
}
