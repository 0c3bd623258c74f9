/** What single steps on the pointers of the menu nodes do to the trees they spell out. */
module MenuSteps {
  import opened Common
  import opened MenuTree

  /** Below the roots of f and at the roots, no node without a prompt has children. */
  ghost predicate Flat(prompted: nat -> bool, f: seq<Tree>) {
    f == [] || ((f[0].kids == [] || prompted(f[0].id)) && Flat(prompted, f[0].kids) && Flat(prompted, f[1..]))
  }

  ghost predicate FlatBelow(prompted: nat -> bool, f: seq<Tree>) {
    forall t :: t in f ==> Flat(prompted, t.kids)
  }

  lemma {:induction false} FlatConcat(prompted: nat -> bool, f: seq<Tree>, g: seq<Tree>)
    ensures Flat(prompted, f + g) <==> Flat(prompted, f) && Flat(prompted, g)
  {
    if f == [] {
      assert f + g == g;
    } else {
      assert (f + g)[1..] == f[1..] + g;
      FlatConcat(prompted, f[1..], g);
    }
  }

  lemma {:induction false} FlatRoots(prompted: nat -> bool, f: seq<Tree>)
    requires Flat(prompted, f)
    ensures FlatBelow(prompted, f)
  {
    if f != [] {
      FlatRoots(prompted, f[1..]);
      assert forall t :: t in f ==> t == f[0] || t in f[1..];
    }
  }

  lemma FlatNone(prompted: nat -> bool)
    ensures Flat(prompted, []) && FlatBelow(prompted, [])
  {}

  lemma FlatBelowMore(prompted: nat -> bool, f: seq<Tree>, t: Tree)
    requires FlatBelow(prompted, f) && Flat(prompted, t.kids)
    ensures FlatBelow(prompted, f + [t])
  {}

  /** Mid-way through the children of p: those in ks are done, `rest` is still to come. */
  ghost predicate Along(m0: Nodes, m: Nodes, ks0: seq<Tree>, ks: seq<Tree>, rest: seq<Tree>, p: nat, menu: nat) {
    && p in m0 && p !in Preorder(ks0) && Distinct(Preorder(ks0)) && Untouched(m0, m, Preorder(ks0))
    && Preorder(ks) + Preorder(rest) == Preorder(ks0)
    && Spells(m, ks, m0[p].list, menu, p) && Spells(m, rest, menu, NULL, p)
  }

  lemma AlongNone(m: Nodes, ks0: seq<Tree>, p: nat)
    requires p in m && p !in Preorder(ks0) && Spells(m, ks0, m[p].list, NULL, p) && Distinct(Preorder(ks0))
    ensures Along(m, m, ks0, [], ks0, p, m[p].list) && Preorder([]) == []
  {}

  lemma AlongNext(m0: Nodes, m: Nodes, ks0: seq<Tree>, ks: seq<Tree>, rest: seq<Tree>, p: nat, menu: nat)
    requires Along(m0, m, ks0, ks, rest, p, menu) && menu != NULL
    ensures rest != [] && rest[0].id == menu && menu in m && Spells(m, rest, menu, NULL, p) && Distinct(Preorder(rest))
    ensures Untouched(m, m, Preorder(rest)) && |Preorder(rest)| <= |Preorder(ks0)|
  {
    DistinctConcat(Preorder(ks), Preorder(rest));
  }

  /** One child done: g is what the rest of the list has become. */
  lemma AlongMore(m0: Nodes, m: Nodes, m': Nodes, ks0: seq<Tree>, ks: seq<Tree>, rest: seq<Tree>,
                  g: seq<Tree>, p: nat, menu: nat)
    requires Along(m0, m, ks0, ks, rest, p, menu) && menu != NULL && Preorder(g) == Preorder(rest) && rest != []
    requires Spells(m', g, menu, NULL, p) && Untouched(m, m', Preorder(rest))
    ensures g != [] && menu in m' && Along(m0, m', ks0, ks + [g[0]], g[1..], p, m'[menu].next)
    ensures |Preorder(g[1..])| < |Preorder(rest)| && Preorder(ks + [g[0]]) == Preorder(ks) + Preorder([g[0]])
  {
    DistinctConcat(Preorder(ks), Preorder(rest));
    SpellsKept(m, m', ks, m0[p].list, menu, p);
    assert g != [] && menu in m';
    hide Spells, Preorder;
    MoveOver(m', ks, g, m0[p].list, menu, NULL, p);
    PreorderMove(ks, g);
    UntouchedMore(m0, m, m', Preorder(rest), Preorder(ks0));
  }

  lemma AlongAll(m0: Nodes, m: Nodes, ks0: seq<Tree>, ks: seq<Tree>, rest: seq<Tree>, p: nat)
    requires Along(m0, m, ks0, ks, rest, p, NULL)
    ensures rest == [] && p in m && Untouched(m0, m, Preorder(ks0)) && Preorder(ks) == Preorder(ks0)
    ensures Spells(m, ks, m[p].list, NULL, p)
  {
    assert rest == [];
  }

  lemma SplicedOrder(f: seq<Tree>, g: seq<Tree>)
    requires f != [] && g == [Tree(f[0].id, [])] + f[0].kids + f[1..]
    ensures Preorder(g) == Preorder(f)
  {
    assert g[1..] == f[0].kids + f[1..];
    PreorderConcat(f[0].kids, f[1..]);
  }

  lemma FlattenedFlat(prompted: nat -> bool, m: Nodes, rest: seq<Tree>, g: seq<Tree>, p: nat, menu: nat)
    requires rest != [] && rest[0].id == menu && menu in m && Spells(m, rest, menu, NULL, p)
    requires FlatBelow(prompted, rest)
    requires
      if m[menu].list != NULL && !prompted(menu) then g == [Tree(menu, [])] + rest[0].kids + rest[1..] else g == rest
    ensures Flat(prompted, [g[0]]) && FlatBelow(prompted, g[1..])
    ensures g == if !prompted(menu) then [Tree(menu, [])] + rest[0].kids + rest[1..] else rest
  {
    assert rest[0] in rest;
    FlatRoots(prompted, rest[0].kids);
    assert Flat(prompted, []);
    assert [g[0]][1..] == [];
    if m[menu].list == NULL && rest[0].kids != [] { assert false; }
    if g == rest {
      assert forall x :: x in g[1..] ==> x in rest;
    } else {
      assert g[1..] == rest[0].kids + rest[1..];
      assert forall x :: x in g[1..] ==> x in rest[0].kids || x in rest;
    }
  }

  /** The first i of the trees in ks have parent p already, the others still have `menu`. */
  ghost predicate Moved(m0: Nodes, m: Nodes, ks: seq<Tree>, i: nat, head: nat, last: nat, p: nat, menu: nat) {
    && i <= |ks| && Distinct(Preorder(ks)) && Untouched(m0, m, Preorder(ks))
    && Spells(m, ks[..i], head, last, p) && Spells(m, ks[i..], last, NULL, menu)
  }

  lemma MovedNone(m: Nodes, f: seq<Tree>, menu: nat, p: nat)
    requires f != [] && f[0].id == menu && Spells(m, f, menu, NULL, p) && Distinct(Preorder(f))
    requires m[menu].list != NULL
    ensures Moved(m, m, f[0].kids, 0, m[menu].list, m[menu].list, p, menu) && f[0].kids != []
  {
    Parts(m, f, menu, NULL, p);
    assert f[0].kids[0..] == f[0].kids;
  }

  lemma MovedOne(m0: Nodes, m: Nodes, ks: seq<Tree>, i: nat, head: nat, last: nat, p: nat, menu: nat)
    requires i < |ks| && Moved(m0, m, ks, i, head, last, p, menu)
    ensures last in m && last == ks[i].id
    ensures Moved(m0, m[last := m[last].(parent := p)], ks, i + 1, head, m[last].next, p, menu)
    ensures m[last].next == NULL <==> i + 1 == |ks|
  {
    var m' := m[last := m[last].(parent := p)];
    SplitDistinct(ks, i);
    Reparent(m, ks[i..], last, NULL, menu, p);
    assert ks[i..][1..] == ks[i + 1..] && ks[i..][0] == ks[i];
    FirstUntouched(m0, m, ks, last, p);
    SpellsKept(m, m', ks[..i], head, last, p);
    SpellsConcat(m', ks[..i], [ks[i]], head, last, m[last].next, p);
    hide Spells, Untouched, Preorder, Distinct;
    assert ks[..i] + [ks[i]] == ks[..i + 1];
  }

  lemma SplitDistinct(ks: seq<Tree>, i: nat)
    requires i < |ks| && Distinct(Preorder(ks))
    ensures Distinct(Preorder(ks[i..])) && ks[i].id in Preorder(ks[i..]) && ks[i].id !in Preorder(ks[..i])
    ensures ks[i].id in Preorder(ks)
  {
    hide *;
    var a, b := ks[..i], ks[i..];
    assert a + b == ks;
    PreorderConcat(a, b);
    DistinctConcat(Preorder(a), Preorder(b));
    RootsInPreorder(b, 0);
  }

  lemma FirstUntouched(m0: Nodes, m: Nodes, ks: seq<Tree>, last: nat, p: nat)
    requires Untouched(m0, m, Preorder(ks)) && last in Preorder(ks) && last in m
    ensures Untouched(m0, m[last := m[last].(parent := p)], Preorder(ks))
  {}

  lemma MovedAll(m0: Nodes, m: Nodes, f: seq<Tree>, head: nat, last: nat, p: nat, menu: nat)
    requires f != [] && f[0].id == menu && Spells(m0, f, menu, NULL, p) && Distinct(Preorder(f))
    requires f[0].kids != [] && last == f[0].kids[|f[0].kids| - 1].id && head == m0[menu].list
    requires Moved(m0, m, f[0].kids, |f[0].kids|, head, NULL, p, menu)
    ensures last in m && menu in m && menu != last && m[menu] == m0[menu]
    ensures var m' := m[last := m[last].(next := m[menu].next)][menu := Node(head, NULL, m[menu].parent)];
      Spells(m', [Tree(menu, [])] + f[0].kids + f[1..], menu, NULL, p) && Untouched(m0, m', Preorder(f))
  {
    var ks := f[0].kids;
    assert ks[..|ks|] == ks;
    Parts(m0, f, menu, NULL, p);
    RootsInPreorder(ks, |ks| - 1);
    SpellsKnown(m0, f, menu, NULL, p);
    assert m0[menu].parent == p && Spells(m0, f[1..], m0[menu].next, NULL, p) && Spells(m, ks, head, NULL, p);
    hide Spells, Preorder, Distinct, Moved;
    LinkedIn(m0, m, ks, f[1..], head, last, p, menu);
  }

  /** The children linked in between their old parent and its next sibling. */
  lemma LinkedIn(m0: Nodes, m: Nodes, ks: seq<Tree>, rest: seq<Tree>, head: nat, last: nat, p: nat, menu: nat)
    requires ks != [] && last == ks[|ks| - 1].id && last in Preorder(ks) && last in m && Distinct(Preorder(ks))
    requires Spells(m, ks, head, NULL, p)
    requires menu in m && menu in m0 && menu != NULL && m[menu] == m0[menu] && m0[menu].parent == p
    requires Spells(m0, rest, m0[menu].next, NULL, p)
    requires Untouched(m0, m, Preorder(ks)) && menu !in Preorder(ks) && menu !in Preorder(rest)
    requires forall x :: x in Preorder(ks) ==> x !in Preorder(rest)
    ensures var m' := m[last := m[last].(next := m[menu].next)][menu := Node(head, NULL, m[menu].parent)];
      Spells(m', [Tree(menu, [])] + ks + rest, menu, NULL, p) && Untouched(m0, m', [menu] + Preorder(ks))
  {
    hide Spells, Preorder, Distinct;
    var next := m0[menu].next;
    SpellsEnd(m, ks, head, NULL, p, next);
    var m1 := m[last := m[last].(next := next)];
    var m' := m1[menu := Node(head, NULL, m[menu].parent)];
    SpellsKept(m1, m', ks, head, next, p);
    SpellsApart(m0, m', [menu] + Preorder(ks), rest, next, NULL, p);
    SpellsConcat(m', ks, rest, head, next, NULL, p);
    Leaf(m', menu, ks + rest, p);
    assert [Tree(menu, [])] + ks + rest == [Tree(menu, [])] + (ks + rest);
  }

  lemma Leaf(m: Nodes, menu: nat, f: seq<Tree>, p: nat)
    requires menu in m && menu != NULL && m[menu].list == NULL && m[menu].parent == p
    requires Spells(m, f, m[menu].next, NULL, p)
    ensures Spells(m, [Tree(menu, [])] + f, menu, NULL, p)
  {
    assert ([Tree(menu, [])] + f)[1..] == f;
  }

  /** The children of p are settled but not yet flattened: ks hangs below p, the siblings of p go on at position k. */
  ghost predicate Half(prompted: nat -> bool, m0: Nodes, m: Nodes, f: seq<Tree>, ks: seq<Tree>, k: nat, p: nat,
      par: nat) {
    && 1 <= k <= |f| && p in m && p != NULL && m[p].parent == par && Untouched(m0, m, Preorder(f))
    && [p] + Preorder(ks) + Preorder(f[k..]) == Preorder(f)
    && Spells(m, ks, m[p].list, NULL, p) && Spells(m, f[k..], m[p].next, NULL, par) && FlatBelow(prompted, ks)
  }

  lemma HalfNone(prompted: nat -> bool, m: Nodes, f: seq<Tree>, p: nat, par: nat)
    requires f != [] && f[0].id == p && Spells(m, f, p, NULL, par) && Distinct(Preorder(f))
    ensures p in m && p !in Preorder(f[0].kids) && Spells(m, f[0].kids, m[p].list, NULL, p)
    ensures Distinct(Preorder(f[0].kids))
    ensures |Preorder(f[0].kids)| < |Preorder(f)| && Preorder([]) == []
    ensures m[p].list == NULL ==> f[0] == Tree(p, []) && Half(prompted, m, m, f, [], 1, p, par)
    ensures m[p].list != NULL ==> f[0].kids != []
  {
    Parts(m, f, p, NULL, par);
    if m[p].list == NULL && f[0].kids != [] { assert false; }
  }

  lemma HalfKids(prompted: nat -> bool, m0: Nodes, m: Nodes, f: seq<Tree>, ks: seq<Tree>, p: nat, par: nat)
    requires f != [] && f[0].id == p && Spells(m0, f, p, NULL, par) && Distinct(Preorder(f)) && p in m
    requires Untouched(m0, m, Preorder(f[0].kids)) && Preorder(ks) == Preorder(f[0].kids)
    requires Spells(m, ks, m[p].list, NULL, p) && FlatBelow(prompted, ks)
    ensures Half(prompted, m0, m, f, ks, 1, p, par)
  {
    Parts(m0, f, p, NULL, par);
    SpellsApart(m0, m, Preorder(f[0].kids), f[1..], m0[p].next, NULL, par);
  }

  lemma HalfAdopted(prompted: nat -> bool, m0: Nodes, m: Nodes, f: seq<Tree>, ks: seq<Tree>, k: nat, p: nat, par: nat)
    requires f != [] && f[0] == Tree(p, []) && Spells(m0, f, p, NULL, par) && 1 <= k <= |f| && p in m
    requires m[p].parent == par
    requires Untouched(m0, m, Preorder(f)) && FlatBelow(prompted, ks)
    requires Spells(m, ks, m[p].list, NULL, p) && Spells(m, f[k..], m[p].next, NULL, par)
    requires Preorder(ks) + Preorder(f[k..]) == Preorder(f[1..])
    ensures Half(prompted, m0, m, f, ks, k, p, par)
  {
    LeafFirst(f, p);
    assert p != NULL;
    hide Preorder, Spells, Untouched, FlatBelow;
    Regroup([p], Preorder(ks), Preorder(f[k..]));
  }

  lemma LeafFirst(f: seq<Tree>, p: nat)
    requires f != [] && f[0] == Tree(p, [])
    ensures Preorder(f) == [p] + Preorder(f[1..])
  {
    assert Preorder(f) == [p] + [] + Preorder(f[1..]);
  }

  lemma Regroup(a: seq<nat>, b: seq<nat>, c: seq<nat>)
    ensures a + b + c == a + (b + c)
  {}

  lemma HalfParts(prompted: nat -> bool, m0: Nodes, m: Nodes, f: seq<Tree>, ks: seq<Tree>, k: nat, p: nat, par: nat)
    requires Half(prompted, m0, m, f, ks, k, p, par) && Distinct(Preorder(f))
    ensures p in m && p !in Preorder(ks) && Distinct(Preorder(ks)) && FlatBelow(prompted, ks) && 1 <= k <= |f|
    ensures Spells(m, ks, m[p].list, NULL, p) && forall x :: x in Preorder(ks) ==> x !in Preorder(f[k..])
  {
    hide Preorder, Distinct, Spells, Untouched, FlatBelow;
    DistinctConcat([p] + Preorder(ks), Preorder(f[k..]));
    DistinctConcat([p], Preorder(ks));
    assert p in [p];
  }

  lemma HalfDone(prompted: nat -> bool, m0: Nodes, m: Nodes, m': Nodes, f: seq<Tree>, ks0: seq<Tree>, ks: seq<Tree>,
                 k: nat, p: nat, par: nat)
    requires Half(prompted, m0, m, f, ks0, k, p, par) && Distinct(Preorder(f)) && Preorder(ks) == Preorder(ks0)
    requires Untouched(m, m', Preorder(ks0)) && p in m' && Spells(m', ks, m'[p].list, NULL, p)
    ensures var g := [Tree(p, ks)] + f[k..];
      && Spells(m', g, p, NULL, par) && Preorder(g) == Preorder(f) && g[1..] == f[k..]
      && Preorder([g[0]]) == [p] + Preorder(ks)
    ensures Untouched(m0, m', Preorder(f))
  {
    HalfParts(prompted, m0, m, f, ks0, k, p, par);
    SpellsApart(m, m', Preorder(ks0), f[k..], m[p].next, NULL, par);
    var g := [Tree(p, ks)] + f[k..];
    assert g[1..] == f[k..] && [g[0]][1..] == [];
    UntouchedMore(m0, m, m', Preorder(ks0), Preorder(f));
  }

  /** Mid-way through the siblings that follow p: those in ks have p as parent but are still linked
      behind p, those from position k of f on are as they were. */
  ghost predicate Adopting(m0: Nodes, m: Nodes, f: seq<Tree>, ks: seq<Tree>, k: nat, p: nat, menu: nat, par: nat) {
    && 1 <= k <= |f| && p in m && p in m0 && Untouched(m0, m, Preorder(f[1..]))
    && Preorder(ks) + Preorder(f[k..]) == Preorder(f[1..])
    && Spells(m, ks, m[p].next, menu, p) && Spells(m, f[k..], menu, NULL, par)
  }

  lemma AdoptingNone(m: Nodes, f: seq<Tree>, p: nat, par: nat)
    requires f != [] && f[0] == Tree(p, []) && Spells(m, f, p, NULL, par) && Distinct(Preorder(f))
    ensures p in m && m[p].list == NULL && m[p].parent == par && Adopting(m, m, f, [], 1, p, m[p].next, par)
    ensures Preorder([]) == [] && p !in Preorder(f[1..]) && Distinct(Preorder(f[1..]))
    ensures |Preorder(f[1..])| < |Preorder(f)|
  {
    Parts(m, f, p, NULL, par);
  }

  lemma AdoptingParts(m0: Nodes, m: Nodes, f: seq<Tree>, ks: seq<Tree>, k: nat, p: nat, menu: nat, par: nat)
    requires Adopting(m0, m, f, ks, k, p, menu, par) && p !in Preorder(f[1..]) && Distinct(Preorder(f[1..]))
    ensures 1 <= k <= |f| && p in m && p in m0 && Untouched(m0, m, Preorder(f[1..]))
    ensures Preorder(ks) + Preorder(f[k..]) == Preorder(f[1..])
    ensures Spells(m, ks, m[p].next, menu, p) && Spells(m, f[k..], menu, NULL, par)
    ensures m[p] == m0[p] && Distinct(Preorder(ks)) && Distinct(Preorder(f[k..]))
    ensures p !in Preorder(ks) && p !in Preorder(f[k..]) && forall x :: x in Preorder(ks) ==> x !in Preorder(f[k..])
    ensures |Preorder(f[k..])| <= |Preorder(f[1..])|
  {
    DistinctConcat(Preorder(ks), Preorder(f[k..]));
    assert forall x :: x in Preorder(ks) || x in Preorder(f[k..]) ==> x in Preorder(f[1..]);
  }

  lemma AdoptingMore(m0: Nodes, m: Nodes, f: seq<Tree>, ks: seq<Tree>, k: nat, p: nat, menu: nat, par: nat)
    requires 1 <= k <= |f| && p in m && p in m0 && Untouched(m0, m, Preorder(f[1..]))
    requires Preorder(ks) + Preorder(f[k..]) == Preorder(f[1..])
    requires Spells(m, ks, m[p].next, menu, p) && Spells(m, f[k..], menu, NULL, par)
    ensures Adopting(m0, m, f, ks, k, p, menu, par)
  {}

  lemma AdoptedNone(m0: Nodes, m: Nodes, f: seq<Tree>, ks: seq<Tree>, k: nat, p: nat, menu: nat)
    requires f != [] && ks == [] && p in m && Spells(m, ks, m[p].next, menu, p) && Untouched(m0, m, Preorder(f[1..]))
    ensures m[p].next == menu && Spells(m, ks, NULL, NULL, p) && Untouched(m0, m, Preorder(f))
  {}

  lemma AdoptedAll(m0: Nodes, m1: Nodes, m2: Nodes, f: seq<Tree>, ks: seq<Tree>, k: nat, p: nat)
    requires f != [] && f[0].id == p && k <= |f| && Preorder(ks) + Preorder(f[k..]) == Preorder(f[1..])
    requires Untouched(m0, m1, Preorder(f[1..])) && Untouched(m1, m2, [p] + Preorder(ks))
    ensures Untouched(m0, m2, Preorder(f))
  {
    assert forall x :: x in Preorder(ks) ==> x in Preorder(f[1..]);
  }

  /** One more adopted sibling: the bookkeeping. */
  lemma AdoptOne(m: Nodes, m': Nodes, f: seq<Tree>, ks: seq<Tree>, rest: seq<Tree>, g: seq<Tree>, k: nat, n: nat,
                 head: nat, menu: nat, par: nat, p: nat)
    requires k < |f| && rest == f[k..] && 1 <= n <= |rest| && g != [] && g[1..] == rest[n..]
    requires Preorder(g) == Preorder(rest)
    requires Distinct(Preorder(rest)) && menu in m && menu == g[0].id && m' == m[menu := m[menu].(parent := p)]
    requires Preorder(ks) + Preorder(rest) == Preorder(f[1..]) && forall x :: x in Preorder(ks) ==> x !in Preorder(rest)
    requires Spells(m, ks, head, menu, p)
    requires Spells(m', [g[0]], menu, m[menu].next, p) && Spells(m', g[1..], m[menu].next, NULL, par)
    ensures Spells(m', ks + [g[0]], head, m[menu].next, p) && Spells(m', f[k + n..], m[menu].next, NULL, par)
    ensures Preorder(ks + [g[0]]) + Preorder(f[k + n..]) == Preorder(f[1..])
    ensures Preorder(ks + [g[0]]) == Preorder(ks) + Preorder([g[0]])
    ensures menu in Preorder(f[1..]) && |Preorder(f[k + n..])| < |Preorder(rest)|
  {
    hide Spells, Preorder, Distinct;
    assert f[k + n..] == g[1..];
    PreorderMove(ks, g);
    SpellsKept(m, m', ks, head, menu, p);
    SpellsConcat(m', ks, [g[0]], head, menu, m[menu].next, p);
  }

  /** The adopted segment hangs below p once its end is NULL and p points past it. */
  lemma CutOff(m: Nodes, ks: seq<Tree>, rest: seq<Tree>, menu: nat, par: nat, p: nat, last: nat)
    requires ks != [] && last == ks[|ks| - 1].id && p in m && last in m && m[last].next == menu
    requires p !in Preorder(ks) && p !in Preorder(rest) && forall x :: x in Preorder(ks) ==> x !in Preorder(rest)
    requires Spells(m, rest, menu, NULL, par) && Spells(m[last := m[last].(next := NULL)], ks, m[p].next, NULL, p)
    ensures last in Preorder(ks)
    ensures var m' := m[p := m[p].(list := m[p].next, next := menu)][last := m[last].(next := NULL)];
      Spells(m', ks, m[p].next, NULL, p) && Spells(m', rest, menu, NULL, par)
  {
    RootsInPreorder(ks, |ks| - 1);
    var m1 := m[last := m[last].(next := NULL)];
    var m' := m[p := m[p].(list := m[p].next, next := menu)][last := m[last].(next := NULL)];
    SpellsKept(m1, m', ks, m[p].next, NULL, p);
    SpellsKept(m, m', rest, menu, NULL, par);
  }

  /** A segment that starts at a node holds it. */
  lemma NotEmpty(m: Nodes, f: seq<Tree>, head: nat, par: nat)
    requires Spells(m, f, head, NULL, par) && head != NULL
    ensures f != [] && f[0].id == head && head in m
  {}

  lemma Empty(m: Nodes, f: seq<Tree>, par: nat)
    requires Spells(m, f, NULL, NULL, par)
    ensures f == []
  {}

  /** Going up from q by parent pointers, the next pointers lead to the forests on the stack. */
  ghost predicate Climb(m: Nodes, q: nat, stack: seq<seq<Tree>>)
    decreases |stack|
  {
    if q == NULL then stack == []
    else
      && stack != [] && q in m && Spells(m, stack[0], m[q].next, NULL, m[q].parent)
      && Climb(m, m[q].parent, stack[1..])
  }

  function Remaining(stack: seq<seq<Tree>>): seq<nat> {
    if stack == [] then [] else Preorder(stack[0]) + Remaining(stack[1..])
  }

  /** Where the walk stands: at `menu`, the first root of f, with the stack still to come afterwards. */
  ghost predicate Walking(m: Nodes, f: seq<Tree>, stack: seq<seq<Tree>>, menu: nat, all: seq<nat>, visited: seq<nat>) {
    && (menu == NULL ==> visited == all)
    && (menu != NULL ==>
      && f != [] && menu in m && Spells(m, f, menu, NULL, m[menu].parent)
      && Climb(m, m[menu].parent, stack))
    && visited + Preorder(f) + Remaining(stack) == all
  }

  /** Back up at q, with everything at and below q visited. */
  ghost predicate Climbing(m: Nodes, stack: seq<seq<Tree>>, q: nat, all: seq<nat>, visited: seq<nat>) {
    Climb(m, q, stack) && visited + Remaining(stack) == all
  }

  lemma WalkStart(m: Nodes, t: Tree)
    requires Spells(m, [t], t.id, NULL, NULL)
    ensures t.id in m && Walking(m, t.kids, [[]], m[t.id].list, Preorder(t.kids), [])
  {
    assert [t][1..] == [];
    assert Climb(m, t.id, [[]]);
    assert Remaining([[]]) == [];
  }

  lemma WalkDown(m: Nodes, f: seq<Tree>, stack: seq<seq<Tree>>, menu: nat, all: seq<nat>, visited: seq<nat>)
    requires Walking(m, f, stack, menu, all, visited) && menu != NULL && m[menu].list != NULL
    ensures Walking(m, f[0].kids, [f[1..]] + stack, m[menu].list, all, visited + [menu])
  {
    assert Spells(m, f[0].kids, m[menu].list, NULL, menu);
    var stack' := [f[1..]] + stack;
    assert stack'[1..] == stack;
    assert Climb(m, menu, stack');
    assert Remaining(stack') == Preorder(f[1..]) + Remaining(stack);
  }

  lemma WalkNext(m: Nodes, f: seq<Tree>, stack: seq<seq<Tree>>, menu: nat, all: seq<nat>, visited: seq<nat>)
    requires Walking(m, f, stack, menu, all, visited) && menu != NULL && m[menu].list == NULL
    ensures m[menu].next != NULL ==> Walking(m, f[1..], stack, m[menu].next, all, visited + [menu])
    ensures m[menu].next == NULL ==> Climbing(m, stack, m[menu].parent, all, visited + [menu])
  {
    assert Spells(m, f[0].kids, NULL, NULL, menu) && Spells(m, f[1..], m[menu].next, NULL, m[menu].parent);
    assert f[0].kids == [];
    assert visited + [menu] + Preorder(f[1..]) == visited + Preorder(f);
  }

  lemma WalkUp(m: Nodes, stack: seq<seq<Tree>>, q: nat, all: seq<nat>, visited: seq<nat>)
    requires Climbing(m, stack, q, all, visited)
    ensures q == NULL ==> Walking(m, [], stack, NULL, all, visited)
    ensures q != NULL ==> q in m && stack != []
    ensures q != NULL && m[q].next != NULL ==> Walking(m, stack[0], stack[1..], m[q].next, all, visited)
    ensures q != NULL && m[q].next == NULL ==> Climbing(m, stack[1..], m[q].parent, all, visited)
  {
    if q != NULL && m[q].next == NULL { assert stack[0] == []; }
  }

  lemma WalkAt(m: Nodes, f: seq<Tree>, stack: seq<seq<Tree>>, menu: nat, all: seq<nat>, visited: seq<nat>)
    requires Walking(m, f, stack, menu, all, visited) && menu != NULL
    ensures menu in m && f != [] && |visited| < |all|
  {}

  lemma WalkEnd(m: Nodes, f: seq<Tree>, stack: seq<seq<Tree>>, all: seq<nat>, visited: seq<nat>)
    requires Walking(m, f, stack, NULL, all, visited)
    ensures visited == all
  {}
}
