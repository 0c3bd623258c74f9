/** menu_finalize and the walk of conf_write over the finished tree. */
module Menu {
  import opened Common
  import opened MenuTree
  import opened MenuSteps
  import opened MenuSpec

  class Menus {
    var nodes: Nodes

    /** The nodes for which menu_finalize has been called, in the order in which the calls end. */
    var finalized: seq<nat>

    /** Whether a node has a symbol, whether it has a prompt text, and what the dependency tests
        answer for a node and one of its following siblings. */
    const hasSymbol: nat -> bool
    const prompted: nat -> bool
    const adopts: (nat, nat) -> bool

    /** The loop over the children: each call may shorten what is left of the list. */
    method FinalizeKids(p: nat, ghost ks0: seq<Tree>) returns (ghost ks: seq<Tree>)
      requires p in nodes && p !in Preorder(ks0) && Spells(nodes, ks0, nodes[p].list, NULL, p)
      requires Distinct(Preorder(ks0))
      modifies this
      ensures Untouched(old(nodes), nodes, Preorder(ks0)) && Preorder(ks) == Preorder(ks0) && p in nodes
      ensures Spells(nodes, ks, nodes[p].list, NULL, p) && FlatBelow(prompted, ks)
      ensures ks == LiftedBelow(prompted, Grown(hasSymbol, adopts, ks0))
      ensures multiset(finalized) == old(multiset(finalized)) + multiset(Preorder(ks))
      decreases |Preorder(ks0)|, 2
    {
      hide *;
      GrownEnds(hasSymbol, adopts, prompted, ks0, []);
      FlatNone(prompted);
      AlongNone(nodes, ks0, p);
      var menu := nodes[p].list;
      ks := [];
      ghost var rest := ks0;
      while menu != NULL
        invariant Along(old(nodes), nodes, ks0, ks, rest, p, menu) && FlatBelow(prompted, ks)
        invariant Growing(hasSymbol, adopts, prompted, ks0, ks, rest)
        invariant multiset(finalized) == old(multiset(finalized)) + multiset(Preorder(ks))
        decreases |Preorder(rest)|
      {
        ghost var before := nodes;
        AlongNext(old(nodes), nodes, ks0, ks, rest, p, menu);
        ghost var g, k := Finalize(menu, rest, p);
        GrownStep(hasSymbol, adopts, prompted, ks0, ks, rest, g[0], k);
        AlongMore(old(nodes), before, nodes, ks0, ks, rest, g, p, menu);
        FlatBelowMore(prompted, ks, g[0]);
        ks, rest := ks + [g[0]], g[1..];
        menu := nodes[menu].next;
      }
      AlongAll(old(nodes), nodes, ks0, ks, rest, p);
      GrownEnds(hasSymbol, adopts, prompted, ks0, ks);
    }

    /** A node without children takes over the following siblings that depend on it. */
    method Adopt(p: nat, ghost f: seq<Tree>, ghost par: nat) returns (ghost ks: seq<Tree>, ghost k: nat)
      requires f != [] && f[0] == Tree(p, []) && Spells(nodes, f, p, NULL, par) && Distinct(Preorder(f))
      modifies this
      ensures Untouched(old(nodes), nodes, Preorder(f)) && 1 <= k <= |f| && p in nodes && nodes[p].parent == par
      ensures Spells(nodes, ks, nodes[p].list, NULL, p) && Spells(nodes, f[k..], nodes[p].next, NULL, par)
      ensures Preorder(ks) + Preorder(f[k..]) == Preorder(f[1..]) && FlatBelow(prompted, ks)
      ensures (forall t :: t in ks ==> adopts(p, t.id)) && (k < |f| ==> !adopts(p, f[k].id))
      ensures var r := Taken(hasSymbol, adopts, p, f[1..]); ks == LiftedBelow(prompted, r.0) && k == r.1 + 1
      ensures multiset(finalized) == old(multiset(finalized)) + multiset(Preorder(ks))
      decreases |Preorder(f)|, 0
    {
      hide *;
      FlatNone(prompted);
      AdoptingNone(nodes, f, p, par);
      TakenEnds(hasSymbol, adopts, prompted, p, f[1..], [], 0);
      var last, menu := NULL, nodes[p].next;
      ks, k := [], 1;
      while menu != NULL
        invariant Adopting(old(nodes), nodes, f, ks, k, p, menu, par) && k <= |f| && FlatBelow(prompted, ks)
        invariant 1 <= k && Taking(hasSymbol, adopts, prompted, p, f[1..], ks, k - 1)
        invariant (last == NULL <==> ks == []) && (ks != [] ==> last == ks[|ks| - 1].id)
        invariant multiset(finalized) == old(multiset(finalized)) + multiset(Preorder(ks))
        decreases |Preorder(f[k..])|
      {
        if !adopts(p, menu) { break; }
        last := menu;
        ghost var t, n := AdoptNext(old(nodes), p, f, ks, k, menu, par);
        assert f[1..][k - 1..] == f[k..];
        TakenStep(hasSymbol, adopts, prompted, p, f[1..], ks, k - 1, t, n);
        FlatBelowMore(prompted, ks, t);
        ks, k := ks + [t], k + n;
        menu := nodes[menu].next;
      }
      AdoptingParts(old(nodes), nodes, f, ks, k, p, menu, par);
      TakenStops(hasSymbol, adopts, prompted, p, nodes, f, ks, k, menu, par);
      if last != NULL {
        ghost var before := nodes;
        TakeOver(p, last, ks, f[k..], menu, par);
        AdoptedAll(old(nodes), before, nodes, f, ks, k, p);
      } else {
        AdoptedNone(old(nodes), nodes, f, ks, k, p, menu);
      }
    }

    /** One more sibling: finalized first, then given its new parent. */
    method AdoptNext(ghost m0: Nodes, p: nat, ghost f: seq<Tree>, ghost ks: seq<Tree>, ghost k: nat, menu: nat,
        ghost par: nat)
      returns (ghost t: Tree, ghost n: nat)
      requires menu != NULL && f != [] && p !in Preorder(f[1..]) && Distinct(Preorder(f[1..]))
      requires Adopting(m0, nodes, f, ks, k, p, menu, par) && |Preorder(f[1..])| < |Preorder(f)|
      modifies this
      ensures t.id == menu && menu in nodes && k + n <= |f| && Flat(prompted, t.kids)
      ensures k < |f| && f[k].id == menu && n == First(hasSymbol, adopts, f[k..]).1
      ensures t == Tree(menu, Lifted(prompted, First(hasSymbol, adopts, f[k..]).0.kids))
      ensures Adopting(m0, nodes, f, ks + [t], k + n, p, nodes[menu].next, par)
      ensures multiset(finalized) == old(multiset(finalized)) + multiset(Preorder([t]))
      ensures Preorder(ks + [t]) == Preorder(ks) + Preorder([t])
      ensures |Preorder(f[k + n..])| < |Preorder(f[k..])|
      decreases |Preorder(f)|, 0, 0
    {
      hide *;
      AdoptingParts(m0, nodes, f, ks, k, p, menu, par);
      ghost var rest, before := f[k..], nodes;
      NotEmpty(nodes, rest, menu, par);
      ghost var g;
      g, n := Finalize(menu, rest, par);
      t := g[0];
      UntouchedAt(before, nodes, Preorder(rest), p);
      SpellsApart(before, nodes, Preorder(rest), ks, nodes[p].next, menu, p);
      UntouchedMore(m0, before, nodes, Preorder(rest), Preorder(f[1..]));
      Reparent(nodes, g, menu, NULL, par, p);
      before := nodes;
      nodes := nodes[menu := nodes[menu].(parent := p)];
      AdoptOne(before, nodes, f, ks, rest, g, k, n, nodes[p].next, menu, par, p);
      UntouchedMore(m0, before, nodes, [menu], Preorder(f[1..]));
      AdoptingMore(m0, nodes, f, ks + [t], k + n, p, nodes[menu].next, par);
    }

    /** The segment up to `last` becomes the list of p. */
    method TakeOver(p: nat, last: nat, ghost ks: seq<Tree>, ghost rest: seq<Tree>, ghost menu: nat, ghost par: nat)
      requires p in nodes && ks != [] && last == ks[|ks| - 1].id && Distinct(Preorder(ks))
      requires p !in Preorder(ks) && p !in Preorder(rest) && forall x :: x in Preorder(ks) ==> x !in Preorder(rest)
      requires Spells(nodes, ks, nodes[p].next, menu, p) && Spells(nodes, rest, menu, NULL, par)
      modifies this`nodes
      ensures p in nodes && Untouched(old(nodes), nodes, [p] + Preorder(ks)) && nodes[p].parent == old(nodes)[p].parent
      ensures Spells(nodes, ks, nodes[p].list, NULL, p) && Spells(nodes, rest, nodes[p].next, NULL, par)
    {
      SpellsEnd(nodes, ks, nodes[p].next, menu, p, NULL);
      CutOff(nodes, ks, rest, menu, par, p, last);
      hide Spells, Preorder, Distinct;
      nodes := nodes[p := nodes[p].(list := nodes[p].next)];
      nodes := nodes[p := nodes[p].(next := nodes[last].next)];
      nodes := nodes[last := nodes[last].(next := NULL)];
      assert nodes == old(nodes)[p := old(nodes)[p].(list := old(nodes)[p].next,
        next := menu)][last := old(nodes)[last].(next := NULL)];
    }

    /** Children of children without a prompt move up behind their parent. */
    method Flatten(p: nat, ghost ks0: seq<Tree>) returns (ghost ks: seq<Tree>)
      requires p in nodes && p !in Preorder(ks0) && Spells(nodes, ks0, nodes[p].list, NULL, p)
      requires Distinct(Preorder(ks0))
      requires FlatBelow(prompted, ks0)
      modifies this`nodes
      ensures Untouched(old(nodes), nodes, Preorder(ks0)) && Preorder(ks) == Preorder(ks0) && p in nodes
      ensures Spells(nodes, ks, nodes[p].list, NULL, p) && Flat(prompted, ks)
      ensures MovesUp(prompted, ks0, ks) && ks == Dissolved(prompted, ks0)
    {
      hide *;
      DissolvedEnds(prompted, ks0, []);
      AlongNone(nodes, ks0, p);
      FlatNone(prompted);
      ghost var rest := ks0;
      var menu := nodes[p].list;
      ks := [];
      while menu != NULL
        invariant Along(old(nodes), nodes, ks0, ks, rest, p, menu) && Flat(prompted, ks) && FlatBelow(prompted, rest)
        invariant Dissolving(prompted, ks0, ks, rest)
        decreases |Preorder(rest)|
      {
        ghost var before := nodes;
        AlongNext(old(nodes), nodes, ks0, ks, rest, p, menu);
        ghost var g := rest;
        if nodes[menu].list != NULL && !prompted(menu) {
          g := Splice(menu, p, rest);
        }
        FlattenedFlat(prompted, before, rest, g, p, menu);
        DissolvedStep(prompted, ks0, ks, rest, g);
        AlongMore(old(nodes), before, nodes, ks0, ks, rest, g, p, menu);
        FlatConcat(prompted, ks, [g[0]]);
        ks, rest := ks + [g[0]], g[1..];
        menu := nodes[menu].next;
      }
      AlongAll(old(nodes), nodes, ks0, ks, rest, p);
      DissolvedEnds(prompted, ks0, ks);
      DissolvedMoves(prompted, ks0);
    }

    /** The children of `menu` get its parent and are linked in behind it. */
    method Splice(menu: nat, p: nat, ghost f: seq<Tree>) returns (ghost g: seq<Tree>)
      requires f != [] && f[0].id == menu && Spells(nodes, f, menu, NULL, p) && Distinct(Preorder(f))
      requires menu in nodes && nodes[menu].list != NULL
      modifies this`nodes
      ensures g == [Tree(menu, [])] + f[0].kids + f[1..] && Spells(nodes, g, menu, NULL, p)
      ensures Untouched(old(nodes), nodes, Preorder(f)) && Preorder(g) == Preorder(f)
    {
      hide Spells, Preorder, Distinct, Moved;
      ghost var ks, head := f[0].kids, nodes[menu].list;
      MovedNone(nodes, f, menu, p);
      var last: nat := nodes[menu].list;
      ghost var i: nat := 0;
      while true
        invariant Moved(old(nodes), nodes, ks, i, head, last, p, menu) && i < |ks|
        decreases |ks| - i
      {
        MovedOne(old(nodes), nodes, ks, i, head, last, p, menu);
        nodes := nodes[last := nodes[last].(parent := p)];
        i := i + 1;
        if nodes[last].next == NULL { break; }
        last := nodes[last].next;
      }
      MovedAll(old(nodes), nodes, f, head, last, p, menu);
      ghost var m := nodes;
      nodes := nodes[last := nodes[last].(next := nodes[menu].next)];
      nodes := nodes[menu := nodes[menu].(next := nodes[menu].list)];
      nodes := nodes[menu := nodes[menu].(list := NULL)];
      assert nodes == m[last := m[last].(next := m[menu].next)][menu := Node(head, NULL, m[menu].parent)];
      g := [Tree(menu, [])] + f[0].kids + f[1..];
      SplicedOrder(f, g);
    }

    /** menu_finalize(p), where f is the list of siblings from p on: p may take over siblings that follow it. */
    method Finalize(p: nat, ghost f: seq<Tree>, ghost par: nat) returns (ghost g: seq<Tree>, ghost k: nat)
      requires f != [] && f[0].id == p && Spells(nodes, f, p, NULL, par) && Distinct(Preorder(f))
      modifies this
      ensures g != [] && g[0].id == p && Spells(nodes, g, p, NULL, par)
      ensures Preorder(g) == Preorder(f) && 1 <= k <= |f| && g[1..] == f[k..]
      ensures Untouched(old(nodes), nodes, Preorder(f)) && Flat(prompted, g[0].kids)
      ensures f[0].kids == [] && hasSymbol(p) && k < |f| ==> !adopts(p, f[k].id)
      ensures f[0].kids != [] || !hasSymbol(p) ==> k == 1
      ensures var r := First(hasSymbol, adopts, f); g[0] == Tree(p, Lifted(prompted, r.0.kids)) && k == r.1
      ensures multiset(finalized) == old(multiset(finalized)) + multiset(Preorder([g[0]]))
      decreases |Preorder(f)|, 1
    {
      hide *;
      FirstIs(hasSymbol, adopts, f);
      LiftedNone(prompted);
      HalfNone(prompted, nodes, f, p, par);
      ghost var ks := f[0].kids;
      k := 1;
      if nodes[p].list != NULL {
        ks := FinalizeKids(p, f[0].kids);
        HalfKids(prompted, old(nodes), nodes, f, ks, p, par);
      } else if hasSymbol(p) {
        ks, k := Adopt(p, f, par);
        HalfAdopted(prompted, old(nodes), nodes, f, ks, k, p, par);
      }
      ghost var before, ks1 := nodes, ks;
      HalfParts(prompted, old(nodes), nodes, f, ks, k, p, par);
      DissolvedLast(prompted, First(hasSymbol, adopts, f).0.kids);
      ks := Flatten(p, ks);
      finalized := finalized + [p];
      g := [Tree(p, ks)] + f[k..];
      HalfDone(prompted, old(nodes), before, nodes, f, ks1, ks, k, p, par);
    }

    /** The loop of conf_write over the finished menus, without a stack: down, else next, else up to a next. */
    method Walk(root: nat, ghost t: Tree) returns (visited: seq<nat>)
      requires root == t.id && Spells(nodes, [t], root, NULL, NULL)
      ensures visited == Preorder(t.kids)
    {
      hide Walking, Climbing, Preorder, Spells;
      WalkStart(nodes, t);
      ghost var f, stack, all := t.kids, [[]], Preorder(t.kids);
      var menu: nat := nodes[root].list;
      visited := [];
      while menu != NULL
        invariant Walking(nodes, f, stack, menu, all, visited)
        decreases |all| - |visited|
      {
        WalkAt(nodes, f, stack, menu, all, visited);
        if nodes[menu].list != NULL {
          WalkDown(nodes, f, stack, menu, all, visited);
          visited := visited + [menu];
          f, stack := f[0].kids, [f[1..]] + stack;
          menu := nodes[menu].list;
          continue;
        }
        WalkNext(nodes, f, stack, menu, all, visited);
        visited := visited + [menu];
        if nodes[menu].next != NULL {
          f := f[1..];
          menu := nodes[menu].next;
        } else {
          menu := nodes[menu].parent;
          f := [];
          while menu != NULL
            invariant Climbing(nodes, stack, menu, all, visited) && f == []
            decreases |stack|
          {
            WalkUp(nodes, stack, menu, all, visited);
            if nodes[menu].next != NULL {
              f, stack := stack[0], stack[1..];
              menu := nodes[menu].next;
              break;
            }
            menu := nodes[menu].parent;
            stack := stack[1..];
          }
          if f == [] { WalkUp(nodes, stack, menu, all, visited); }
        }
      }
      WalkEnd(nodes, f, stack, all, visited);
    }

    /** All of it: every menu entry is finalized exactly once, and the walk afterwards meets the entries in
        the order in which the configuration language listed them, whatever the dependency tests answered. */
    method FinalizeAndWalk(root: nat, ghost t: Tree) returns (visited: seq<nat>, ghost t': Tree)
      requires root == t.id && Spells(nodes, [t], root, NULL, NULL) && Distinct(Preorder([t])) && finalized == []
      modifies this
      ensures visited == Preorder(t.kids)
      ensures multiset(finalized) == multiset(Preorder([t])) && Distinct(finalized)
      ensures t'.id == root && Spells(nodes, [t'], root, NULL, NULL) && Preorder([t']) == Preorder([t])
      ensures Flat(prompted, t'.kids) && t'.kids == Final(hasSymbol, adopts, prompted, t.kids)
    {
      ghost var g, k := Finalize(root, [t], NULL);
      t' := g[0];
      assert g == [t'];
      assert Preorder([t']) == [root] + Preorder(t'.kids) && Preorder([t]) == [root] + Preorder(t.kids) by {
        assert [t'][1..] == [] && [t][1..] == [];
      }
      assert Preorder(t'.kids) == Preorder([t'])[1..] && Preorder(t.kids) == Preorder([t])[1..];
      DistinctMultiset(Preorder([t]), finalized);
      visited := Walk(root, t');
    }
  }
}
