/** Menu nodes linked by next, list and parent pointers, and the trees they spell out. */
module MenuTree {
  import opened Common

  /** The NULL pointer. */
  const NULL: nat := 0

  datatype Node = Node(next: nat, list: nat, parent: nat)

  type Nodes = map<nat, Node>

  datatype Tree = Tree(id: nat, kids: seq<Tree>)

  function Preorder(f: seq<Tree>): seq<nat> {
    if f == [] then [] else [f[0].id] + Preorder(f[0].kids) + Preorder(f[1..])
  }

  /** From `head` on, the next pointers run through the roots of f, all with parent `par`, up to `end`;
      below each root the list pointer starts its children. */
  ghost predicate Spells(m: Nodes, f: seq<Tree>, head: nat, end: nat, par: nat) {
    if f == [] then head == end
    else
      && head == f[0].id && head != NULL && head in m && m[head].parent == par
      && Spells(m, f[0].kids, m[head].list, NULL, head)
      && Spells(m, f[1..], m[head].next, end, par)
  }

  lemma DistinctConcat(s: seq<nat>, t: seq<nat>)
    ensures Distinct(s + t) <==> Distinct(s) && Distinct(t) && forall x :: x in s ==> x !in t
  {
    if Distinct(s + t) {
      forall i, j | 0 <= i < j < |s| ensures s[i] != s[j] { assert (s + t)[i] != (s + t)[j]; }
      forall i, j | 0 <= i < j < |t| ensures t[i] != t[j] { assert (s + t)[|s| + i] != (s + t)[|s| + j]; }
      forall x | x in s ensures x !in t {
        var i :| 0 <= i < |s| && s[i] == x;
        forall j | 0 <= j < |t| ensures t[j] != x { assert (s + t)[i] != (s + t)[|s| + j]; }
      }
    } else {
      var i, j :| 0 <= i < j < |s + t| && (s + t)[i] == (s + t)[j];
      if i < |s| <= j { assert s[i] in s && s[i] == t[j - |s|]; }
    }
  }

  lemma {:induction false} PreorderConcat(f: seq<Tree>, g: seq<Tree>)
    ensures Preorder(f + g) == Preorder(f) + Preorder(g)
  {
    if f == [] {
      assert f + g == g;
    } else {
      assert (f + g)[1..] == f[1..] + g;
      PreorderConcat(f[1..], g);
    }
  }

  lemma {:induction false} SpellsConcat(m: Nodes, f: seq<Tree>, g: seq<Tree>, head: nat, mid: nat, end: nat, par: nat)
    requires Spells(m, f, head, mid, par) && Spells(m, g, mid, end, par)
    ensures Spells(m, f + g, head, end, par)
  {
    if f == [] {
      assert f + g == g;
    } else {
      assert (f + g)[1..] == f[1..] + g;
      SpellsConcat(m, f[1..], g, m[head].next, mid, end, par);
    }
  }

  /** Changes elsewhere do not matter. */
  lemma {:induction false} SpellsKept(m: Nodes, m': Nodes, f: seq<Tree>, head: nat, end: nat, par: nat)
    requires Spells(m, f, head, end, par)
    requires forall x :: x in Preorder(f) && x in m ==> x in m' && m'[x] == m[x]
    ensures Spells(m', f, head, end, par)
  {
    if f != [] {
      assert head in Preorder(f);
      assert forall x :: x in Preorder(f[0].kids) || x in Preorder(f[1..]) ==> x in Preorder(f);
      SpellsKept(m, m', f[0].kids, m[head].list, NULL, head);
      SpellsKept(m, m', f[1..], m[head].next, end, par);
    }
  }

  lemma {:induction false} SpellsKnown(m: Nodes, f: seq<Tree>, head: nat, end: nat, par: nat)
    requires Spells(m, f, head, end, par)
    ensures forall x :: x in Preorder(f) ==> x in m && x != NULL
  {
    if f != [] {
      SpellsKnown(m, f[0].kids, m[head].list, NULL, head);
      SpellsKnown(m, f[1..], m[head].next, end, par);
    }
  }

  /** The last root of a segment decides where it ends. */
  lemma {:induction false} SpellsEnd(m: Nodes, f: seq<Tree>, head: nat, end: nat, par: nat, e: nat)
    requires f != [] && Spells(m, f, head, end, par) && Distinct(Preorder(f))
    ensures var last := f[|f| - 1].id;
      last in m && m[last].next == end && Spells(m[last := m[last].(next := e)], f, head, e, par)
  {
    var last := f[|f| - 1].id;
    Parts(m, f, head, end, par);
    SpellsKnown(m, f, head, end, par);
    RootsInPreorder(f, |f| - 1);
    var m' := m[last := m[last].(next := e)];
    if |f| > 1 {
      RootsInPreorder(f[1..], |f| - 2);
      SpellsEnd(m, f[1..], m[head].next, end, par, e);
    }
    hide Preorder, Distinct;
    SpellsKept(m, m', f[0].kids, m[head].list, NULL, head);
  }

  lemma {:induction false} RootsInPreorder(f: seq<Tree>, i: nat)
    requires i < |f|
    ensures f[i].id in Preorder(f)
  {
    if i > 0 { RootsInPreorder(f[1..], i - 1); }
  }

  /** The first tree of the second segment moves over to the first. */
  lemma MoveOver(m: Nodes, f: seq<Tree>, g: seq<Tree>, head: nat, mid: nat, end: nat, par: nat)
    requires Spells(m, f, head, mid, par) && Spells(m, g, mid, end, par) && g != []
    ensures Spells(m, f + [g[0]], head, m[mid].next, par) && Spells(m, g[1..], m[mid].next, end, par)
    ensures Preorder(f + [g[0]]) == Preorder(f) + Preorder([g[0]])
    ensures Preorder(f + [g[0]]) + Preorder(g[1..]) == Preorder(f) + Preorder(g)
    ensures Preorder([g[0]]) == [g[0].id] + Preorder(g[0].kids)
  {
    assert [g[0]][1..] == [];
    SpellsConcat(m, f, [g[0]], head, mid, m[mid].next, par);
    PreorderConcat(f, [g[0]]);
    PreorderConcat([g[0]], g[1..]);
    assert [g[0]] + g[1..] == g;
  }

  lemma PreorderMove(f: seq<Tree>, g: seq<Tree>)
    requires g != []
    ensures Preorder(f + [g[0]]) == Preorder(f) + Preorder([g[0]])
    ensures Preorder(f + [g[0]]) + Preorder(g[1..]) == Preorder(f) + Preorder(g)
    ensures g[0].id in Preorder(g) && |Preorder(g[1..])| < |Preorder(g)|
  {
    PreorderConcat(f, [g[0]]);
    PreorderConcat([g[0]], g[1..]);
    assert [g[0]] + g[1..] == g;
    assert [g[0]][1..] == [];
  }

  /** Nodes outside a list of ids are untouched. */
  ghost predicate Untouched(m: Nodes, m': Nodes, ids: seq<nat>) {
    m'.Keys == m.Keys && forall x :: x in m && x !in ids ==> m'[x] == m[x]
  }

  lemma UntouchedAt(m: Nodes, m': Nodes, ids: seq<nat>, x: nat)
    requires Untouched(m, m', ids) && x in m && x !in ids
    ensures x in m' && m'[x] == m[x]
  {}

  lemma UntouchedMore(m: Nodes, m1: Nodes, m2: Nodes, ids1: seq<nat>, ids: seq<nat>)
    requires Untouched(m, m1, ids) && Untouched(m1, m2, ids1) && forall x :: x in ids1 ==> x in ids
    ensures Untouched(m, m2, ids)
  {}

  /** A segment whose ids are none of those changed still spells the same. */
  lemma SpellsApart(m: Nodes, m': Nodes, ids: seq<nat>, f: seq<Tree>, head: nat, end: nat, par: nat)
    requires Spells(m, f, head, end, par) && Untouched(m, m', ids) && forall x :: x in Preorder(f) ==> x !in ids
    ensures Spells(m', f, head, end, par)
  {
    SpellsKept(m, m', f, head, end, par);
  }

  /** The parts of a non-empty segment. */
  lemma Parts(m: Nodes, f: seq<Tree>, head: nat, end: nat, par: nat)
    requires f != [] && Spells(m, f, head, end, par) && Distinct(Preorder(f))
    ensures Preorder(f) == [head] + Preorder(f[0].kids) + Preorder(f[1..])
    ensures Distinct(Preorder(f[0].kids)) && Distinct(Preorder(f[1..]))
    ensures head !in Preorder(f[0].kids) && head !in Preorder(f[1..])
    ensures forall x :: x in Preorder(f[0].kids) ==> x !in Preorder(f[1..])
  {
    DistinctConcat([head] + Preorder(f[0].kids), Preorder(f[1..]));
    DistinctConcat([head], Preorder(f[0].kids));
  }

  /** Giving the first root another parent cuts it off as a segment of its own. */
  lemma Reparent(m: Nodes, g: seq<Tree>, head: nat, end: nat, par: nat, p: nat)
    requires g != [] && Spells(m, g, head, end, par) && Distinct(Preorder(g))
    ensures head in m
    ensures var m' := m[head := m[head].(parent := p)];
      && Spells(m', [g[0]], head, m[head].next, p) && Spells(m', g[1..], m[head].next, end, par)
      && Untouched(m, m', [head])
  {
    Parts(m, g, head, end, par);
    var m' := m[head := m[head].(parent := p)];
    SpellsKept(m, m', g[0].kids, m[head].list, NULL, head);
    SpellsKept(m, m', g[1..], m[head].next, end, par);
    assert [g[0]][1..] == [];
  }

  lemma DistinctMultiset(s: seq<nat>, t: seq<nat>)
    requires Distinct(s) && multiset(s) == multiset(t)
    ensures Distinct(t)
  {
    forall i, j | 0 <= i < j < |t| ensures t[i] != t[j] {
      if t[i] == t[j] {
        CountTwo(t, i, j);
        CountOne(s, t[i]);
      }
    }
  }

  lemma {:induction false} CountOne(s: seq<nat>, x: nat)
    requires Distinct(s)
    ensures multiset(s)[x] <= 1
  {
    if s != [] {
      var n := |s| - 1;
      assert s == s[..n] + [s[n]];
      CountOne(s[..n], x);
      assert s[n] !in s[..n];
      assert s[n] !in multiset(s[..n]);
    }
  }

  lemma CountTwo(t: seq<nat>, i: nat, j: nat)
    requires i < j < |t| && t[i] == t[j]
    ensures multiset(t)[t[i]] >= 2
  {
    assert t == t[..j] + [t[j]] + t[j + 1..];
    assert t[..j][i] in t[..j];
    assert t[i] in multiset(t[..j]);
  }
}
