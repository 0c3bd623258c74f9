/** The block map of one file of the SFS image: direct, indirect and double-indirect pointers. */
module SfsMap {

  const NDIRECT := 12
  const NENTRY := 1024
  const L1_NBLKS := 1036
  const LN_NBLKS := 32768

  datatype Kind = FileKind | DirKind | LinkKind

  /** cache_inode and the inode inside it. Pointers are block numbers, 0 when unset; l1 and l2 name the
      cached index blocks, 0 for NULL. */
  datatype Inode = Inode(
    kind: Kind, host: nat, size: nat, slots: nat, parent: nat, nlinks: nat,
    blocks: nat, direct: seq<nat>, indirect: nat, dbIndirect: nat, nblks: nat, l1: nat, l2: nat)

  /** Cached index blocks by block number. */
  type Cache = map<nat, seq<nat>>

  /** What an index block serves: the single-indirect block, the double-indirect block, or slot j of the latter. */
  datatype Role = Single | Double | Leaf(j: nat)
  datatype Owner = Owner(file: nat, role: Role)

  function Entry(cache: Cache, b: nat, k: nat): nat {
    if b in cache && k < |cache[b]| then cache[b][k] else 0
  }

  /** Follow the pointers for logical block k. */
  function Lookup(f: Inode, cache: Cache, k: nat): nat {
    if k < NDIRECT then (if k < |f.direct| then f.direct[k] else 0)
    else if k < L1_NBLKS then Entry(cache, f.indirect, k - NDIRECT)
    else
      var m := k - L1_NBLKS;
      Entry(cache, Entry(cache, f.dbIndirect, m / NENTRY), m % NENTRY)
  }

  predicate Owned(cache: Cache, owner: map<nat, Owner>, b: nat, o: Owner) {
    b != 0 && b in cache && |cache[b]| == NENTRY && b in owner && owner[b] == o
  }

  /** Leaf index blocks in use for a file of n blocks. */
  function Leaves(n: nat): nat { if n <= L1_NBLKS then 0 else (n - L1_NBLKS + NENTRY - 1) / NENTRY }

  /** Index blocks exist exactly as far as the length needs them. */
  predicate Shaped(id: nat, f: Inode, cache: Cache, owner: map<nat, Owner>, n: nat) {
    && f.nblks == f.blocks == n <= LN_NBLKS && |f.direct| == NDIRECT
    && (if n <= NDIRECT then f.indirect == 0 else Owned(cache, owner, f.indirect, Owner(id, Single)))
    && (if n <= L1_NBLKS then f.dbIndirect == 0 else Owned(cache, owner, f.dbIndirect, Owner(id, Double)))
    && (forall j :: 0 <= j < Leaves(n) ==> Owned(cache, owner, Entry(cache, f.dbIndirect, j), Owner(id, Leaf(j))))
    && (forall j :: Leaves(n) <= j < NENTRY ==> Entry(cache, f.dbIndirect, j) == 0)
  }

  /** The cached l1 is the index block that the next append within the same block needs, and l2 the double one. */
  predicate Warm(f: Inode, cache: Cache, n: nat) {
    && f.l2 == f.dbIndirect
    && f.l1 == if n <= L1_NBLKS then f.indirect else Entry(cache, f.dbIndirect, Leaves(n) - 1)
  }

  /** The pointers of file id spell out exactly the block numbers of `list`. */
  predicate Mapped(id: nat, f: Inode, cache: Cache, owner: map<nat, Owner>, list: seq<nat>) {
    && Shaped(id, f, cache, owner, |list|)
    && Warm(f, cache, |list|)
    && forall k :: 0 <= k < |list| ==> Lookup(f, cache, k) == list[k]
  }

  /** A file is untouched by changes to index blocks of other files. */
  lemma MappedElsewhere(id: nat, f: Inode, cache: Cache, owner: map<nat, Owner>, cache': Cache, owner': map<nat, Owner>,
      list: seq<nat>)
    requires Mapped(id, f, cache, owner, list)
    requires forall b :: b in cache && b in owner && owner[b].file == id ==>
               b in cache' && cache'[b] == cache[b] && b in owner' && owner'[b] == owner[b]
    requires 0 !in cache'
    requires 0 !in cache
    ensures Mapped(id, f, cache', owner', list)
  {
    var n := |list|;
    assert forall j :: 0 <= j < NENTRY ==> Entry(cache', f.dbIndirect, j) == Entry(cache, f.dbIndirect, j);
    forall k | 0 <= k < n ensures Lookup(f, cache', k) == Lookup(f, cache, k) {
      if k >= L1_NBLKS {
        var m := k - L1_NBLKS;
        assert m / NENTRY < Leaves(n);
        assert Owned(cache, owner, Entry(cache, f.dbIndirect, m / NENTRY), Owner(id, Leaf(m / NENTRY)));
      }
    }
    forall j | 0 <= j < Leaves(n) ensures Owned(cache', owner', Entry(cache', f.dbIndirect, j), Owner(id, Leaf(j))) {
      assert Owned(cache, owner, Entry(cache, f.dbIndirect, j), Owner(id, Leaf(j)));
    }
  }

  // ----- one append -----

  /** A fresh index block. */
  function Zeros(): (z: seq<nat>)
    ensures |z| == NENTRY && forall k :: 0 <= k < NENTRY ==> z[k] == 0
  {
    seq(NENTRY, _ => 0)
  }

  function Grown(f: Inode): Inode { f.(nblks := f.nblks + 1, blocks := f.blocks + 1) }

  lemma AppendDirect(id: nat, f: Inode, cache: Cache, owner: map<nat, Owner>, list: seq<nat>, ino: nat)
    requires Mapped(id, f, cache, owner, list) && |list| < NDIRECT
    ensures Mapped(id, Grown(f).(direct := f.direct[|list| := ino]), cache, owner, list + [ino])
  {
    var n, f' := |list|, Grown(f).(direct := f.direct[|list| := ino]);
    forall k | 0 <= k < n + 1 ensures Lookup(f', cache, k) == (list + [ino])[k] {
      if k < n { assert Lookup(f, cache, k) == list[k]; }
    }
  }

  /** Block b has just been allocated for the given role, or already serves it. */
  predicate Provided(cache: Cache, owner: map<nat, Owner>, cache': Cache, owner': map<nat, Owner>, isNew: bool, b: nat,
      o: Owner) {
    if isNew then b != 0 && b !in cache && b !in owner && cache' == cache[b := Zeros()] && owner' == owner[b := o]
    else cache' == cache && owner' == owner
  }

  function SetAt(block: seq<nat>, k: nat, v: nat): seq<nat>
    requires k < |block|
  {
    block[k := v]
  }

  /** Cache after entry k of block b has been set. */
  function SetEntry(cache: Cache, b: nat, k: nat, v: nat): Cache {
    if b in cache && k < |cache[b]| then cache[b := SetAt(cache[b], k, v)] else cache
  }

  lemma SetEntryAt(cache: Cache, b: nat, k: nat, v: nat, c: nat, i: nat)
    requires b in cache && k < |cache[b]|
    ensures Entry(SetEntry(cache, b, k, v), c, i) == if c == b && i == k then v else Entry(cache, c, i)
  {}

  lemma AppendSingle(id: nat, f: Inode, cache: Cache, owner: map<nat, Owner>, list: seq<nat>, ino: nat,
                     b: nat, cache1: Cache, owner1: map<nat, Owner>)
    requires Mapped(id, f, cache, owner, list) && NDIRECT <= |list| < L1_NBLKS && 0 !in cache
    requires Provided(cache, owner, cache1, owner1, |list| == NDIRECT, b, Owner(id, Single))
    requires |list| > NDIRECT ==> b == f.indirect
    ensures b in cache1 && |list| - NDIRECT < |cache1[b]|
    ensures Mapped(id, Grown(f).(indirect := b, l1 := b), SetEntry(cache1, b, |list| - NDIRECT, ino), owner1,
      list + [ino])
  {
    var n := |list|;
    var f' := Grown(f).(indirect := b, l1 := b);
    var cache' := SetEntry(cache1, b, n - NDIRECT, ino);
    assert b in cache1 && |cache1[b]| == NENTRY;
    forall k | 0 <= k < n + 1 ensures Lookup(f', cache', k) == (list + [ino])[k] {
      if k < n { assert Lookup(f, cache, k) == list[k]; }
      if k >= NDIRECT { SetEntryAt(cache1, b, n - NDIRECT, ino, b, k - NDIRECT); }
    }
    assert forall j :: 0 <= j < NENTRY ==> Entry(cache', f.dbIndirect, j) == 0;
  }

  /** The leaf that the append needs is in place. */
  predicate LeafReady(id: nat, f: Inode, cache: Cache, owner: map<nat, Owner>, list: seq<nat>) {
    && L1_NBLKS <= |list| < LN_NBLKS
    && f.nblks == f.blocks == |list| && |f.direct| == NDIRECT && f.l2 == f.dbIndirect
    && Owned(cache, owner, f.indirect, Owner(id, Single))
    && Owned(cache, owner, f.dbIndirect, Owner(id, Double))
    && (forall i :: 0 <= i <= (|list| - L1_NBLKS) / NENTRY ==>
      Owned(cache, owner, Entry(cache, f.dbIndirect, i), Owner(id, Leaf(i))))
    && (forall i :: (|list| - L1_NBLKS) / NENTRY < i < NENTRY ==> Entry(cache, f.dbIndirect, i) == 0)
    && (forall k :: 0 <= k < |list| ==> Lookup(f, cache, k) == list[k])
  }

  lemma AppendLeaf(id: nat, f: Inode, cache: Cache, owner: map<nat, Owner>, list: seq<nat>, ino: nat)
    requires LeafReady(id, f, cache, owner, list)
    ensures var m := |list| - L1_NBLKS; var b := Entry(cache, f.dbIndirect, m / NENTRY);
      && b in cache && m % NENTRY < |cache[b]|
      && Mapped(id, Grown(f).(l1 := b), SetEntry(cache, b, m % NENTRY, ino), owner, list + [ino])
  {
    var n := |list|; var m := n - L1_NBLKS; var j := m / NENTRY;
    var b := Entry(cache, f.dbIndirect, j);
    assert Owned(cache, owner, b, Owner(id, Leaf(j)));
    var cache' := SetEntry(cache, b, m % NENTRY, ino);
    var f' := Grown(f).(l1 := b);
    assert Leaves(n + 1) == j + 1;
    forall c: nat, i: nat ensures Entry(cache', c, i) == if c == b && i == m % NENTRY then ino else Entry(cache, c, i) {
      SetEntryAt(cache, b, m % NENTRY, ino, c, i);
    }
    forall k | 0 <= k < n + 1 ensures Lookup(f', cache', k) == (list + [ino])[k] {
      AppendLeafLookup(id, f, cache, owner, list, ino, k);
    }
  }

  lemma AppendLeafLookup(id: nat, f: Inode, cache: Cache, owner: map<nat, Owner>, list: seq<nat>, ino: nat, k: nat)
    requires LeafReady(id, f, cache, owner, list) && k <= |list|
    ensures var m := |list| - L1_NBLKS; var b := Entry(cache, f.dbIndirect, m / NENTRY);
      Lookup(Grown(f).(l1 := b), SetEntry(cache, b, m % NENTRY, ino), k) == (list + [ino])[k]
  {
    var n := |list|; var m := n - L1_NBLKS; var j := m / NENTRY;
    var b := Entry(cache, f.dbIndirect, j);
    assert Owned(cache, owner, b, Owner(id, Leaf(j)));
    if k < n { assert Lookup(f, cache, k) == list[k]; }
    if k >= L1_NBLKS {
      var q := k - L1_NBLKS;
      assert q / NENTRY <= j;
      var c := Entry(cache, f.dbIndirect, q / NENTRY);
      assert Owned(cache, owner, c, Owner(id, Leaf(q / NENTRY)));
      SetEntryAt(cache, b, m % NENTRY, ino, f.dbIndirect, q / NENTRY);
      SetEntryAt(cache, b, m % NENTRY, ino, c, q % NENTRY);
      if q / NENTRY == j && q % NENTRY == m % NENTRY { assert q == m; }
    } else if k >= NDIRECT {
      SetEntryAt(cache, b, m % NENTRY, ino, f.indirect, k - NDIRECT);
    }
  }

  /** If the leaf that the next append needs exists, the cached l1 names it. */
  lemma LeafIsWarm(id: nat, f: Inode, cache: Cache, owner: map<nat, Owner>, list: seq<nat>,
                   db: nat, cache1: Cache, owner1: map<nat, Owner>)
    requires Mapped(id, f, cache, owner, list) && L1_NBLKS <= |list| < LN_NBLKS && 0 !in cache
    requires Provided(cache, owner, cache1, owner1, |list| == L1_NBLKS, db, Owner(id, Double))
    requires |list| > L1_NBLKS ==> db == f.dbIndirect
    ensures var m := |list| - L1_NBLKS;
      var e := Entry(cache1, db, m / NENTRY);
      (e != 0 ==> f.l1 == e) && (e == 0 <==> m % NENTRY == 0)
  {
    var n := |list|; var m := n - L1_NBLKS; var j := m / NENTRY;
    assert m == NENTRY * j + m % NENTRY;
    assert Leaves(n) == if m % NENTRY == 0 then j else j + 1;
  }

  /** Setting up the double-indirect block and the leaf. */
  lemma ReadyLeaf(id: nat, f: Inode, cache: Cache, owner: map<nat, Owner>, list: seq<nat>,
                  db: nat, cache1: Cache, owner1: map<nat, Owner>, leaf: nat, cache2: Cache, owner2: map<nat, Owner>)
    requires Mapped(id, f, cache, owner, list) && L1_NBLKS <= |list| < LN_NBLKS && 0 !in cache
    requires Provided(cache, owner, cache1, owner1, |list| == L1_NBLKS, db, Owner(id, Double))
    requires |list| > L1_NBLKS ==> db == f.dbIndirect
    requires var j := (|list| - L1_NBLKS) / NENTRY;
      && Provided(cache1, owner1, cache2, owner2, Entry(cache1, db, j) == 0, leaf, Owner(id, Leaf(j)))
      && (Entry(cache1, db, j) != 0 ==> leaf == Entry(cache1, db, j))
    ensures var j := (|list| - L1_NBLKS) / NENTRY;
      && db in cache2 && j < |cache2[db]|
      && db in owner2 && owner2[db].file == id && leaf in owner2 && owner2[leaf].file == id
      && Entry(SetEntry(cache2, db, j, leaf), db, j) == leaf
      && LeafReady(id, f.(dbIndirect := db, l2 := db), SetEntry(cache2, db, j, leaf), owner2, list)
  {
    var n := |list|; var m := n - L1_NBLKS; var j := m / NENTRY;
    var cache3, f' := SetEntry(cache2, db, j, leaf), f.(dbIndirect := db, l2 := db);
    assert Owned(cache1, owner1, db, Owner(id, Double));
    assert m == NENTRY * j + m % NENTRY && 0 <= j < NENTRY;
    assert Leaves(n) == if m % NENTRY == 0 then j else j + 1;
    assert Entry(cache1, db, j) == 0 <==> m % NENTRY == 0;
    if m % NENTRY != 0 { assert Owned(cache, owner, Entry(cache, db, j), Owner(id, Leaf(j))); }
    forall c: nat, i: nat | c != leaf || m % NENTRY != 0
      ensures Entry(cache3, c, i) == if c == db && i == j then leaf else Entry(cache1, c, i)
    {
      SetEntryAt(cache2, db, j, leaf, c, i);
    }
    forall i | 0 <= i <= j ensures Owned(cache3, owner2, Entry(cache3, db, i), Owner(id, Leaf(i))) {
      if i < Leaves(n) { assert Owned(cache, owner, Entry(cache, db, i), Owner(id, Leaf(i))); }
    }
    forall k | 0 <= k < n ensures Lookup(f', cache3, k) == list[k] {
      ReadyLookup(id, f, cache, owner, list, db, cache1, owner1, leaf, cache2, owner2, k);
    }
  }

  lemma ReadyLookup(id: nat, f: Inode, cache: Cache, owner: map<nat, Owner>, list: seq<nat>,
                    db: nat, cache1: Cache, owner1: map<nat, Owner>, leaf: nat, cache2: Cache, owner2: map<nat, Owner>,
                    k: nat)
    requires Mapped(id, f, cache, owner, list) && L1_NBLKS <= |list| < LN_NBLKS && 0 !in cache && k < |list|
    requires Provided(cache, owner, cache1, owner1, |list| == L1_NBLKS, db, Owner(id, Double))
    requires |list| > L1_NBLKS ==> db == f.dbIndirect
    requires var j := (|list| - L1_NBLKS) / NENTRY;
      && Provided(cache1, owner1, cache2, owner2, Entry(cache1, db, j) == 0, leaf, Owner(id, Leaf(j)))
      && (Entry(cache1, db, j) != 0 ==> leaf == Entry(cache1, db, j))
      && db in cache2 && j < |cache2[db]|
    ensures var j := (|list| - L1_NBLKS) / NENTRY;
      Lookup(f.(dbIndirect := db, l2 := db), SetEntry(cache2, db, j, leaf), k) == list[k]
  {
    var n := |list|; var m := n - L1_NBLKS; var j := m / NENTRY;
    assert Lookup(f, cache, k) == list[k];
    if k >= L1_NBLKS {
      var i := (k - L1_NBLKS) / NENTRY;
      assert i < Leaves(n);
      var c := Entry(cache, db, i);
      assert Owned(cache, owner, c, Owner(id, Leaf(i)));
      SetEntryAt(cache2, db, j, leaf, db, i);
      SetEntryAt(cache2, db, j, leaf, c, (k - L1_NBLKS) % NENTRY);
      if i == j { assert Entry(cache1, db, j) == c; }
    } else if k >= NDIRECT {
      assert Owned(cache, owner, f.indirect, Owner(id, Single));
      SetEntryAt(cache2, db, j, leaf, f.indirect, k - NDIRECT);
    }
  }
}
