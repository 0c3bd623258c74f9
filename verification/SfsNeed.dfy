/** How many blocks a host directory takes in the image, and what in it cannot be stored. */
module SfsNeed {
  import opened SfsMap
  import opened SfsLinks
  import opened SfsHost

  /** Why the program ends early. */
  datatype Why = Fine | Full | TooBig(host: nat) | BadLink(text: seq<int>) | Twice(host: nat) | LongName(name: string)

  // ----- blocks -----

  /** The index blocks of a file of n blocks. */
  function Index(n: nat): nat { (if n > NDIRECT then 1 else 0) + (if n > L1_NBLKS then 1 + Leaves(n) else 0) }

  /** A file of n blocks with its index blocks. */
  function Extent(n: nat): nat { n + Index(n) }

  /** The new index blocks for block number n of a file. */
  function More(n: nat): nat {
    if n == NDIRECT then 1
    else if n == L1_NBLKS then 2
    else if n > L1_NBLKS && (n - L1_NBLKS) % NENTRY == 0 then 1
    else 0
  }

  lemma IndexMore(n: nat)
    ensures Index(n + 1) == Index(n) + More(n)
  {
    if n > L1_NBLKS {
      var m := n - L1_NBLKS;
      var j := m / NENTRY;
      assert m == NENTRY * j + m % NENTRY;
      assert Leaves(n) == if m % NENTRY == 0 then j else j + 1;
      assert Leaves(n + 1) == j + 1;
    }
  }

  lemma {:induction false} ExtentGrows(m: nat, n: nat)
    requires m <= n
    ensures Extent(m) <= Extent(n)
    decreases n - m
  {
    if m < n {
      IndexMore(m);
      ExtentGrows(m + 1, n);
    }
  }

  // ----- the objects of a tree -----

  /** The entry is one that the program makes. */
  predicate Made(e: HostEntry) { !Hidden(e.name) && !e.node.Special? }

  function EntryCount(entries: seq<HostEntry>): nat {
    if entries == [] then 0
    else EntryCount(entries[..|entries| - 1]) + if Made(entries[|entries| - 1]) then 1 else 0
  }

  /** The host numbers met in a directory and below it. */
  function Hosts(entries: seq<HostEntry>): set<nat>
    decreases entries
  {
    if entries == [] then {} else Hosts(entries[..|entries| - 1]) + HostsOne(entries[|entries| - 1])
  }

  function HostsOne(e: HostEntry): set<nat>
    decreases e
  {
    if Hidden(e.name) then {}
    else match e.node
      case Dir(h, es) => {h} + Hosts(es)
      case File(h, _) => {h}
      case SymLink(h, _) => {h}
      case Special => {}
  }

  // ----- what the tree takes -----

  /** The blocks of what is in a directory and below it, when the objects `seen` are in the image already: an inode and
      the content for each object that is new, and the blocks of each directory, one for every entry. */
  function Need(entries: seq<HostEntry>, seen: set<nat>): nat
    decreases entries, 1
  {
    Inner(entries, seen) + Extent(EntryCount(entries))
  }

  function Inner(entries: seq<HostEntry>, seen: set<nat>): nat
    decreases entries, 0
  {
    if entries == [] then 0
    else
      var n := |entries| - 1;
      Inner(entries[..n], seen)
        + if Hidden(entries[n].name) then 0 else NodeNeed(entries[n].node, seen + Hosts(entries[..n]))
  }

  function NodeNeed(node: Node, seen: set<nat>): nat
    decreases node
  {
    match node
    case Dir(h, es) => 1 + Need(es, seen + {h})
    case File(h, text) => if h in seen then 0 else 1 + Extent(Blocks(|text|))
    case SymLink(_, _) => 1 + Extent(1)
    case Special => 0
  }

  // ----- what cannot be stored -----

  ghost predicate Storable(entries: seq<HostEntry>, seen: set<nat>)
    decreases entries
  {
    && EntryCount(entries) <= LN_NBLKS
    && forall k :: 0 <= k < |entries| ==> StorableOne(entries[k], seen + Hosts(entries[..k]))
  }

  ghost predicate StorableOne(e: HostEntry, seen: set<nat>)
    decreases e
  {
    Hidden(e.name) || (|e.name| <= MAX_FNAME_LEN && match e.node
      case Dir(h, es) => h !in seen && Storable(es, seen + {h})
      case File(h, text) => h in seen || Blocks(|text|) <= LN_NBLKS
      case SymLink(_, text) => 0 < |text| < BLKSIZE
      case Special => true)
  }

  /** Something in the directory numbered `dir`, or below it, cannot be stored for the reason given. */
  ghost predicate Fault(dir: nat, entries: seq<HostEntry>, seen: set<nat>, why: Why)
    decreases entries
  {
    || (EntryCount(entries) > LN_NBLKS && why == TooBig(dir))
    || exists k :: 0 <= k < |entries| && FaultOne(entries[k], seen + Hosts(entries[..k]), why)
  }

  ghost predicate FaultOne(e: HostEntry, seen: set<nat>, why: Why)
    decreases e
  {
    !Hidden(e.name) && ((|e.name| > MAX_FNAME_LEN && why == LongName(e.name)) || match e.node
      case Dir(h, es) => (h in seen && why == Twice(h)) || Fault(h, es, seen + {h}, why)
      case File(h, text) => h !in seen && Blocks(|text|) > LN_NBLKS && why == TooBig(h)
      case SymLink(_, text) => !(0 < |text| < BLKSIZE) && why == BadLink(text)
      case Special => false)
  }

  /** A tree can be stored exactly when there is no reason against it. */
  lemma StorableMeans(dir: nat, entries: seq<HostEntry>, seen: set<nat>)
    ensures Storable(entries, seen) <==> !exists why :: Fault(dir, entries, seen, why)
  {
    hide Fault, Storable;
    if Storable(entries, seen) {
      forall why ensures !Fault(dir, entries, seen, why) { NoFault(dir, entries, seen, why); }
    } else {
      var why := FindFault(dir, entries, seen);
      assert Fault(dir, entries, seen, why);
      assert exists w :: Fault(dir, entries, seen, w);
    }
  }

  lemma {:induction false} NoFault(dir: nat, entries: seq<HostEntry>, seen: set<nat>, why: Why)
    requires Storable(entries, seen)
    ensures !Fault(dir, entries, seen, why)
    decreases entries
  {
    forall k | 0 <= k < |entries| ensures !FaultOne(entries[k], seen + Hosts(entries[..k]), why) {
      NoFaultOne(entries[k], seen + Hosts(entries[..k]), why);
    }
  }

  lemma {:induction false} NoFaultOne(e: HostEntry, seen: set<nat>, why: Why)
    requires StorableOne(e, seen)
    ensures !FaultOne(e, seen, why)
    decreases e
  {
    if !Hidden(e.name) && e.node.Dir? { NoFault(e.node.host, e.node.entries, seen + {e.node.host}, why); }
  }

  lemma {:induction false} FindFault(dir: nat, entries: seq<HostEntry>, seen: set<nat>) returns (why: Why)
    requires !Storable(entries, seen)
    ensures Fault(dir, entries, seen, why)
    decreases entries
  {
    if EntryCount(entries) > LN_NBLKS {
      why := TooBig(dir);
    } else {
      var k :| 0 <= k < |entries| && !StorableOne(entries[k], seen + Hosts(entries[..k]));
      why := FindFaultOne(entries[k], seen + Hosts(entries[..k]));
    }
  }

  lemma {:induction false} FindFaultOne(e: HostEntry, seen: set<nat>) returns (why: Why)
    requires !StorableOne(e, seen)
    ensures FaultOne(e, seen, why)
    decreases e
  {
    if |e.name| > MAX_FNAME_LEN { return LongName(e.name); }
    match e.node
    case Dir(h, es) =>
      if h in seen { return Twice(h); }
      why := FindFault(h, es, seen + {h});
    case File(h, _) => why := TooBig(h);
    case SymLink(_, text) => why := BadLink(text);
  }

  // ----- one entry after the other -----

  lemma PrefixMore(entries: seq<HostEntry>, seen: set<nat>, k: nat)
    requires k < |entries|
    ensures Hosts(entries[..k + 1]) == Hosts(entries[..k]) + HostsOne(entries[k])
    ensures EntryCount(entries[..k + 1]) == EntryCount(entries[..k]) + if Made(entries[k]) then 1 else 0
    ensures Inner(entries[..k + 1], seen) == Inner(entries[..k], seen)
      + if Hidden(entries[k].name) then 0 else NodeNeed(entries[k].node, seen + Hosts(entries[..k]))
  {
    assert entries[..k + 1][..k] == entries[..k];
  }

  /** What the k-th entry takes: its object, the entry itself and the index blocks it makes necessary. */
  function Cost(e: HostEntry, seen: set<nat>, slots: nat): nat {
    if Made(e) then NodeNeed(e.node, seen) + 1 + More(slots) else 0
  }

  lemma NeedMore(entries: seq<HostEntry>, seen: set<nat>, k: nat)
    requires k < |entries|
    ensures Need(entries[..k + 1], seen)
      == Need(entries[..k], seen) + Cost(entries[k], seen + Hosts(entries[..k]), EntryCount(entries[..k]))
  {
    PrefixMore(entries, seen, k);
    IndexMore(EntryCount(entries[..k]));
    hide Index, More, Inner, Hosts, EntryCount;
  }

  /** A part of the entries takes no more blocks and no more slots than all of them. */
  lemma {:induction false} NeedGrows(entries: seq<HostEntry>, seen: set<nat>, k: nat)
    requires k <= |entries|
    ensures Need(entries[..k], seen) <= Need(entries, seen) && EntryCount(entries[..k]) <= EntryCount(entries)
    decreases |entries| - k
  {
    if k < |entries| {
      NeedMore(entries, seen, k);
      PrefixMore(entries, seen, k);
      NeedGrows(entries, seen, k + 1);
    } else {
      assert entries[..k] == entries;
    }
  }

  lemma NeedNone(entries: seq<HostEntry>, seen: set<nat>)
    ensures Need(entries[..0], seen) == 0 && EntryCount(entries[..0]) == 0 && Hosts(entries[..0]) == {}
  {}

  // ----- the accounts of the builder -----

  /** The host numbers of the inodes. */
  ghost function Known(inodes: Inodes): set<nat> { set i | i in inodes :: inodes[i].host }

  /** From one state to a later one `cost` blocks are taken and the objects `hs` added; file `dir` has grown by n
      blocks, the others that were there have not. */
  ghost predicate Spent(a: Inodes, next: nat, b: Inodes, next': nat, dir: nat, n: nat, hs: set<nat>, cost: nat) {
    && next' == next + cost && Known(b) == Known(a) + hs
    && forall i :: i in a ==> i in b && b[i].nblks == a[i].nblks + if i == dir then n else 0
  }

  lemma SpentNone(a: Inodes, next: nat, dir: nat)
    ensures Spent(a, next, a, next, dir, 0, {}, 0)
  {}

  lemma SpentOn(a: Inodes, na: nat, b: Inodes, nb: nat, c: Inodes, nc: nat, dir: nat, n: nat, n': nat, hs: set<nat>,
      hs': set<nat>, cost: nat, cost': nat)
    requires Spent(a, na, b, nb, dir, n, hs, cost) && Spent(b, nb, c, nc, dir, n', hs', cost')
    ensures Spent(a, na, c, nc, dir, n + n', hs + hs', cost + cost')
  {
    hide Known;
  }

  /** What happens to a file that was not there before does not change the others. */
  lemma SpentInside(a: Inodes, na: nat, b: Inodes, nb: nat, c: Inodes, nc: nat, dir: nat, id: nat, n: nat, hs: set<nat>,
      hs': set<nat>, cost: nat, cost': nat)
    requires Spent(a, na, b, nb, dir, 0, hs, cost) && id !in a && Spent(b, nb, c, nc, id, n, hs', cost')
    ensures Spent(a, na, c, nc, dir, 0, hs + hs', cost + cost')
  {
    hide Known;
  }

  /** Without growth it does not matter for which file that is said. */
  lemma SpentElse(a: Inodes, na: nat, b: Inodes, nb: nat, dir: nat, dir': nat, hs: set<nat>, cost: nat)
    requires Spent(a, na, b, nb, dir, 0, hs, cost)
    ensures Spent(a, na, b, nb, dir', 0, hs, cost)
  {
    hide Known;
  }

  /** A new inode. */
  lemma SpentInode(a: Inodes, next: nat, id: nat, f: Inode, dir: nat)
    requires id !in a
    ensures Spent(a, next, a[id := f], next + 1, dir, 0, {f.host}, 1)
  {
    KnownMore(a, id, f);
    hide Known;
  }

  /** A new inode, and another one changed otherwise. */
  lemma SpentDir(a: Inodes, next: nat, id: nat, f: Inode, p: nat, g: Inode, dir: nat)
    requires id !in a && p in a && g.host == a[p].host && g.nblks == a[p].nblks
    ensures Spent(a, next, a[id := f][p := g], next + 1, dir, 0, {f.host}, 1)
  {
    KnownMore(a, id, f);
    KnownSame(a[id := f], p, g);
    hide Known;
  }

  lemma KnownMore(a: Inodes, id: nat, f: Inode)
    requires id !in a
    ensures Known(a[id := f]) == Known(a) + {f.host}
  {
    var b := a[id := f];
    forall h | h in Known(a) + {f.host} ensures h in Known(b) {
      if h == f.host {
        assert id in b;
      } else {
        var i :| i in a && a[i].host == h;
        assert i in b && b[i].host == h;
      }
    }
  }

  lemma KnownSame(a: Inodes, id: nat, f: Inode)
    requires id in a && f.host == a[id].host
    ensures Known(a[id := f]) == Known(a)
  {
    var b := a[id := f];
    assert forall i :: i in b ==> i in a && b[i].host == a[i].host;
    forall h | h in Known(a) ensures h in Known(b) {
      var i :| i in a && a[i].host == h;
      assert i in b && b[i].host == h;
    }
  }

  /** One block appended to a file. */
  lemma SpentBlock(a: Inodes, next: nat, id: nat, g: Inode, f: Inode, next': nat, cost: nat)
    requires id in a && f.host == a[id].host && f.nblks == a[id].nblks + 1 && next' == next + cost
    ensures Spent(a, next, a[id := g][id := f], next', id, 1, {}, cost)
  {
    assert a[id := g][id := f] == a[id := f];
    KnownSame(a, id, f);
    hide Known;
  }

  /** One block appended to a directory, and one link more counted. */
  lemma SpentLink(a: Inodes, next: nat, id: nat, g: Inode, f: Inode, child: nat, c: Inode, next': nat, cost: nat)
    requires id in a && f.host == a[id].host && f.nblks == a[id].nblks + 1 && next' == next + cost
    requires child in a && child != id && c.host == a[child].host && c.nblks == a[child].nblks
    ensures Spent(a, next, a[id := g][id := f][child := c], next', id, 1, {}, cost)
  {
    assert a[id := g][id := f] == a[id := f];
    KnownSame(a, id, f);
    KnownSame(a[id := f], child, c);
    hide Known;
  }

  /** The blocks of the content of a file or a link. */
  function CopyBlocks(kind: Kind, text: seq<int>): nat { if kind.FileKind? then Blocks(|text|) else 1 }

  /** The inode and the content of a file or a link. */
  function CopyCost(kind: Kind, text: seq<int>): nat { 1 + Extent(CopyBlocks(kind, text)) }

  /** A file that is small enough, or a link that has a text. */
  predicate Copiable(kind: Kind, text: seq<int>) {
    if kind.FileKind? then Blocks(|text|) <= LN_NBLKS else 0 < |text| < BLKSIZE
  }

  /** The next part of a text. */
  lemma BlocksMore(pos: nat, n: nat)
    requires pos % BLKSIZE == 0 && 0 < n <= BLKSIZE
    ensures Blocks(pos + n) == Blocks(pos) + 1
  {
    assert pos == BLKSIZE * (pos / BLKSIZE);
    assert Blocks(pos) == pos / BLKSIZE;
  }

  lemma BlocksGrow(m: nat, n: nat)
    requires m <= n
    ensures Blocks(m) <= Blocks(n)
  {}

  /** What cannot be stored in an entry is found by its position. */
  lemma FaultAt(dir: nat, entries: seq<HostEntry>, seen: set<nat>, k: nat, why: Why)
    requires k < |entries| && FaultOne(entries[k], seen + Hosts(entries[..k]), why)
    ensures Fault(dir, entries, seen, why)
  {}
}
