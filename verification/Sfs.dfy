/** The image builder: allocation, appending to files, and writing blocks. */
module Sfs {
  import opened SfsMap
  import opened SfsDisk
  import opened SfsLinks
  import opened SfsHost
  import opened SfsNeed

  /** The fields that an append to the block map leaves alone. */
  predicate SameMeta(f: Inode, g: Inode) {
    f.kind == g.kind && f.host == g.host && f.size == g.size && f.slots == g.slots && f.parent == g.parent
      && f.nlinks == g.nlinks
  }

  lemma MoreBlocksKeepMapped(inodes: map<nat, Inode>, cache: Cache, owner: map<nat, Owner>, lists: map<nat, seq<nat>>,
      b: nat, o: Owner)
    requires MappedAll(inodes, cache, owner, lists) && b != 0 && b !in cache && o.file in inodes
    ensures MappedAll(inodes, cache[b := Zeros()], owner[b := o], lists)
  {
    hide Mapped, Zeros;
    forall i | i in inodes ensures Mapped(i, inodes[i], cache[b := Zeros()], owner[b := o], lists[i]) {
      MappedElsewhere(i, inodes[i], cache, owner, cache[b := Zeros()], owner[b := o], lists[i]);
    }
  }

  lemma AppendKeepsMapped(inodes: map<nat, Inode>, cache: Cache, owner: map<nat, Owner>, lists: map<nat, seq<nat>>,
                          id: nat, f: Inode, cache': Cache, list: seq<nat>)
    requires MappedAll(inodes, cache, owner, lists) && id in inodes
    requires cache'.Keys == cache.Keys && Mapped(id, f, cache', owner, list)
    requires forall b :: b in cache && owner[b].file != id ==> cache'[b] == cache[b]
    ensures MappedAll(inodes[id := f], cache', owner, lists[id := list])
  {
    hide Mapped;
    forall i | i in inodes && i != id ensures Mapped(i, inodes[i], cache', owner, lists[i]) {
      MappedElsewhere(i, inodes[i], cache, owner, cache', owner, lists[i]);
    }
  }

  lemma Basics(inodes: map<nat, Inode>, inodeHeads: Heads, cache: Cache, blockHeads: Heads, owner: map<nat, Owner>,
      lists: map<nat, seq<nat>>)
    requires Chained(inodes, inodeHeads, cache, blockHeads) && MappedAll(inodes, cache, owner, lists)
    ensures |inodeHeads| == |blockHeads| == HASH_LIST_SIZE
    ensures owner.Keys == cache.Keys && lists.Keys == inodes.Keys && 0 !in cache
    ensures forall i :: i in inodes ==> Mapped(i, inodes[i], cache, owner, lists[i])
  {}

  lemma KeysMatch(inodes: map<nat, Inode>, inodeHeads: Heads, cache: Cache, blockHeads: Heads, owner: map<nat, Owner>,
      lists: map<nat, seq<nat>>)
    requires Chained(inodes, inodeHeads, cache, blockHeads) && MappedAll(inodes, cache, owner, lists)
    ensures |inodeHeads| == |blockHeads| == HASH_LIST_SIZE
    ensures owner.Keys == cache.Keys && lists.Keys == inodes.Keys && 0 !in cache
  {}

  /** Where a pointer is set, the cached block is the one it names. */
  lemma CacheIsWarm(id: nat, f: Inode, cache: Cache, owner: map<nat, Owner>, list: seq<nat>)
    requires Mapped(id, f, cache, owner, list)
    ensures f.nblks == |list| && |f.direct| == NDIRECT
    ensures |list| < L1_NBLKS ==> (f.indirect == 0 <==> |list| <= NDIRECT) && f.l1 == f.indirect
    ensures (f.dbIndirect == 0 <==> |list| <= L1_NBLKS) && f.l2 == f.dbIndirect
    ensures |list| > NDIRECT ==> f.indirect in owner && owner[f.indirect].file == id
  {}

  /** The fields that hold the block map. */
  predicate SameMap(f: Inode, g: Inode) {
    && f.blocks == g.blocks && f.direct == g.direct && f.indirect == g.indirect && f.dbIndirect == g.dbIndirect
    && f.nblks == g.nblks && f.l1 == g.l1 && f.l2 == g.l2
  }

  lemma MetaKeepsMapped(inodes: map<nat, Inode>, cache: Cache, owner: map<nat, Owner>, lists: map<nat, seq<nat>>,
      id: nat, f: Inode)
    requires MappedAll(inodes, cache, owner, lists) && id in inodes && SameMap(inodes[id], f)
    ensures MappedAll(inodes[id := f], cache, owner, lists)
  {
    hide Mapped, SameMap;
    SameMapMapped(id, inodes[id], f, cache, owner, lists[id]);
  }

  lemma SameMapMapped(id: nat, g: Inode, f: Inode, cache: Cache, owner: map<nat, Owner>, list: seq<nat>)
    requires Mapped(id, g, cache, owner, list) && SameMap(g, f)
    ensures Mapped(id, f, cache, owner, list)
  {
    assert Shaped(id, f, cache, owner, |list|) && Warm(f, cache, |list|);
    hide Shaped, Warm, Entry;
    forall k | 0 <= k < |list| ensures Lookup(f, cache, k) == list[k] { assert Lookup(g, cache, k) == list[k]; }
  }

  lemma NewInodeKeepsMapped(inodes: map<nat, Inode>, cache: Cache, owner: map<nat, Owner>, lists: map<nat, seq<nat>>,
      id: nat, f: Inode)
    requires MappedAll(inodes, cache, owner, lists) && id !in inodes && f == FreshInode(f.kind, f.host)
    ensures MappedAll(inodes[id := f], cache, owner, lists[id := []])
  {
    assert Mapped(id, f, cache, owner, []);
  }

  /** The image holds what has been written. */
  ghost predicate Recorded(image: Image, written: seq<nat>) { forall b :: b in image <==> b in written }

  lemma RecordedMore(image: Image, written: seq<nat>, b: nat, c: Content)
    requires Recorded(image, written)
    ensures Recorded(image[b := c], written + [b]) && (b !in written ==> b !in image)
  {}

  /** The steps of add_entry, put together. */
  lemma EntryAdded(t: Tree, u: Tree, dir: nat, child: nat, name: string, b: nat, g: Inode, f: Inode)
    requires Consistent(t) && MayAddEntry(t, dir, child, b, f)
    requires u.inodes == t.inodes[dir := g][dir := f][child := t.inodes[child].(nlinks := t.inodes[child].nlinks + 1)]
    requires u.lists == t.lists[dir := t.lists[dir] + [b]] && u.log == t.log + [Slot(dir, child, name)]
    requires u.texts == t.texts
    requires u.image == t.image[b := EntryBlock(child, name)] && u.open == t.open - {child} && u.kinds == t.kinds
    ensures Consistent(u) && Keeps(t.inodes, u.inodes) && u.inodes.Keys == t.inodes.Keys
  {
    hide Consistent;
    assert t.inodes[dir := g][dir := f] == t.inodes[dir := f];
    assert u == WithEntry(t, dir, child, name, b, f);
    WithEntryFields(t, dir, child, name, b, f);
    NewEntry(t, dir, child, name, b, f);
    hide WithEntry;
  }

  ghost function KindsOf(what: nat -> HostObject): (kinds: nat -> Kind)
    ensures forall h :: kinds(h) == what(h).kind
  {
    (h: nat) => what(h).kind
  }

  /** Every file but `except` holds the text of its host object. */
  ghost predicate Faithful(t: Tree, what: nat -> HostObject, except: nat) {
    forall i :: IsText(t, i) && i != except ==> i in t.texts && t.texts[i] == what(t.inodes[i].host).text
  }

  lemma FaithfulKept(t: Tree, u: Tree, what: nat -> HostObject, except: nat)
    requires Faithful(t, what, except) && Keeps(t.inodes, u.inodes)
    requires forall i :: i in u.inodes && i !in t.inodes ==> i == except || u.inodes[i].kind.DirKind?
    requires forall i :: i in t.texts && i != except ==> i in u.texts && u.texts[i] == t.texts[i]
    ensures Faithful(u, what, except)
  {
    forall i | IsText(u, i) && i != except ensures i in u.texts && u.texts[i] == what(u.inodes[i].host).text {
      assert i in t.inodes && IsText(t, i);
    }
  }

  /** Once the last file is complete, all are. */
  lemma FaithfulNow(t: Tree, what: nat -> HostObject, i: nat)
    requires Faithful(t, what, i) && IsText(t, i) && i in t.texts && t.texts[i] == what(t.inodes[i].host).text
    ensures Faithful(t, what, 0)
  {}

  lemma KindByHost(t: Tree, i: nat)
    requires Consistent(t) && i in t.inodes
    ensures t.inodes[i].kind == t.kinds(t.inodes[i].host)
    ensures !IsDir(t, i) ==> i !in t.open
  {}

  lemma WithFileKeeps(t: Tree, i: nat, kind: Kind, host: nat, what: nat -> HostObject)
    requires i !in t.inodes && 0 !in t.inodes && Faithful(t, what, 0) && !kind.DirKind?
    ensures var u := WithFile(t, i, kind, host);
      Keeps(t.inodes, u.inodes) && Faithful(u, what, i) && IsText(u, i) && u.inodes[i].kind == kind
        && u.inodes[i].host == host
  {
    var u := WithFile(t, i, kind, host);
    forall j | IsText(u, j) && j != i ensures j in u.texts && u.texts[j] == what(u.inodes[j].host).text {
      assert IsText(t, j);
    }
  }

  lemma WithDirKeeps(t: Tree, i: nat, host: nat, p: nat, what: nat -> HostObject)
    requires Consistent(t) && MayAddDir(t, i, host, p) && Faithful(t, what, 0)
    ensures var u := WithDir(t, i, host, p);
      && Keeps(t.inodes, u.inodes) && Faithful(u, what, 0) && IsDir(u, i) && i !in t.open
      && u.inodes[i].parent == p && u.inodes[i].host == host && u.open == t.open + {i}
  {
    OpenIsKnown(t, i);
    WithDirFields(t, i, host, p);
    hide Consistent, WithDir;
    FaithfulKept(t, WithDir(t, i, host, p), what, 0);
  }

  lemma InitialisedDir(t: Tree, u: Tree, id: nat, host: nat, parent: nat)
    requires parent in t.inodes && id !in t.inodes
    requires u == t.(inodes := DirInitialised(t.inodes[id := FreshInode(DirKind, host)], id, parent),
      lists := t.lists[id := []], open := t.open + {id})
    ensures u == WithDir(t, id, host, parent)
  {}

  lemma OpenKnown(t: Tree)
    requires Consistent(t)
    ensures forall i :: i in t.open ==> i in t.inodes
  {}

  lemma OpenIsKnown(t: Tree, i: nat)
    requires Consistent(t) && i !in t.inodes
    ensures i !in t.open
  {
    assert OpenPath(t);
    hide Consistent, Placed;
  }

  /** The steps of append_block_size, put together. */
  lemma TextAdded(t: Tree, u: Tree, i: nat, part: seq<int>, b: nat, g: Inode, f: Inode)
    requires Consistent(t) && MayAddText(t, i, part, b, f)
    requires u.inodes == t.inodes[i := g][i := f] && u.lists == t.lists[i := t.lists[i] + [b]] && u.log == t.log
    requires u.texts == t.texts[i := t.texts[i] + part] && u.image == t.image[b := DataBlock(part)] && u.open == t.open
    requires u.kinds == t.kinds
    ensures Consistent(u) && Keeps(t.inodes, u.inodes) && u.inodes.Keys == t.inodes.Keys
  {
    hide Consistent;
    assert t.inodes[i := g][i := f] == t.inodes[i := f];
    assert u == WithText(t, i, part, b, f);
    NewText(t, i, part, b, f);
  }

  /** Inodes after init_dir_cache_inode. */
  function DirInitialised(inodes: Inodes, current: nat, parent: nat): Inodes
    requires current in inodes && parent in inodes
  {
    if current == parent then inodes[current := inodes[current].(nlinks := inodes[current].nlinks + 2,
      parent := parent)]
    else inodes[current := inodes[current].(nlinks := inodes[current].nlinks + 1, parent := parent)]
               [parent := inodes[parent].(nlinks := inodes[parent].nlinks + 1)]
  }

  /** Bit j of free-map block k stands for block 32768 k + j and is set while that block is unused. */
  function MapBits(ninos: nat, nextIno: nat, k: nat): (bits: seq<bool>)
    ensures |bits| == BLKBITS && forall j :: 0 <= j < BLKBITS ==> bits[j] == (nextIno <= BLKBITS * k + j < ninos)
  {
    seq(BLKBITS, (j: nat) => nextIno <= BLKBITS * k + j < ninos)
  }

  /** What the finished image holds in block b. */
  function Want(ninos: nat, nextIno: nat, unused: nat, inodes: Inodes, cache: Cache, image: Image, b: nat): Content {
    if b == BLKN_SUPER then SuperBlock(ninos, unused)
    else if BLKN_FREEMAP <= b < First(ninos) then FreemapBlock(MapBits(ninos, nextIno, b - BLKN_FREEMAP))
    else if b in cache then IndexBlock(cache[b])
    else if b in inodes then InodeBlock(inodes[b])
    else if b in image then image[b] else DataBlock([])
  }

  /** Cached blocks are no cached inodes, and neither lies where the free map or the super block goes. */
  ghost predicate Clear(ninos: nat, inodes: Inodes, cache: Cache) {
    && (forall b :: b in cache ==> b !in inodes && (b == BLKN_ROOT || First(ninos) <= b))
    && (forall b :: b in inodes ==> b !in cache && (b == BLKN_ROOT || First(ninos) <= b))
  }

  /** Data and entry blocks are not among those written at the end. */
  lemma WantKeepsImage(ninos: nat, nextIno: nat, unused: nat, inodes: Inodes, cache: Cache, image: Image,
      written: seq<nat>)
    requires Allocated(ninos, nextIno, unused, inodes.Keys, cache.Keys, written, multiset{}) && Recorded(image, written)
    ensures forall b :: b in image ==> image[b] == Want(ninos, nextIno, unused, inodes, cache, image, b)
    ensures Clear(ninos, inodes, cache)
  {
    var all := multiset(written) + multiset(cache.Keys) + multiset(inodes.Keys);
    var used := Numbers(First(ninos), nextIno) + {BLKN_ROOT};
    assert all == multiset(used);
    forall b | b in image ensures image[b] == Want(ninos, nextIno, unused, inodes, cache, image, b) {
      assert b in written && b in all && all[b] == 1;
      assert b in used;
    }
    forall b | b in cache ensures b !in inodes && (b == BLKN_ROOT || First(ninos) <= b) {
      assert b in all && all[b] == 1 && b in used;
    }
    forall b | b in inodes ensures b == BLKN_ROOT || First(ninos) <= b { assert b in all && b in used; }
  }

  class Sfs {
    var why: Why
    const ninos: nat
    var nextIno: nat
    var unused: nat
    var inodes: map<nat, Inode>
    var inodeHeads: Heads
    var cache: Cache
    var blockHeads: Heads
    var written: seq<nat>
    var image: map<nat, Content>

    /** Whom each index block serves, the blocks appended to each file, and the numbers not yet placed. */
    ghost var owner: map<nat, Owner>
    ghost var lists: map<nat, seq<nat>>
    ghost var pending: multiset<nat>

    /** The entries made, the text copied into each file, the open directories, and what the host numbers stand for. */
    ghost var log: seq<Slot>
    ghost var texts: map<nat, seq<int>>
    ghost var open: set<nat>
    ghost const what: nat -> HostObject

    ghost function T(): Tree
      reads this
    {
      Tree(inodes, lists, log, texts, image, open, KindsOf(what))
    }

    /** The entries made so far, by host numbers. */
    ghost function View(): seq<(nat, nat, string)>
      reads this
    {
      HostView(inodes, log)
    }

    ghost predicate Valid()
      reads this
    {
      && Sound() && Consistent(T()) && pending == multiset{} && 0 !in inodes
      && Recorded(image, written) && Faithful(T(), what, 0)
    }

    /** The program ends because there is no number left, and `cost` blocks beyond the number `next` are too many. */
    ghost predicate NoSpace(next: nat, cost: nat)
      reads this
    {
      why == Full && nextIno >= ninos && next + cost > ninos
    }

    /** Another block for a file with n blocks is refused: it is too big, or there is no number for an index block. */
    ghost predicate NoBlock(host: nat, n: nat, next: nat, cost: nat)
      reads this
    {
      (why == TooBig(host) && n >= LN_NBLKS) || NoSpace(next, cost)
    }

    /** A text is refused: it has too many parts, or takes too many blocks. */
    ghost predicate NoText(host: nat, length: nat, next: nat)
      reads this
    {
      (why == TooBig(host) && Blocks(length) > LN_NBLKS) || NoSpace(next, Extent(Blocks(length)))
    }

    /** The copy of an object is refused. */
    ghost predicate NoCopy(host: nat, kind: Kind, text: seq<int>, next: nat, cost: nat)
      reads this
    {
      || (!Copiable(kind, text) && why == if kind.FileKind? then TooBig(host) else BadLink(text))
      || NoSpace(next, cost)
    }

    /** An entry of a directory with n entries is refused: it cannot be stored, or the directory is too big, or object
        and entry take too many blocks. */
    ghost predicate NoEntry(e: HostEntry, seen: set<nat>, host: nat, n: nat, next: nat)
      reads this
    {
      FaultOne(e, seen, why) || (Made(e) && NoBlock(host, n, next, Cost(e, seen, n)))
    }

    /** What adding an entry does to the accounts: it takes the blocks it should, or is refused for a reason. */
    ghost predicate Accounted(a: Inodes, next: nat, dir: nat, e: HostEntry, ok: bool)
      reads this
    {
      && dir in a
      && var seen, n := Known(a), a[dir].nblks;
      if ok then
        && StorableOne(e, seen)
        && Spent(a, next, inodes, nextIno, dir, if Made(e) then 1 else 0, HostsOne(e), Cost(e, seen, n))
      else NoEntry(e, seen, a[dir].host, n, next)
    }

    ghost predicate Sound()
      reads this`nextIno, this`unused, this`inodes, this`inodeHeads, this`cache, this`blockHeads, this`written,
            this`owner, this`lists, this`pending
    {
      && Allocated(ninos, nextIno, unused, inodes.Keys, cache.Keys, written, pending)
      && Chained(inodes, inodeHeads, cache, blockHeads)
      && MappedAll(inodes, cache, owner, lists)
    }

    /** sfs_alloc_ino; a failure ends the program. */
    method AllocIno() returns (ok: bool, ino: nat)
      requires Sound()
      modifies this`nextIno, this`unused, this`pending, this`why
      ensures Sound() && ok == (old(nextIno) < ninos)
      ensures ok ==> ino == old(nextIno) && nextIno == ino + 1 && pending == old(pending) + multiset{ino}
      ensures ok ==> ino > BLKN_ROOT && ino !in inodes.Keys && ino !in cache.Keys && ino !in written
      ensures ok ==> ino !in old(pending)
      ensures !ok ==> nextIno == old(nextIno) && pending == old(pending) && NoSpace(old(nextIno), 1)
    {
      hide Allocated, Chained, MappedAll;
      if nextIno >= ninos {
        why := Full;
        return false, 0;
      }
      AllocBounds(ninos, nextIno, unused, inodes.Keys, cache.Keys, written, pending);
      NextIsFresh(ninos, nextIno, unused, inodes.Keys, cache.Keys, written, pending);
      TakeNumber(ninos, nextIno, unused, inodes.Keys, cache.Keys, written, pending);
      ok, ino := true, nextIno;
      pending := pending + multiset{nextIno};
      unused := unused - 1;
      nextIno := nextIno + 1;
    }

    /** write_block of a number just handed out. */
    method WriteBlock(b: nat, c: Content)
      requires Sound() && b in pending
      modifies this`written, this`image, this`pending
      ensures Sound() && b < nextIno <= ninos
      ensures written == old(written) + [b] && image == old(image)[b := c] && pending == old(pending) - multiset{b}
    {
      hide Allocated, Chained, MappedAll;
      FreshNumber(ninos, nextIno, unused, inodes.Keys, cache.Keys, written, pending);
      AllocBounds(ninos, nextIno, unused, inodes.Keys, cache.Keys, written, pending);
      ghost var rest := pending - multiset{b};
      assert pending == rest + multiset{b};
      PutWritten(ninos, nextIno, unused, inodes.Keys, cache.Keys, written, rest, b);
      written := written + [b];
      image := image[b := c];
      pending := rest;
    }

    /** alloc_cache_block(sfs, 0), the only way it is called: the new block is chained under the bucket of 0. */
    method AllocCacheBlock(ghost o: Owner) returns (ok: bool, b: nat)
      requires Sound() && o.file in inodes
      modifies this`nextIno, this`unused, this`pending, this`cache, this`blockHeads, this`owner, this`why
      ensures Sound()
      ensures ok == (old(nextIno) < ninos) && (ok ==> b == old(nextIno) && nextIno == b + 1)
      ensures ok ==> Provided(old(cache), old(owner), cache, owner, true, b, o) && pending == old(pending)
      ensures !ok ==> NoSpace(old(nextIno), 1)
    {
      hide Allocated, Chained, MappedAll, Hash, NoSpace;
      KeysMatch(inodes, inodeHeads, cache, blockHeads, owner, lists);
      ok, b := AllocIno();
      if ok {
        PutCached(ninos, nextIno, unused, inodes.Keys, cache.Keys, written, old(pending), b);
        ChainBlock(inodes, inodeHeads, cache, blockHeads, b);
        MoreBlocksKeepMapped(inodes, cache, owner, lists, b, o);
        assert cache[b := Zeros()].Keys == cache.Keys + {b};
        cache := cache[b := Zeros()];
        blockHeads := Push(blockHeads, Hash(0), b);
        owner := owner[b := o];
        pending := old(pending);
      }
    }

    /** search_cache_block: walks the chain of the block's own bucket. */
    method SearchCacheBlock(ino: nat) returns (b: nat)
      requires Sound() && ino != 0
      ensures b == if ino in blockHeads[Hash(ino)] then ino else 0
    {
      hide Allocated, MappedAll, Flat, Hash;
      var chain := blockHeads[Hash(ino)];
      var i := 0;
      while i < |chain| && chain[i] != ino
        invariant 0 <= i <= |chain|
        invariant ino !in chain[..i]
      {
        i := i + 1;
      }
      b := if i < |chain| then chain[i] else 0;
    }

    /** update_cache: the index block behind pointer `ino`, given the cached `cb`. `searched` says that the
        cached block was of no use. */
    method UpdateCache(cb: nat, ino: nat, ghost o: Owner) returns (ok: bool, b: nat, ghost searched: bool)
      requires Sound() && o.file in inodes
      modifies this`nextIno, this`unused, this`pending, this`cache, this`blockHeads, this`owner, this`why
      ensures Sound() && searched == (ino != 0 && cb != ino)
      ensures ok ==> pending == old(pending) && Provided(old(cache), old(owner), cache, owner, ino == 0, b, o)
      ensures ok && ino != 0 ==> b == ino
      ensures ino == 0 ==> ok == (old(nextIno) < ninos) && (ok ==> b == old(nextIno) && nextIno == b + 1)
      ensures ino != 0 ==> pending == old(pending) && cache == old(cache) && owner == old(owner)
      ensures ino != 0 ==> nextIno == old(nextIno) && (!searched ==> ok)
      ensures !ok && !searched ==> ino == 0 && NoSpace(old(nextIno), 1)
    {
      b, searched := cb, false;
      if ino == 0 {
        ok, b := AllocCacheBlock(o);
      } else if cb == 0 || cb != ino {
        b := SearchCacheBlock(ino);
        ok := b != 0 && b == ino;
        searched := true;
      } else {
        ok := true;
      }
    }

    /** __append_block: the next block of file id is `ino`. A failure (the file is too big, or no space for an
        index block) ends the program. The cached index blocks are always the right ones. */
    method AppendBlock(id: nat, ino: nat) returns (ok: bool, ghost looked: bool)
      requires Sound() && id in inodes
      modifies this`nextIno, this`unused, this`pending, this`cache, this`blockHeads, this`owner, this`inodes,
          this`lists, this`why
      ensures Sound() && inodes.Keys == old(inodes).Keys
      ensures old(inodes)[id].nblks < NDIRECT ==> ok && nextIno == old(nextIno) && cache == old(cache)
      ensures old(inodes)[id].nblks == NDIRECT && old(nextIno) < ninos ==> ok && old(nextIno) in cache
      ensures !looked
      ensures ok ==> old(inodes)[id].nblks < LN_NBLKS && pending == old(pending)
      ensures ok ==> lists == old(lists)[id := old(lists)[id] + [ino]]
      ensures ok ==> inodes == old(inodes)[id := inodes[id]] && SameMeta(old(inodes)[id], inodes[id])
      ensures ok ==> inodes[id].nblks == old(inodes)[id].nblks + 1
      ensures ok ==> nextIno == old(nextIno) + More(old(inodes)[id].nblks)
      ensures !ok ==> NoBlock(old(inodes)[id].host, old(inodes)[id].nblks, old(nextIno), More(old(inodes)[id].nblks))
    {
      hide Chained, MappedAll, Allocated, Mapped, Hash;
      looked := false;
      Basics(inodes, inodeHeads, cache, blockHeads, owner, lists);
      var f := inodes[id];
      ghost var list := lists[id];
      CacheIsWarm(id, f, cache, owner, list);
      var n := f.nblks;
      if n >= LN_NBLKS {
        why := TooBig(f.host);
        ok := false;
      } else if n < NDIRECT {
        AppendDirect(id, f, cache, owner, list, ino);
        Commit(id, Grown(f).(direct := f.direct[n := ino]), cache, list + [ino]);
        ok := true;
      } else if n < L1_NBLKS {
        var b: nat;
        ok, b, looked := UpdateCache(f.l1, f.indirect, Owner(id, Single));
        if ok {
          AppendSingle(id, f, old(cache), old(owner), list, ino, b, cache, owner);
          Commit(id, Grown(f).(indirect := b, l1 := b), SetEntry(cache, b, n - NDIRECT, ino), list + [ino]);
        }
      } else {
        ok, looked := AppendDeep(id, ino);
      }
    }

    /** The branch of __append_block behind the double-indirect pointer. */
    method AppendDeep(id: nat, ino: nat) returns (ok: bool, ghost looked: bool)
      requires Sound() && id in inodes && L1_NBLKS <= inodes[id].nblks < LN_NBLKS
      modifies this`nextIno, this`unused, this`pending, this`cache, this`blockHeads, this`owner, this`inodes,
          this`lists, this`why
      ensures Sound() && inodes.Keys == old(inodes).Keys
      ensures !looked
      ensures ok ==> pending == old(pending) && id in old(lists) && lists == old(lists)[id := old(lists)[id] + [ino]]
      ensures ok ==> inodes == old(inodes)[id := inodes[id]] && SameMeta(old(inodes)[id], inodes[id])
      ensures ok ==> inodes[id].nblks == old(inodes)[id].nblks + 1
      ensures ok ==> nextIno == old(nextIno) + More(old(inodes)[id].nblks)
      ensures !ok ==> NoSpace(old(nextIno), More(old(inodes)[id].nblks))
    {
      hide Chained, MappedAll, Allocated, Mapped, Hash, LeafReady;
      Basics(inodes, inodeHeads, cache, blockHeads, owner, lists);
      hide Sound;
      var f := inodes[id];
      ghost var list := lists[id];
      CacheIsWarm(id, f, cache, owner, list);
      var m := f.nblks - L1_NBLKS;
      var db: nat, leaf: nat;
      ok, db, looked := UpdateCache(f.l2, f.dbIndirect, Owner(id, Double));
      if ok {
        ghost var cache1, owner1 := cache, owner;
        LeafIsWarm(id, f, old(cache), old(owner), list, db, cache, owner);
        ghost var again;
        ok, leaf, again := UpdateCache(f.l1, Entry(cache, db, m / NENTRY), Owner(id, Leaf(m / NENTRY)));
        looked := looked || again;
        if ok {
          ReadyLeaf(id, f, old(cache), old(owner), list, db, cache1, owner1, leaf, cache, owner);
          StoreLeaf(id, ino, db, leaf, list);
        }
      }
    }

    /** Both index blocks are there: the new leaf is entered into the one, and the new block into the other. */
    method StoreLeaf(id: nat, ino: nat, db: nat, leaf: nat, ghost list: seq<nat>)
      requires Sound() && id in inodes && L1_NBLKS <= inodes[id].nblks == |list| && 0 !in cache
      requires var j := (inodes[id].nblks - L1_NBLKS) / NENTRY;
        && db in cache && j < |cache[db]|
        && db in owner && owner[db].file == id && leaf in owner && owner[leaf].file == id
        && Entry(SetEntry(cache, db, j, leaf), db, j) == leaf
        && LeafReady(id, inodes[id].(dbIndirect := db, l2 := db), SetEntry(cache, db, j, leaf), owner, list)
      modifies this`inodes, this`cache, this`lists
      ensures Sound() && inodes == old(inodes)[id := inodes[id]] && id in inodes
      ensures SameMeta(old(inodes)[id], inodes[id]) && inodes[id].nblks == old(inodes)[id].nblks + 1
      ensures lists == old(lists)[id := list + [ino]]
    {
      hide Sound, Mapped, LeafReady;
      var f := inodes[id];
      var m := f.nblks - L1_NBLKS;
      var f1, cache2 := f.(dbIndirect := db, l2 := db), SetEntry(cache, db, m / NENTRY, leaf);
      AppendLeaf(id, f1, cache2, owner, list, ino);
      Commit(id, Grown(f1).(l1 := leaf), SetEntry(cache2, leaf, m % NENTRY, ino), list + [ino]);
    }

    /** Stores the updated inode and index blocks of one file. */
    method Commit(id: nat, f: Inode, cache': Cache, ghost list: seq<nat>)
      requires Sound() && id in inodes && SameMeta(inodes[id], f)
      requires cache'.Keys == cache.Keys && Mapped(id, f, cache', owner, list)
      requires forall b :: b in cache && b in owner && owner[b].file != id ==> cache'[b] == cache[b]
      modifies this`inodes, this`cache, this`lists
      ensures Sound() && inodes == old(inodes)[id := f] && lists == old(lists)[id := list] && cache == cache'
    {
      hide Chained, MappedAll, Allocated, Mapped;
      KeysMatch(inodes, inodeHeads, cache, blockHeads, owner, lists);
      AppendKeepsMapped(inodes, cache, owner, lists, id, f, cache', list);
      ChainKept(inodes, inodeHeads, cache, blockHeads, inodes[id := f], cache');
      assert inodes[id := f].Keys == inodes.Keys;
      inodes := inodes[id := f];
      cache := cache';
      lists := lists[id := list];
    }

    /** Stores link count, slots, size or parent of one inode. */
    method SetInode(id: nat, f: Inode)
      requires Sound() && id in inodes && SameMap(inodes[id], f) && f.host == inodes[id].host
      modifies this`inodes
      ensures Sound() && inodes == old(inodes)[id := f]
    {
      hide Chained, MappedAll, Allocated;
      MetaKeepsMapped(inodes, cache, owner, lists, id, f);
      ChainKept(inodes, inodeHeads, cache, blockHeads, inodes[id := f], cache);
      assert inodes[id := f].Keys == inodes.Keys;
      inodes := inodes[id := f];
    }

    /** alloc_cache_inode */
    method AllocInode(host: nat, kind: Kind) returns (ok: bool, id: nat)
      requires Sound()
      modifies this`nextIno, this`unused, this`pending, this`inodes, this`inodeHeads, this`lists, this`why
      ensures Sound()
      ensures ok == (old(nextIno) < ninos) && (ok ==> id == old(nextIno) && nextIno == id + 1)
      ensures ok ==> id !in old(inodes) && id > BLKN_ROOT && inodes == old(inodes)[id := FreshInode(kind, host)]
      ensures ok ==> lists == old(lists)[id := []] && pending == old(pending)
      ensures !ok ==> NoSpace(old(nextIno), 1)
    {
      hide Chained, MappedAll, Allocated, Hash, NoSpace;
      KeysMatch(inodes, inodeHeads, cache, blockHeads, owner, lists);
      ok, id := AllocIno();
      if ok {
        PutInode(ninos, nextIno, unused, inodes.Keys, cache.Keys, written, old(pending), id);
        var f := FreshInode(kind, host);
        ChainInode(inodes, inodeHeads, cache, blockHeads, id, f);
        NewInodeKeepsMapped(inodes, cache, owner, lists, id, f);
        assert inodes[id := f].Keys == inodes.Keys + {id};
        inodes := inodes[id := f];
        inodeHeads := Push(inodeHeads, Hash(host), id);
        lists := lists[id := []];
        pending := old(pending);
      }
    }

    /** search_cache_inode */
    method SearchInode(host: nat) returns (id: nat)
      requires Sound() && 0 !in inodes
      ensures if id == 0 then forall i ::
        i in inodes ==> inodes[i].host != host else id in inodes && inodes[id].host == host
    {
      hide MappedAll, Allocated, Hash, Flat;
      var chain := inodeHeads[Hash(host)];
      forall i | i in chain ensures i in inodes { ChainHolds(inodes, inodeHeads, cache, blockHeads, Hash(host), i); }
      var k := 0;
      while k < |chain| && inodes[chain[k]].host != host
        invariant 0 <= k <= |chain|
        invariant forall j :: 0 <= j < k ==> inodes[chain[j]].host != host
      {
        k := k + 1;
      }
      id := if k < |chain| then chain[k] else 0;
    }

    /** add_entry */
    method AddEntry(dir: nat, child: nat, name: string) returns (ok: bool)
      requires Valid() && IsDir(T(), dir) && child in inodes && child != dir && |name| <= MAX_FNAME_LEN
      requires IsDir(T(), child) ==> child in open && child != ROOT && inodes[child].parent == dir
      modifies this
      ensures ok ==> Valid() && Keeps(old(inodes), inodes)
      ensures ok ==> log == old(log) + [Slot(dir, child, name)] && open == old(open) - {child}
      ensures ok ==> inodes.Keys == old(inodes).Keys
      ensures ok ==> View() == old(View()) + [(old(inodes)[dir].host, old(inodes)[child].host, name)]
      ensures ok ==>
        Spent(old(inodes), old(nextIno), inodes, nextIno, dir, 1, {}, 1 + More(old(inodes)[dir].nblks))
      ensures !ok ==> NoBlock(old(inodes)[dir].host, old(inodes)[dir].nblks, old(nextIno),
        1 + More(old(inodes)[dir].nblks))
    {
      hide Consistent, Keeps, Recorded, Faithful, NoBlock, Spent, More, Sound, HostView;
      ghost var t := T();
      ghost var b, g, f;
      ok, b, g, f := LinkIn(dir, child, name);
      if ok {
        log := log + [Slot(dir, child, name)];
        open := open - {child};
        EntryAdded(t, T(), dir, child, name, b, g, f);
        FaithfulKept(t, T(), what, 0);
        ViewEntry(t, inodes, dir, child, name);
      }
    }

    /** append_block_slot; g is the inode between the two steps. */
    method AppendSlot(dir: nat, block: nat) returns (ok: bool, ghost g: Inode)
      requires Sound() && dir in inodes
      modifies this`nextIno, this`unused, this`pending, this`cache, this`blockHeads, this`owner, this`inodes,
          this`lists, this`why
      ensures Sound() && inodes.Keys == old(inodes).Keys
      ensures ok ==> pending == old(pending) && dir in old(lists)
      ensures ok ==> lists == old(lists)[dir := old(lists)[dir] + [block]]
      ensures ok ==> inodes == old(inodes)[dir := g][dir := inodes[dir]]
      ensures ok ==> SameMeta(old(inodes)[dir].(slots := old(inodes)[dir].slots + 1), inodes[dir])
      ensures ok ==> inodes[dir].nblks == old(inodes)[dir].nblks + 1
      ensures ok ==> nextIno == old(nextIno) + More(old(inodes)[dir].nblks)
      ensures !ok ==> NoBlock(old(inodes)[dir].host, old(inodes)[dir].nblks, old(nextIno), More(old(inodes)[dir].nblks))
    {
      hide MappedAll, Chained, Allocated, NoBlock, More;
      KeysMatch(inodes, inodeHeads, cache, blockHeads, owner, lists);
      SetInode(dir, inodes[dir].(slots := inodes[dir].slots + 1));
      g := inodes[dir];
      ghost var looked;
      ok, looked := AppendBlock(dir, block);
    }

    /** append_block_size; g is the inode between the two steps. */
    method AppendSize(id: nat, size: nat, block: nat) returns (ok: bool, ghost g: Inode)
      requires Sound() && id in inodes
      modifies this`nextIno, this`unused, this`pending, this`cache, this`blockHeads, this`owner, this`inodes,
          this`lists, this`why
      ensures Sound() && inodes.Keys == old(inodes).Keys
      ensures ok ==> pending == old(pending) && id in old(lists) && lists == old(lists)[id := old(lists)[id] + [block]]
      ensures ok ==> inodes == old(inodes)[id := g][id := inodes[id]]
      ensures ok ==> SameMeta(old(inodes)[id].(size := old(inodes)[id].size + size), inodes[id])
      ensures ok ==> inodes[id].nblks == old(inodes)[id].nblks + 1
      ensures ok ==> nextIno == old(nextIno) + More(old(inodes)[id].nblks)
      ensures !ok ==> NoBlock(old(inodes)[id].host, old(inodes)[id].nblks, old(nextIno), More(old(inodes)[id].nblks))
    {
      hide MappedAll, Chained, Allocated, NoBlock, More;
      KeysMatch(inodes, inodeHeads, cache, blockHeads, owner, lists);
      SetInode(id, inodes[id].(size := inodes[id].size + size));
      g := inodes[id];
      ghost var looked;
      ok, looked := AppendBlock(id, block);
    }

    /** The blocks and counters that add_entry changes. */
    method LinkIn(dir: nat, child: nat, name: string) returns (ok: bool, ghost b: nat, ghost g: Inode, ghost f: Inode)
      requires Sound() && Recorded(image, written) && dir in inodes && child in inodes && child != dir
      modifies this`nextIno, this`unused, this`pending, this`cache, this`blockHeads, this`owner, this`inodes,
          this`lists, this`written, this`image, this`why
      ensures ok ==> Sound() && Recorded(image, written) && pending == old(pending) && b !in old(image)
      ensures ok ==> dir in old(lists)
      ensures ok ==>
        inodes == old(inodes)[dir := g][dir := f][child := old(inodes)[child].(nlinks := old(inodes)[child].nlinks + 1)]
      ensures ok ==> lists == old(lists)[dir := old(lists)[dir] + [b]]
      ensures ok ==> image == old(image)[b := EntryBlock(child, name)]
      ensures ok ==> SameMeta(old(inodes)[dir].(slots := old(inodes)[dir].slots + 1), f)
      ensures ok ==>
        Spent(old(inodes), old(nextIno), inodes, nextIno, dir, 1, {}, 1 + More(old(inodes)[dir].nblks))
      ensures !ok ==> NoBlock(old(inodes)[dir].host, old(inodes)[dir].nblks, old(nextIno),
        1 + More(old(inodes)[dir].nblks))
    {
      hide MappedAll, Chained, Allocated, Recorded, NoBlock, Spent, More;
      ok, b, g := EntryIn(dir, child, name);
      f := g;
      if !ok { return; }
      f := inodes[dir];
      SpentLink(old(inodes), old(nextIno), dir, g, f, child, inodes[child].(nlinks := inodes[child].nlinks + 1),
        nextIno,
        1 + More(old(inodes)[dir].nblks));
      hide SameMeta;
      SetInode(child, inodes[child].(nlinks := inodes[child].nlinks + 1));
    }

    /** The entry block, written and appended to the directory. */
    method EntryIn(dir: nat, child: nat, name: string) returns (ok: bool, ghost b: nat, ghost g: Inode)
      requires Sound() && Recorded(image, written) && dir in inodes && child in inodes
      modifies this`nextIno, this`unused, this`pending, this`cache, this`blockHeads, this`owner, this`inodes,
          this`lists, this`written, this`image, this`why
      ensures ok ==> Sound() && Recorded(image, written) && pending == old(pending) && b !in old(image)
      ensures ok ==> dir in old(lists)
      ensures ok ==> inodes.Keys == old(inodes).Keys && inodes == old(inodes)[dir := g][dir := inodes[dir]]
      ensures ok ==> lists == old(lists)[dir := old(lists)[dir] + [b]]
      ensures ok ==> image == old(image)[b := EntryBlock(child, name)]
      ensures ok ==> SameMeta(old(inodes)[dir].(slots := old(inodes)[dir].slots + 1), inodes[dir])
      ensures ok ==> inodes[dir].nblks == old(inodes)[dir].nblks + 1
      ensures ok ==> nextIno == old(nextIno) + 1 + More(old(inodes)[dir].nblks)
      ensures !ok ==> NoBlock(old(inodes)[dir].host, old(inodes)[dir].nblks, old(nextIno),
        1 + More(old(inodes)[dir].nblks))
    {
      hide MappedAll, Chained, Allocated, Recorded, SameMeta, More;
      KeysMatch(inodes, inodeHeads, cache, blockHeads, owner, lists);
      var block: nat;
      ok, block := AllocIno();
      b, g := block, inodes[dir];
      if !ok { return; }
      RecordedMore(image, written, b, EntryBlock(child, name));
      WriteBlock(block, EntryBlock(child, name));
      ok, g := AppendSlot(dir, block);
    }

    /** The blocks and counters that one block of file content changes. */
    method TextIn(id: nat, part: seq<int>) returns (ok: bool, ghost b: nat, ghost g: Inode, ghost f: Inode)
      requires Sound() && Recorded(image, written) && id in inodes
      modifies this`nextIno, this`unused, this`pending, this`cache, this`blockHeads, this`owner, this`inodes,
          this`lists, this`written, this`image, this`why
      ensures ok ==> Sound() && Recorded(image, written) && pending == old(pending) && b !in old(image)
      ensures ok ==> id in old(lists)
      ensures ok ==> inodes == old(inodes)[id := g][id := f]
      ensures ok ==> lists == old(lists)[id := old(lists)[id] + [b]] && image == old(image)[b := DataBlock(part)]
      ensures ok ==> SameMeta(old(inodes)[id].(size := old(inodes)[id].size + |part|), f)
      ensures ok ==> f.nblks == old(inodes)[id].nblks + 1 && nextIno == old(nextIno) + 1 + More(old(inodes)[id].nblks)
      ensures !ok ==> NoBlock(old(inodes)[id].host, old(inodes)[id].nblks, old(nextIno),
        1 + More(old(inodes)[id].nblks))
    {
      hide MappedAll, Chained, Allocated, Recorded, More;
      KeysMatch(inodes, inodeHeads, cache, blockHeads, owner, lists);
      var block: nat;
      ok, block := AllocIno();
      b, g, f := block, inodes[id], inodes[id];
      if ok {
        RecordedMore(image, written, b, DataBlock(part));
        WriteBlock(block, DataBlock(part));
        ok, g := AppendSize(id, |part|, block);
        if ok { f := inodes[id]; }
      }
    }

    /** One block read from the host goes to the end of file id. */
    method AppendText(id: nat, part: seq<int>) returns (ok: bool)
      requires Sound() && Recorded(image, written) && Consistent(T()) && IsText(T(), id) && id in texts
      requires |texts[id]| % BLKSIZE == 0 && 0 < |part| <= BLKSIZE
      modifies this`nextIno, this`unused, this`pending, this`cache, this`blockHeads, this`owner, this`inodes,
          this`lists, this`written, this`image, this`texts, this`why
      ensures ok ==> Sound() && Recorded(image, written) && Consistent(T()) && pending == old(pending)
      ensures ok ==> texts == old(texts)[id := old(texts)[id] + part] && Keeps(old(inodes), inodes)
      ensures ok ==> inodes.Keys == old(inodes).Keys
      ensures ok ==> Spent(old(inodes), old(nextIno), inodes, nextIno, id, 1, {}, 1 + More(old(inodes)[id].nblks))
      ensures !ok ==> NoBlock(old(inodes)[id].host, old(inodes)[id].nblks, old(nextIno),
        1 + More(old(inodes)[id].nblks))
    {
      hide Consistent, Keeps, Recorded, MappedAll, Chained, Allocated, NoBlock, Spent, More;
      ghost var t := T();
      ghost var b, g, f;
      ok, b, g, f := TextIn(id, part);
      if ok {
        SpentBlock(old(inodes), old(nextIno), id, g, f, nextIno, 1 + More(old(inodes)[id].nblks));
        texts := texts[id := texts[id] + part];
        TextAdded(t, T(), id, part, b, g, f);
      }
    }

    /** open_file: copies the text of a host file, block by block. */
    method OpenFile(id: nat, text: seq<int>) returns (ok: bool)
      requires Sound() && Recorded(image, written) && Consistent(T()) && IsText(T(), id) && id in texts
      requires texts[id] == [] && inodes[id].nblks == 0
      modifies this`nextIno, this`unused, this`pending, this`cache, this`blockHeads, this`owner, this`inodes,
          this`lists, this`written, this`image, this`texts, this`why
      ensures ok ==> Sound() && Recorded(image, written) && Consistent(T()) && pending == old(pending)
      ensures ok ==> texts == old(texts)[id := text] && Keeps(old(inodes), inodes) && inodes.Keys == old(inodes).Keys
      ensures ok ==> Blocks(|text|) <= LN_NBLKS
      ensures ok ==>
        Spent(old(inodes), old(nextIno), inodes, nextIno, id, Blocks(|text|), {}, Extent(Blocks(|text|)))
      ensures !ok ==> NoText(old(inodes)[id].host, |text|, old(nextIno))
    {
      hide Consistent, Keeps, Recorded, Sound, NoText, NoBlock, Spent, More, Blocks, Extent;
      var pos := 0;
      var last := BLKSIZE;
      KeepsRefl(inodes);
      SpentText(inodes, nextIno, id);
      assert texts == texts[id := text[..0]];
      while pos < |text|
        invariant 0 <= pos <= |text| && (pos < |text| ==> last == BLKSIZE && pos % BLKSIZE == 0)
        invariant Sound() && Recorded(image, written) && Consistent(T()) && pending == old(pending)
        invariant texts == old(texts)[id := text[..pos]] && Keeps(old(inodes), inodes)
        invariant inodes.Keys == old(inodes).Keys
        invariant Spent(old(inodes), old(nextIno), inodes, nextIno, id, Blocks(pos), {}, Extent(Blocks(pos)))
      {
        var ret := if |text| - pos < BLKSIZE then |text| - pos else BLKSIZE;
        assert last == BLKSIZE;
        KeepsKind(old(inodes), inodes, id);
        ghost var before, next := inodes, nextIno;
        SpentGrown(old(inodes), old(nextIno), inodes, nextIno, id, Blocks(pos), Extent(Blocks(pos)));
        ok := AppendText(id, text[pos..pos + ret]);
        if !ok {
          TextRefused(this, old(inodes)[id].host, |text|, pos, ret, old(nextIno));
          return;
        }
        KeepsTrans(old(inodes), before, inodes);
        TextMore(old(inodes), old(nextIno), before, next, inodes, nextIno, id, pos, ret);
        assert text[..pos] + text[pos..pos + ret] == text[..pos + ret];
        last := ret;
        pos := pos + ret;
      }
      assert text[..pos] == text;
      SpentGrown(old(inodes), old(nextIno), inodes, nextIno, id, Blocks(pos), Extent(Blocks(pos)));
      NotTooBig(this, id);
      ok := true;
    }

    /** open_link: the target must be shorter than a block and not empty. The number for it is asked for first. */
    method OpenLink(id: nat, text: seq<int>) returns (ok: bool)
      requires Sound() && Recorded(image, written) && Consistent(T()) && IsText(T(), id) && id in texts
      requires texts[id] == [] && inodes[id].nblks == 0
      modifies this`nextIno, this`unused, this`pending, this`cache, this`blockHeads, this`owner, this`inodes,
          this`lists, this`written, this`image, this`texts, this`why
      ensures ok ==> Sound() && Recorded(image, written) && Consistent(T()) && pending == old(pending)
      ensures ok ==> texts == old(texts)[id := text] && Keeps(old(inodes), inodes) && inodes.Keys == old(inodes).Keys
      ensures ok ==> 0 < |text| < BLKSIZE && Spent(old(inodes), old(nextIno), inodes, nextIno, id, 1, {}, Extent(1))
      ensures !ok ==> (why == BadLink(text) && !(0 < |text| < BLKSIZE)) || NoSpace(old(nextIno), Extent(1))
    {
      hide Consistent, Keeps, Recorded, MappedAll, Chained, Allocated, Spent;
      if nextIno >= ninos {
        why := Full;
        return false;
      }
      if |text| >= BLKSIZE || |text| == 0 {
        why := BadLink(text);
        return false;
      }
      assert [] + text == text;
      ok := AppendText(id, text);
    }

    /** alloc_cache_inode for a file or a link, which is still empty. */
    method AllocText(host: nat, kind: Kind) returns (ok: bool, id: nat)
      requires Valid() && !kind.DirKind? && what(host).kind == kind
      requires kind.FileKind? ==> forall j :: j in inodes ==> inodes[j].host != host
      modifies this`nextIno, this`unused, this`pending, this`inodes, this`inodeHeads, this`lists, this`texts, this`why
      ensures ok ==> Sound() && Recorded(image, written) && Consistent(T()) && Faithful(T(), what, id)
      ensures ok ==> pending == multiset{} && 0 !in inodes
      ensures ok ==> Keeps(old(inodes), inodes) && id in texts && texts[id] == [] && id !in old(inodes)
      ensures ok ==> IsText(T(), id) && inodes[id].kind == kind && inodes[id].host == host
      ensures ok ==> inodes == old(inodes)[id := FreshInode(kind, host)] && nextIno == old(nextIno) + 1
      ensures !ok ==> NoSpace(old(nextIno), 1)
    {
      hide Consistent, Keeps, Recorded, MappedAll, Chained, Allocated, Faithful, NoSpace;
      ghost var t := T();
      ok, id := AllocInode(host, kind);
      if ok {
        texts := texts[id := []];
        NewFile(t, id, kind, host);
        WithFileKeeps(t, id, kind, host, what);
        assert T() == WithFile(t, id, kind, host);
      }
    }

    /** A new inode with the content of a host object. */
    method Copy(host: nat, kind: Kind, text: seq<int>) returns (ok: bool, id: nat)
      requires Valid() && !kind.DirKind? && what(host) == HostObject(kind, text)
      requires kind.FileKind? ==> forall j :: j in inodes ==> inodes[j].host != host
      modifies this
      ensures ok ==> Valid() && Keeps(old(inodes), inodes) && open == old(open) && log == old(log)
      ensures ok ==> View() == old(View())
      ensures ok ==> id in inodes && id !in old(inodes) && inodes[id].kind == kind && inodes[id].host == host
      ensures ok ==> Copiable(kind, text)
      ensures ok ==> Spent(old(inodes), old(nextIno), inodes, nextIno, 0, 0, {host}, CopyCost(kind, text))
      ensures !ok ==> NoCopy(host, kind, text, old(nextIno), CopyCost(kind, text))
    {
      hide Consistent, Keeps, Recorded, MappedAll, Chained, Allocated, Faithful, HostView, Spent, Extent, CopyBlocks,
          Copiable;
      ghost var t := T();
      ok, id := AllocText(host, kind);
      if !ok { return; }
      ghost var u := T();
      SpentInode(old(inodes), old(nextIno), id, FreshInode(kind, host), 0);
      ok := Fill(id, kind, text);
      if !ok { return; }
      SpentInside(old(inodes), old(nextIno), u.inodes, old(nextIno) + 1, inodes, nextIno, 0, id, CopyBlocks(kind, text),
        {host}, {}, 1, Extent(CopyBlocks(kind, text)));
      AddNone({host});
      FaithfulKept(u, T(), what, id);
      KeepsKind(u.inodes, inodes, id);
      FaithfulNow(T(), what, id);
      KeepsTrans(t.inodes, u.inodes, inodes);
      ViewKept(t, inodes);
    }

    /** open_file or open_link */
    method Fill(id: nat, kind: Kind, text: seq<int>) returns (ok: bool)
      requires Sound() && Recorded(image, written) && Consistent(T()) && IsText(T(), id) && id in texts
      requires texts[id] == [] && inodes[id].nblks == 0
      modifies this`nextIno, this`unused, this`pending, this`cache, this`blockHeads, this`owner, this`inodes,
          this`lists, this`written, this`image, this`texts, this`why
      ensures ok ==> Sound() && Recorded(image, written) && Consistent(T()) && pending == old(pending)
      ensures ok ==> texts == old(texts)[id := text] && Keeps(old(inodes), inodes) && inodes.Keys == old(inodes).Keys
      ensures ok ==> Copiable(kind, text)
      ensures ok ==> Spent(old(inodes), old(nextIno), inodes, nextIno, id, CopyBlocks(kind, text), {},
        Extent(CopyBlocks(kind, text)))
      ensures !ok ==>
        NoCopy(old(inodes)[id].host, kind, text, old(nextIno), Extent(CopyBlocks(kind, text)))
    {
      hide Consistent, Keeps, Recorded, Sound, Spent, Extent, Blocks;
      if kind.FileKind? {
        ok := OpenFile(id, text);
      } else {
        ok := OpenLink(id, text);
      }
    }

    /** add_file: a host file already copied only gets another entry. */
    method AddFile(dir: nat, name: string, host: nat, text: seq<int>) returns (ok: bool)
      requires Valid() && IsDir(T(), dir) && |name| <= MAX_FNAME_LEN && what(host) == HostObject(FileKind, text)
      requires !Hidden(name)
      modifies this
      ensures ok ==> Valid() && Keeps(old(inodes), inodes) && open == old(open)
      ensures ok ==> View() == old(View()) + [(old(inodes)[dir].host, host, name)]
      ensures Accounted(old(inodes), old(nextIno), dir, HostEntry(name, File(host, text)), ok)
    {
      hide Consistent, Keeps, Recorded, MappedAll, Chained, Allocated, Faithful, Spent, NoCopy, NoBlock, Accounted;
      var file := SearchInode(host);
      KnownHost(inodes, host);
      KeepsRefl(inodes);
      ghost var new_ := file == 0;
      ok := true;
      if file == 0 {
        ok, file := Copy(host, FileKind, text);
        if !ok {
          FileRefused(this, old(inodes), old(nextIno), dir, name, host, text);
          return;
        }
      }
      ghost var before, next := inodes, nextIno;
      KeepsKind(old(inodes), before, dir);
      KindByHost(T(), file);
      FileCopied(old(inodes), old(nextIno), before, next, dir, name, host, text);
      ok := AddEntry(dir, file, name);
      EntryAccounted(this, old(inodes), old(nextIno), before, next, dir, HostEntry(name, File(host, text)), ok);
      if ok { KeepsTrans(old(inodes), before, inodes); }
    }

    /** add_link */
    method AddLink(dir: nat, name: string, host: nat, text: seq<int>) returns (ok: bool)
      requires Valid() && IsDir(T(), dir) && |name| <= MAX_FNAME_LEN && what(host) == HostObject(LinkKind, text)
      requires !Hidden(name)
      modifies this
      ensures ok ==> Valid() && Keeps(old(inodes), inodes) && open == old(open)
      ensures ok ==> View() == old(View()) + [(old(inodes)[dir].host, host, name)]
      ensures Accounted(old(inodes), old(nextIno), dir, HostEntry(name, SymLink(host, text)), ok)
    {
      hide Consistent, Keeps, Recorded, MappedAll, Chained, Allocated, Faithful, Spent, NoCopy, NoBlock, Accounted;
      var file;
      ok, file := Copy(host, LinkKind, text);
      if !ok {
        LinkRefused(this, old(inodes), old(nextIno), dir, name, host, text);
        return;
      }
      ghost var before, next := inodes, nextIno;
      KeepsKind(old(inodes), before, dir);
      KindByHost(T(), file);
      LinkCopied(old(inodes), old(nextIno), before, next, dir, name, host, text);
      ok := AddEntry(dir, file, name);
      EntryAccounted(this, old(inodes), old(nextIno), before, next, dir, HostEntry(name, SymLink(host, text)), ok);
      if ok { KeepsTrans(old(inodes), before, inodes); }
    }

    /** init_dir_cache_inode: the directory counts itself, and its parent counts it. */
    method InitDir(current: nat, parent: nat)
      requires Sound() && current in inodes && parent in inodes
      modifies this`inodes
      ensures Sound() && inodes.Keys == old(inodes).Keys
      ensures inodes == DirInitialised(old(inodes), current, parent)
    {
      hide MappedAll, Chained, Allocated;
      SetInode(current, inodes[current].(nlinks := inodes[current].nlinks + 1));
      SetInode(parent, inodes[parent].(nlinks := inodes[parent].nlinks + 1));
      SetInode(current, inodes[current].(parent := parent));
    }

    /** The inode of a new directory, which is open from here on. */
    method AllocDir(host: nat, parent: nat) returns (ok: bool, id: nat)
      requires Valid() && IsDir(T(), parent) && what(host).kind == DirKind
      requires forall j :: j in inodes ==> inodes[j].host != host
      modifies this
      ensures ok ==> Valid() && Keeps(old(inodes), inodes) && id !in old(open) && open == old(open) + {id}
      ensures ok ==> View() == old(View())
      ensures ok ==> IsDir(T(), id) && inodes[id].parent == parent && inodes[id].host == host && id != parent
      ensures ok ==> id != ROOT && id !in old(inodes) && inodes[id].nblks == 0
      ensures ok ==> Spent(old(inodes), old(nextIno), inodes, nextIno, parent, 0, {host}, 1)
      ensures !ok ==> NoSpace(old(nextIno), 1)
    {
      hide Consistent, Keeps, Recorded, MappedAll, Chained, Allocated, Faithful, HostView, WithDir, Sound, NoSpace,
          Spent;
      ghost var t := T();
      OpenKnown(t);
      ok, id := MakeDir(host, parent);
      if !ok { return; }
      NewDir(t, id, host, parent);
      WithDirKeeps(t, id, host, parent, what);
      ViewKept(t, T().inodes);
      DirSpent(t, id, host, parent, old(nextIno));
    }

    method MakeDir(host: nat, parent: nat) returns (ok: bool, id: nat)
      requires Sound() && 0 !in inodes && parent in inodes
      modifies this
      ensures ok ==> Sound() && id !in old(inodes) && id > BLKN_ROOT && T() == WithDir(old(T()), id, host, parent)
      ensures ok ==> 0 !in inodes && nextIno == old(nextIno) + 1
      ensures ok ==> pending == old(pending) && written == old(written) && image == old(image) && log == old(log)
      ensures !ok ==> NoSpace(old(nextIno), 1)
    {
      hide NoSpace, MappedAll, Chained, Allocated, WithDir, DirInitialised;
      ok, id := AllocInode(host, DirKind);
      if !ok { return; }
      InitDir(id, parent);
      open := open + {id};
      InitialisedDir(old(T()), T(), id, host, parent);
    }

    /** add_dir: a directory met a second time ends the program. */
    method AddDir(parent: nat, name: string, host: nat, entries: seq<HostEntry>) returns (ok: bool)
      requires Valid() && IsDir(T(), parent) && |name| <= MAX_FNAME_LEN && what(host).kind == DirKind
      requires Sane(entries, what) && !Hidden(name)
      modifies this
      ensures ok ==> Valid() && Keeps(old(inodes), inodes) && open == old(open)
      ensures ok ==> View() == old(View()) + (Visits(host, entries) + [(old(inodes)[parent].host, host, name)])
      ensures Accounted(old(inodes), old(nextIno), parent, HostEntry(name, Dir(host, entries)), ok)
      decreases entries, 1
    {
      hide Consistent, Keeps, Recorded, MappedAll, Chained, Allocated, Faithful, HostView, Visits, Spent, Accounted,
          Read, NoSpace, NoBlock;
      var found := SearchInode(host);
      KnownHost(inodes, host);
      if found != 0 {
        why := Twice(host);
        DirTwice(this, inodes, nextIno, parent, name, host, entries);
        return false;
      }
      var current;
      ok, current := AllocDir(host, parent);
      if !ok {
        DirUnplaced(this, old(inodes), old(nextIno), parent, name, host, entries);
        return;
      }
      ghost var a, na := inodes, nextIno;
      ok := OpenDir(current, entries);
      if !ok {
        DirRefused(this, old(inodes), old(nextIno), a, na, parent, current, name, host, entries);
        return;
      }
      ghost var b, nb := inodes, nextIno;
      KeepsKind(a, b, current);
      KeepsTrans(old(inodes), a, b);
      KeepsKind(old(inodes), b, parent);
      DirRead(this, old(inodes), old(nextIno), a, na, parent, current, name, host, entries);
      ok := AddEntry(parent, current, name);
      EntryAccounted(this, old(inodes), old(nextIno), b, nb, parent, HostEntry(name, Dir(host, entries)), ok);
      if ok { KeepsTrans(old(inodes), b, inodes); }
    }

    /** What reading a directory does to the accounts. */
    ghost predicate Read(a: Inodes, next: nat, dir: nat, entries: seq<HostEntry>, ok: bool)
      reads this
    {
      && dir in a
      && var seen := Known(a);
      if ok then
        && Storable(entries, seen)
        && Spent(a, next, inodes, nextIno, dir, EntryCount(entries), Hosts(entries), Need(entries, seen))
      else Fault(a[dir].host, entries, seen, why) || NoSpace(next, Need(entries, seen))
    }

    /** open_dir: one entry after the other, in the order of the host. */
    method OpenDir(current: nat, entries: seq<HostEntry>) returns (ok: bool)
      requires Valid() && IsDir(T(), current) && Sane(entries, what) && inodes[current].nblks == 0
      modifies this
      ensures ok ==> Valid() && Keeps(old(inodes), inodes) && open == old(open)
      ensures ok ==> View() == old(View()) + Visits(old(inodes)[current].host, entries)
      ensures Read(old(inodes), old(nextIno), current, entries, ok)
      decreases entries, 0
    {
      hide Consistent, Keeps, Recorded, MappedAll, Chained, Allocated, Faithful, HostView, Visits, ReadTo, Read,
          Accounted;
      ghost var dir := inodes[current].host;
      var k := 0;
      KeepsRefl(inodes);
      VisitsNone(dir, entries);
      ReadNone(this, current, entries);
      while k < |entries|
        invariant 0 <= k <= |entries|
        invariant Valid() && Keeps(old(inodes), inodes) && open == old(open)
        invariant View() == old(View()) + Visits(dir, entries[..k])
        invariant ReadTo(old(inodes), old(nextIno), inodes, nextIno, current, entries, k)
      {
        assert SaneNode(entries[k].node, what);
        KeepsKind(old(inodes), inodes, current);
        VisitsMore(dir, entries, k);
        ghost var before, next := inodes, nextIno;
        ok := AddOne(current, entries[k]);
        if !ok {
          ReadRefused(this, old(inodes), old(nextIno), before, next, current, entries, k);
          return;
        }
        ReadMore(this, old(inodes), old(nextIno), before, next, current, entries, k);
        KeepsTrans(old(inodes), before, inodes);
        k := k + 1;
      }
      assert entries[..k] == entries;
      ReadAll(this, old(inodes), old(nextIno), current, entries);
      ok := true;
    }

    /** The body of the loop of open_dir. */
    method AddOne(current: nat, e: HostEntry) returns (ok: bool)
      requires Valid() && IsDir(T(), current) && SaneNode(e.node, what)
      modifies this
      ensures ok ==> Valid() && Keeps(old(inodes), inodes) && open == old(open)
      ensures ok ==> View() == old(View()) + VisitOne(old(inodes)[current].host, e)
      ensures Accounted(old(inodes), old(nextIno), current, e, ok)
      decreases e
    {
      hide Consistent, Keeps, Recorded, MappedAll, Chained, Allocated, Faithful, HostView, Visits, Accounted;
      KeepsRefl(inodes);
      if Hidden(e.name) {
        EntrySkipped(this, current, e);
        return true;
      }
      if |e.name| > MAX_FNAME_LEN {
        why := LongName(e.name);
        NameRefused(this, current, e);
        return false;
      }
      match e.node
      case SymLink(host, text) => ok := AddLink(current, e.name, host, text);
      case Dir(host, es) => ok := AddDir(current, e.name, host, es);
      case File(host, text) => ok := AddFile(current, e.name, host, text);
      case Special =>
        EntrySkipped(this, current, e);
        ok := true;
    }

    // ----- create_sfs and close_sfs -----

    constructor (n: nat, ghost host: nat -> HostObject)
      requires First(n) < n
      ensures ninos == n && nextIno == First(n) && unused == n - First(n) && written == [] && image == map[]
      ensures cache == map[]
      ensures inodes == map[ROOT := RootInode()] && inodeHeads == Push(NoHeads(), Hash(0), ROOT)
      ensures blockHeads == NoHeads()
      ensures owner == map[] && lists == map[ROOT := []] && pending == multiset{}
      ensures log == [] && texts == map[] && open == {ROOT} && what == host
    {
      ninos := n;
      nextIno := First(n);
      unused := n - First(n);
      inodes := map[ROOT := RootInode()];
      inodeHeads := Push(NoHeads(), Hash(0), ROOT);
      cache := map[];
      blockHeads := NoHeads();
      written := [];
      image := map[];
      owner, lists, pending := map[], map[ROOT := []], multiset{};
      log, texts, open, what, why := [], map[], {ROOT}, host, Fine;
    }

    /** One block written while the image is closed. */
    method Flush(b: nat, c: Content)
      requires Recorded(image, written)
      modifies this`written, this`image
      ensures Recorded(image, written) && written == old(written) + [b] && image == old(image)[b := c]
    {
      RecordedMore(image, written, b, c);
      written := written + [b];
      image := image[b := c];
    }

    /** The buffer of one free-map block: the bits from i up to i + 32768. */
    method FreemapBuffer(i: nat, ghost k: nat) returns (bits: seq<bool>)
      requires nextIno <= ninos && i == BLKBITS * k && i < ninos
      ensures bits == MapBits(ninos, nextIno, k)
    {
      var buffer := new bool[BLKBITS](_ => false);
      if i + BLKBITS > nextIno {
        var start, end := 0, BLKBITS;
        if i < nextIno { start := nextIno - i; }
        if i + BLKBITS > ninos { end := ninos - i; }
        var j := start;
        while j < end
          invariant start <= j && (j <= end || j == start)
          invariant forall m :: 0 <= m < BLKBITS ==> buffer[m] == (start <= m < j)
        {
          buffer[j] := true;
          j := j + 1;
        }
      }
      bits := buffer[..];
    }

    /** close_sfs: free map, super block, cached index blocks and inodes. The finished image holds exactly the
        blocks 0 up to nextIno, each written once, and each holds what it should. */
    method Close()
      requires Valid()
      modifies this`written, this`image
      ensures multiset(written) == multiset(Numbers(0, nextIno)) && image.Keys == Numbers(0, nextIno)
      ensures forall b :: b in image ==> image[b] == Want(ninos, nextIno, unused, inodes, cache, old(image), b)
      ensures First(ninos) <= nextIno <= ninos && unused == ninos - nextIno
      ensures Consistent(T()) && Faithful(T(), what, 0) && MappedAll(inodes, cache, owner, lists)
    {
      hide Consistent, MappedAll, Faithful, Want, Numbers, Recorded, Chained, Allocated, Within, KindsOf;
      ghost var t := T();
      ghost var image0, written0 := image, written;
      AllocBounds(ninos, nextIno, unused, inodes.Keys, cache.Keys, written, multiset{});
      WantKeepsImage(ninos, nextIno, unused, inodes, cache, image, written);
      FlushAll(image0);
      AllWritten(ninos, nextIno, unused, inodes.Keys, cache.Keys, written0, written);
      KeysWritten(image, written, nextIno);
      OldBlocksStay(ninos, nextIno, unused, inodes, cache, image0, written0, image, written);
      StillConsistent(t, T(), what);
    }

    method FlushAll(ghost image0: Image)
      requires AsWanted(image0) && nextIno <= ninos && Chained(inodes, inodeHeads, cache, blockHeads)
      requires Clear(ninos, inodes, cache)
      modifies this`written, this`image
      ensures AsWanted(image0)
      ensures multiset(written) == old(multiset(written)) + multiset(Numbers(BLKN_FREEMAP, First(ninos)))
        + multiset{BLKN_SUPER}
                                   + multiset(cache.Keys) + multiset(inodes.Keys)
    {
      hide AsWanted, Clear, Chained, Numbers;
      FlushFreemap(image0);
      FlushSuper(image0);
      FlushCaches(image0);
    }

    /** Every block in the image so far is as it should be. */
    ghost predicate AsWanted(image0: Image)
      reads this
    {
      Recorded(image, written) && forall b ::
        b in image ==> image[b] == Want(ninos, nextIno, unused, inodes, cache, image0, b)
    }

    /** The chains of one bucket hold what is to be written. */
    lemma ChainsWanted(image0: Image, h: nat)
      requires Chained(inodes, inodeHeads, cache, blockHeads) && h < HASH_LIST_SIZE && Clear(ninos, inodes, cache)
      ensures h < |blockHeads| && h < |inodeHeads|
      ensures forall b :: b in blockHeads[h] ==>
        b in cache && Want(ninos, nextIno, unused, inodes, cache, image0, b) == IndexBlock(cache[b])
      ensures forall b :: b in inodeHeads[h] ==>
        b in inodes && Want(ninos, nextIno, unused, inodes, cache, image0, b) == InodeBlock(inodes[b])
    {
      ChainLengths(inodes, inodeHeads, cache, blockHeads);
      hide Chained;
      forall b | b in blockHeads[h] ensures b in cache { BlockChainHolds(inodes, inodeHeads, cache, blockHeads, h, b); }
      forall b | b in inodeHeads[h] ensures b in inodes { ChainHolds(inodes, inodeHeads, cache, blockHeads, h, b); }
    }

    method FlushWanted(b: nat, c: Content, ghost image0: Image)
      requires AsWanted(image0) && c == Want(ninos, nextIno, unused, inodes, cache, image0, b)
      modifies this`written, this`image
      ensures AsWanted(image0) && written == old(written) + [b]
    {
      hide Want, Recorded;
      Flush(b, c);
    }

    lemma WantFreemap(image0: Image, b: nat)
      requires BLKN_FREEMAP <= b < First(ninos)
      ensures Want(ninos, nextIno, unused, inodes, cache, image0, b)
        == FreemapBlock(MapBits(ninos, nextIno, b - BLKN_FREEMAP))
    {}

    method FlushFreemap(ghost image0: Image)
      requires AsWanted(image0) && nextIno <= ninos
      modifies this`written, this`image
      ensures AsWanted(image0)
      ensures multiset(written) == old(multiset(written)) + multiset(Numbers(BLKN_FREEMAP, First(ninos)))
    {
      hide Recorded, AsWanted, Want, MapBits;
      var i, ino := 0, BLKN_FREEMAP;
      while i < ninos
        invariant AsWanted(image0) && ino >= BLKN_FREEMAP && i == BLKBITS * (ino - BLKN_FREEMAP) && i < ninos + BLKBITS
        invariant multiset(written) == old(multiset(written)) + multiset(Numbers(BLKN_FREEMAP, ino))
      {
        var bits := FreemapBuffer(i, ino - BLKN_FREEMAP);
        assert ino < First(ninos);
        WantFreemap(image0, ino);
        FlushWanted(ino, FreemapBlock(bits), image0);
        NumbersMore(BLKN_FREEMAP, ino);
        ino, i := ino + 1, i + BLKBITS;
      }
      assert ino == First(ninos);
    }

    method FlushSuper(ghost image0: Image)
      requires AsWanted(image0)
      modifies this`written, this`image
      ensures AsWanted(image0) && multiset(written) == old(multiset(written)) + multiset{BLKN_SUPER}
    {
      hide Recorded;
      Flush(BLKN_SUPER, SuperBlock(ninos, unused));
    }

    /** The two chains of every bucket, one bucket after the other. */
    method FlushCaches(ghost image0: Image)
      requires AsWanted(image0) && Chained(inodes, inodeHeads, cache, blockHeads)
      requires Clear(ninos, inodes, cache)
      modifies this`written, this`image
      ensures AsWanted(image0)
      ensures multiset(written) == old(multiset(written)) + multiset(cache.Keys) + multiset(inodes.Keys)
    {
      hide AsWanted, Clear, Chained, Emptied;
      ChainLengths(inodes, inodeHeads, cache, blockHeads);
      var h := 0;
      EmptiedNone(written, blockHeads, inodeHeads);
      while h < HASH_LIST_SIZE
        invariant 0 <= h <= HASH_LIST_SIZE && AsWanted(image0)
        invariant Emptied(old(written), written, blockHeads, inodeHeads, h)
      {
        ghost var before := written;
        FlushBlocks(h, image0);
        FlushInodes(h, image0);
        EmptiedMore(old(written), before, blockHeads, inodeHeads, h);
        h := h + 1;
      }
      EmptiedAll(old(written), written, blockHeads, inodeHeads);
    }

    method FlushBlocks(h: nat, ghost image0: Image)
      requires AsWanted(image0) && Chained(inodes, inodeHeads, cache, blockHeads) && h < HASH_LIST_SIZE
      requires Clear(ninos, inodes, cache)
      modifies this`written, this`image
      ensures AsWanted(image0) && h < |blockHeads| && written == old(written) + blockHeads[h]
    {
      hide Recorded, Chained, Want, AsWanted, Clear;
      ChainsWanted(image0, h);
      var chain := blockHeads[h];
      var k := 0;
      while k < |chain|
        invariant 0 <= k <= |chain| && AsWanted(image0) && written == old(written) + chain[..k]
      {
        assert chain[k] in chain && chain[..k + 1] == chain[..k] + [chain[k]];
        FlushWanted(chain[k], IndexBlock(cache[chain[k]]), image0);
        k := k + 1;
      }
    }

    method FlushInodes(h: nat, ghost image0: Image)
      requires AsWanted(image0) && Chained(inodes, inodeHeads, cache, blockHeads) && h < HASH_LIST_SIZE
      requires Clear(ninos, inodes, cache)
      modifies this`written, this`image
      ensures AsWanted(image0) && h < |inodeHeads| && written == old(written) + inodeHeads[h]
    {
      hide Recorded, Chained, Want, AsWanted, Clear;
      ChainsWanted(image0, h);
      var chain := inodeHeads[h];
      var k := 0;
      while k < |chain|
        invariant 0 <= k <= |chain| && AsWanted(image0) && written == old(written) + chain[..k]
      {
        assert chain[k] in chain && chain[..k + 1] == chain[..k] + [chain[k]];
        FlushWanted(chain[k], InodeBlock(inodes[chain[k]]), image0);
        k := k + 1;
      }
    }
  }

  /** The chains of the first h buckets have been written. */
  ghost predicate Emptied(w0: seq<nat>, w: seq<nat>, blocks: Heads, inodes: Heads, h: nat) {
    && h <= |blocks| && h <= |inodes|
    && multiset(w) == multiset(w0) + multiset(Flat(blocks[..h])) + multiset(Flat(inodes[..h]))
  }

  lemma EmptiedNone(w: seq<nat>, blocks: Heads, inodes: Heads)
    ensures Emptied(w, w, blocks, inodes, 0)
  {
    FlatNone(blocks);
    FlatNone(inodes);
  }

  lemma EmptiedMore(w0: seq<nat>, w: seq<nat>, blocks: Heads, inodes: Heads, h: nat)
    requires h < |blocks| && h < |inodes| && Emptied(w0, w, blocks, inodes, h)
    ensures Emptied(w0, w + blocks[h] + inodes[h], blocks, inodes, h + 1)
  {
    FlatMore(blocks, h);
    FlatMore(inodes, h);
    hide Flat;
  }

  lemma EmptiedAll(w0: seq<nat>, w: seq<nat>, blocks: Heads, inodes: Heads)
    requires |blocks| == |inodes| && Emptied(w0, w, blocks, inodes, |blocks|)
    ensures multiset(w) == multiset(w0) + multiset(Flat(blocks)) + multiset(Flat(inodes))
  {
    assert blocks[..|blocks|] == blocks && inodes[..|inodes|] == inodes;
  }

  ghost predicate Within(a: Image, b: Image) { forall x :: x in a ==> x in b && b[x] == a[x] }

  /** Blocks that are only added do not disturb directories and files. */
  lemma StillConsistent(t: Tree, u: Tree, what: nat -> HostObject)
    requires Consistent(t) && Faithful(t, what, 0) && u == t.(image := u.image)
    requires Within(t.image, u.image)
    ensures Consistent(u) && Faithful(u, what, 0)
  {
    hide Entered, Copied, Placed, Faithful, LinkCounts, LogKnown, HostsDistinct, Within;
    StillEntered(t, u);
    StillCopied(t, u);
    StillPlaced(t, u);
    StillCounted(t, u);
    FaithfulImage(t, u, what);
  }

  lemma FaithfulImage(t: Tree, u: Tree, what: nat -> HostObject)
    requires Faithful(t, what, 0) && u == t.(image := u.image)
    ensures Faithful(u, what, 0)
  {
    forall i | IsText(u, i) && i != 0 ensures i in u.texts && u.texts[i] == what(u.inodes[i].host).text {
      assert IsText(t, i);
    }
  }

  lemma StillCounted(t: Tree, u: Tree)
    requires LinkCounts(t) && LogKnown(t) && HostsDistinct(t) && u == t.(image := u.image)
    ensures LinkCounts(u) && LogKnown(u) && HostsDistinct(u)
  {
    forall e | e in u.log ensures IsDir(u, e.dir) && e.child in u.inodes { assert IsDir(t, e.dir); }
  }

  lemma StillPlaced(t: Tree, u: Tree)
    requires Placed(t) && u == t.(image := u.image)
    ensures Placed(u)
  {
    assert forall i :: IsDir(u, i) <==> IsDir(t, i);
  }

  lemma StillEntered(t: Tree, u: Tree)
    requires Entered(t) && u == t.(image := u.image) && Within(t.image, u.image)
    ensures Entered(u)
  {
    forall d | IsDir(u, d) ensures d in u.lists && DirHolds(u.inodes[d], u.lists[d], Slots(u.log, d), u.image) {
      assert IsDir(t, d);
    }
  }

  lemma StillCopied(t: Tree, u: Tree)
    requires Copied(t) && u == t.(image := u.image) && Within(t.image, u.image)
    ensures Copied(u)
  {
    forall f | IsText(u, f)
      ensures f in u.lists && f in u.texts && FileHolds(u.inodes[f], u.lists[f], u.texts[f], u.image)
    {
      assert IsText(t, f);
    }
  }

  lemma OldBlocksStay(ninos: nat, nextIno: nat, unused: nat, inodes: Inodes, cache: Cache, image0: Image,
      written0: seq<nat>, image: Image, written: seq<nat>)
    requires Recorded(image0, written0) && Recorded(image, written) && multiset(written0) <= multiset(written)
    requires forall b :: b in image0 ==> image0[b] == Want(ninos, nextIno, unused, inodes, cache, image0, b)
    requires forall b :: b in image ==> image[b] == Want(ninos, nextIno, unused, inodes, cache, image0, b)
    ensures Within(image0, image)
  {
    hide Want;
    forall b | b in image0 ensures b in image && image[b] == image0[b] {
      assert b in written0 && b in multiset(written0) && b in multiset(written);
    }
  }

  lemma KeysWritten(image: Image, written: seq<nat>, n: nat)
    requires Recorded(image, written) && multiset(written) == multiset(Numbers(0, n))
    ensures image.Keys == Numbers(0, n)
  {
    forall b ensures b in image <==> b in Numbers(0, n) {
      assert b in written <==> b in multiset(written);
      assert b in multiset(Numbers(0, n)) <==> b in Numbers(0, n);
    }
  }

  // ----- the accounts -----

  lemma KnownHost(inodes: Inodes, host: nat)
    ensures host !in Known(inodes) <==> forall i :: i in inodes ==> inodes[i].host != host
  {}

  lemma AddNone(a: set<nat>)
    ensures a + {} == a
  {}

  lemma SpentText(inodes: Inodes, next: nat, id: nat)
    ensures Spent(inodes, next, inodes, next, id, Blocks(0), {}, Extent(Blocks(0)))
  {
    assert Blocks(0) == 0;
  }

  lemma SpentGrown(a: Inodes, na: nat, b: Inodes, nb: nat, id: nat, n: nat, cost: nat)
    requires Spent(a, na, b, nb, id, n, {}, cost) && id in a && a[id].nblks == 0
    ensures id in b && b[id].nblks == n && nb == na + cost
  {
    hide Known;
  }

  lemma NotTooBig(fs: Sfs, id: nat)
    requires fs.Sound() && id in fs.inodes
    ensures fs.inodes[id].nblks <= LN_NBLKS
  {
    hide Allocated, Chained, Warm, Lookup;
    assert Mapped(id, fs.inodes[id], fs.cache, fs.owner, fs.lists[id]);
  }

  lemma TextMore(a: Inodes, na: nat, b: Inodes, nb: nat, c: Inodes, nc: nat, id: nat, pos: nat, n: nat)
    requires pos % BLKSIZE == 0 && 0 < n <= BLKSIZE && Spent(b, nb, c, nc, id, 1, {}, 1 + More(Blocks(pos)))
    requires Spent(a, na, b, nb, id, Blocks(pos), {}, Extent(Blocks(pos)))
    ensures Spent(a, na, c, nc, id, Blocks(pos + n), {}, Extent(Blocks(pos + n)))
  {
    BlocksMore(pos, n);
    IndexMore(Blocks(pos));
    hide Spent, Blocks, Index, More;
    SpentOn(a, na, b, nb, c, nc, id, Blocks(pos), 1, {}, {}, Extent(Blocks(pos)), 1 + More(Blocks(pos)));
    AddNone({});
  }

  lemma TextRefused(fs: Sfs, host: nat, length: nat, pos: nat, n: nat, next: nat)
    requires pos % BLKSIZE == 0 && 0 < n <= BLKSIZE && pos + n <= length
    requires fs.NoBlock(host, Blocks(pos), next + Extent(Blocks(pos)), 1 + More(Blocks(pos)))
    ensures fs.NoText(host, length, next)
  {
    BlocksMore(pos, n);
    BlocksGrow(pos + n, length);
    IndexMore(Blocks(pos));
    ExtentGrows(Blocks(pos) + 1, Blocks(length));
    hide Blocks, Index, More;
  }

  lemma DirSpent(t: Tree, id: nat, host: nat, parent: nat, next: nat)
    requires id !in t.inodes && parent in t.inodes
    ensures var b := WithDir(t, id, host, parent).inodes;
      Spent(t.inodes, next, b, next + 1, parent, 0, {host}, 1) && id in b && b[id].nblks == 0
  {
    var p := t.inodes[parent];
    SpentDir(t.inodes, next, id, FreshInode(DirKind, host).(nlinks := 1, parent := parent), parent,
      p.(nlinks := p.nlinks + 1), parent);
    hide Spent;
  }

  lemma FileRefused(fs: Sfs, a: Inodes, next: nat, dir: nat, name: string, host: nat, text: seq<int>)
    requires dir in a && host !in Known(a) && !Hidden(name)
    requires fs.NoCopy(host, FileKind, text, next, CopyCost(FileKind, text))
    ensures fs.Accounted(a, next, dir, HostEntry(name, File(host, text)), false)
  {
    hide Known, Extent, Blocks, More;
  }

  lemma LinkRefused(fs: Sfs, a: Inodes, next: nat, dir: nat, name: string, host: nat, text: seq<int>)
    requires dir in a && !Hidden(name) && fs.NoCopy(host, LinkKind, text, next, CopyCost(LinkKind, text))
    ensures fs.Accounted(a, next, dir, HostEntry(name, SymLink(host, text)), false)
  {
    hide Known, Extent, Blocks, More;
  }

  /** The object of an entry is in place, at the cost it should have. */
  ghost predicate InPlace(a: Inodes, na: nat, b: Inodes, nb: nat, dir: nat, e: HostEntry) {
    && Made(e) && StorableOne(e, Known(a))
    && Spent(a, na, b, nb, dir, 0, HostsOne(e), NodeNeed(e.node, Known(a)))
  }

  lemma FileCopied(a: Inodes, na: nat, b: Inodes, nb: nat, dir: nat, name: string, host: nat, text: seq<int>)
    requires !Hidden(name) && |name| <= MAX_FNAME_LEN
    requires if host in Known(a) then b == a && nb == na
      else Copiable(FileKind, text) && Spent(a, na, b, nb, 0, 0, {host}, CopyCost(FileKind, text))
    ensures InPlace(a, na, b, nb, dir, HostEntry(name, File(host, text)))
  {
    if host in Known(a) {
      SpentNone(a, na, dir);
      assert Known(a) + {host} == Known(a);
    } else {
      SpentElse(a, na, b, nb, 0, dir, {host}, CopyCost(FileKind, text));
    }
    hide Known, Extent, Blocks;
  }

  lemma LinkCopied(a: Inodes, na: nat, b: Inodes, nb: nat, dir: nat, name: string, host: nat, text: seq<int>)
    requires !Hidden(name) && |name| <= MAX_FNAME_LEN && Copiable(LinkKind, text)
    requires Spent(a, na, b, nb, 0, 0, {host}, CopyCost(LinkKind, text))
    ensures InPlace(a, na, b, nb, dir, HostEntry(name, SymLink(host, text)))
  {
    SpentElse(a, na, b, nb, 0, dir, {host}, CopyCost(LinkKind, text));
    hide Spent, Known, Blocks;
  }

  /** The entry itself, behind its object. */
  lemma EntryAccounted(fs: Sfs, a: Inodes, na: nat, b: Inodes, nb: nat, dir: nat, e: HostEntry, ok: bool)
    requires dir in a && dir in b && b[dir].host == a[dir].host && InPlace(a, na, b, nb, dir, e)
    requires if ok then Spent(b, nb, fs.inodes, fs.nextIno, dir, 1, {}, 1 + More(b[dir].nblks))
      else fs.NoBlock(b[dir].host, b[dir].nblks, nb, 1 + More(b[dir].nblks))
    ensures fs.Accounted(a, na, dir, e, ok)
  {
    var seen, n := Known(a), a[dir].nblks;
    assert b[dir].nblks == n && nb == na + NodeNeed(e.node, seen);
    hide NodeNeed, HostsOne, StorableOne, FaultOne, More, Known;
    if ok {
      SpentOn(a, na, b, nb, fs.inodes, fs.nextIno, dir, 0, 1, HostsOne(e), {}, NodeNeed(e.node, seen), 1 + More(n));
      AddNone(HostsOne(e));
      hide Spent;
    }
  }

  lemma DirTwice(fs: Sfs, a: Inodes, next: nat, dir: nat, name: string, host: nat, es: seq<HostEntry>)
    requires dir in a && host in Known(a) && !Hidden(name) && fs.why == Twice(host)
    ensures fs.Accounted(a, next, dir, HostEntry(name, Dir(host, es)), false)
  {
    hide Known, Fault;
  }

  lemma DirUnplaced(fs: Sfs, a: Inodes, next: nat, dir: nat, name: string, host: nat, es: seq<HostEntry>)
    requires dir in a && !Hidden(name) && fs.NoSpace(next, 1)
    ensures fs.Accounted(a, next, dir, HostEntry(name, Dir(host, es)), false)
  {
    hide Known, Fault, Need, More;
  }

  lemma DirRefused(fs: Sfs, a: Inodes, na: nat, b: Inodes, nb: nat, dir: nat, id: nat, name: string, host: nat,
      es: seq<HostEntry>)
    requires dir in a && !Hidden(name) && Spent(a, na, b, nb, dir, 0, {host}, 1)
    requires id in b && b[id].host == host && fs.Read(b, nb, id, es, false)
    ensures fs.Accounted(a, na, dir, HostEntry(name, Dir(host, es)), false)
  {
    hide Known, Fault, Need, More;
  }

  lemma DirRead(fs: Sfs, a: Inodes, na: nat, b: Inodes, nb: nat, dir: nat, id: nat, name: string, host: nat,
      es: seq<HostEntry>)
    requires Spent(a, na, b, nb, dir, 0, {host}, 1) && host !in Known(a) && id !in a && fs.Read(b, nb, id, es, true)
    requires !Hidden(name) && |name| <= MAX_FNAME_LEN
    ensures InPlace(a, na, fs.inodes, fs.nextIno, dir, HostEntry(name, Dir(host, es)))
  {
    var seen := Known(a) + {host};
    assert Known(b) == seen;
    hide Known, Storable, Need, Hosts, EntryCount;
    SpentInside(a, na, b, nb, fs.inodes, fs.nextIno, dir, id, EntryCount(es), {host}, Hosts(es), 1, Need(es, seen));
    hide Spent;
  }

  /** An entry that is not made. */
  lemma EntrySkipped(fs: Sfs, dir: nat, e: HostEntry)
    requires dir in fs.inodes && !Made(e) && (Hidden(e.name) || |e.name| <= MAX_FNAME_LEN)
    ensures fs.Accounted(fs.inodes, fs.nextIno, dir, e, true)
  {
    SpentNone(fs.inodes, fs.nextIno, dir);
    hide Spent, Known;
  }

  lemma NameRefused(fs: Sfs, dir: nat, e: HostEntry)
    requires dir in fs.inodes && !Hidden(e.name) && |e.name| > MAX_FNAME_LEN && fs.why == LongName(e.name)
    ensures fs.Accounted(fs.inodes, fs.nextIno, dir, e, false)
  {
    hide Known;
  }

  /** The accounts after the first k entries of a directory. */
  ghost predicate ReadTo(a: Inodes, na: nat, b: Inodes, nb: nat, dir: nat, entries: seq<HostEntry>, k: nat) {
    && dir in a && a[dir].nblks == 0 && k <= |entries|
    && Spent(a, na, b, nb, dir, EntryCount(entries[..k]), Hosts(entries[..k]), Need(entries[..k], Known(a)))
    && forall j :: 0 <= j < k ==> StorableOne(entries[j], Known(a) + Hosts(entries[..j]))
  }

  lemma ReadNone(fs: Sfs, dir: nat, entries: seq<HostEntry>)
    requires dir in fs.inodes && fs.inodes[dir].nblks == 0
    ensures ReadTo(fs.inodes, fs.nextIno, fs.inodes, fs.nextIno, dir, entries, 0)
  {
    SpentNone(fs.inodes, fs.nextIno, dir);
    NeedNone(entries, Known(fs.inodes));
    hide Spent, Known;
  }

  lemma ReadMore(fs: Sfs, a: Inodes, na: nat, b: Inodes, nb: nat, dir: nat, entries: seq<HostEntry>, k: nat)
    requires ReadTo(a, na, b, nb, dir, entries, k) && k < |entries| && fs.Accounted(b, nb, dir, entries[k], true)
    ensures ReadTo(a, na, fs.inodes, fs.nextIno, dir, entries, k + 1)
  {
    var seen, e := Known(a), entries[k];
    var hs, n := Hosts(entries[..k]), EntryCount(entries[..k]);
    assert Known(b) == seen + hs && b[dir].nblks == n;
    PrefixMore(entries, seen, k);
    NeedMore(entries, seen, k);
    hide Known, StorableOne, Need, Cost, Hosts, HostsOne, EntryCount, Spent, Made;
    SpentOn(a, na, b, nb, fs.inodes, fs.nextIno, dir, n, if Made(e) then 1 else 0, hs, HostsOne(e),
      Need(entries[..k], seen), Cost(e, seen + hs, n));
  }

  lemma ReadRefused(fs: Sfs, a: Inodes, na: nat, b: Inodes, nb: nat, dir: nat, entries: seq<HostEntry>, k: nat)
    requires ReadTo(a, na, b, nb, dir, entries, k) && k < |entries| && fs.Accounted(b, nb, dir, entries[k], false)
    requires b[dir].host == a[dir].host
    ensures fs.Read(a, na, dir, entries, false)
  {
    var seen, e := Known(a), entries[k];
    var hs, n := Hosts(entries[..k]), EntryCount(entries[..k]);
    assert Known(b) == seen + hs && b[dir].nblks == n && nb == na + Need(entries[..k], seen);
    PrefixMore(entries, seen, k);
    NeedMore(entries, seen, k);
    NeedGrows(entries, seen, k + 1);
    hide Known, Need, Cost, Hosts, HostsOne, EntryCount, Spent, FaultOne;
    if FaultOne(e, seen + hs, fs.why) { FaultAt(a[dir].host, entries, seen, k, fs.why); }
  }

  lemma ReadAll(fs: Sfs, a: Inodes, na: nat, dir: nat, entries: seq<HostEntry>)
    requires fs.Sound() && ReadTo(a, na, fs.inodes, fs.nextIno, dir, entries, |entries|)
    ensures fs.Read(a, na, dir, entries, true)
  {
    assert entries[..|entries|] == entries;
    NotTooBig(fs, dir);
    hide Known, Need, Hosts, EntryCount, StorableOne;
  }

  /** How many blocks of an image file are used. */
  function Limit(bytes: nat): nat { if bytes / BLKSIZE > MAX_NBLKS then MAX_NBLKS else bytes / BLKSIZE }

  /** create_sfs: null if the image is too small for its own free map. Blocks beyond the limit are not used. */
  method CreateSfs(bytes: nat, ghost host: nat -> HostObject) returns (fs: Sfs?)
    requires host(0).kind == DirKind
    ensures var n := Limit(bytes);
      && (fs == null <==> First(n) >= n)
      && (fs != null ==> fresh(fs) && fs.Valid() && fs.ninos == n && fs.what == host && fs.open == {ROOT})
      && (fs != null ==> fs.View() == [] && fs.inodes == map[ROOT := RootInode()] && fs.nextIno == First(n))
  {
    hide First;
    var n := bytes / BLKSIZE;
    if n > MAX_NBLKS { n := MAX_NBLKS; }
    if First(n) >= n { return null; }
    fs := FirstSfs(n, host);
  }

  method FirstSfs(n: nat, ghost host: nat -> HostObject) returns (fs: Sfs)
    requires host(0).kind == DirKind && First(n) < n
    ensures fresh(fs) && fs.Valid() && fs.ninos == n && fs.what == host && fs.open == {ROOT}
    ensures fs.View() == [] && fs.inodes == map[ROOT := RootInode()] && fs.nextIno == First(n)
  {
    hide Allocated, Chained, MappedAll, Consistent, Faithful, Recorded, Hash, First, Push, RootInode, NoHeads, KindsOf;
    fs := new Sfs(n, host);
    assert fs.inodes.Keys == {ROOT} && fs.cache.Keys == {};
    FirstSound(n);
    FirstConsistent(fs.T(), host);
  }

  /** A state of the builder in which the lookup fails: an image of 100 blocks for a directory with one file of thirteen
      blocks. The index block hangs in the bucket of 0, which is not that of its number. */
  method LostBlock(text: seq<int>, ghost host: nat -> HostObject) returns (fs: Sfs, b: nat, found: nat)
    requires host(0).kind == DirKind && host(7) == HostObject(FileKind, text) && |text| == (NDIRECT + 1) * BLKSIZE
    ensures fs.Valid() && b in fs.cache && b !in fs.blockHeads[Hash(b)] && found == 0
  {
    hide Allocated, Chained, MappedAll, Consistent, Faithful, Recorded, Hash, HostView, KindsOf, Visits;
    fs := FirstSfs(100, host);
    assert First(100) == 3;
    RootIsDir(fs.T());
    var entries := [HostEntry("f", File(7, text))];
    OneFile(text, host);
    var ok := fs.OpenDir(ROOT, entries);
    AllThere(fs, entries, ok, 3);
    hide First;
    NoFault(0, entries, {0}, fs.why);
    assert 7 in Known(fs.inodes);
    var id := fs.SearchInode(7);
    IndexBlockOf(fs, id, text);
    b := fs.inodes[id].indirect;
    found := fs.SearchCacheBlock(b);
    IndexBlocksAreLost(fs.inodes, fs.inodeHeads, fs.cache, fs.blockHeads, b);
    Buckets(b);
  }

  /** What one file of thirteen blocks takes: its inode, its blocks, an index block and an entry. */
  lemma OneFile(text: seq<int>, host: nat -> HostObject)
    requires host(7) == HostObject(FileKind, text) && |text| == (NDIRECT + 1) * BLKSIZE
    ensures var entries := [HostEntry("f", File(7, text))];
      && Sane(entries, host) && Storable(entries, {0}) && Need(entries, {0}) == 16 && Hosts(entries) == {7}
  {
    var e := HostEntry("f", File(7, text));
    var entries := [e];
    assert entries[..0] == [];
    assert Blocks(|text|) == 13 && Extent(13) == 14;
    PrefixMore(entries, {0}, 0);
    assert entries[..1] == entries;
  }

  lemma AllThere(fs: Sfs, entries: seq<HostEntry>, ok: bool, next: nat)
    requires fs.Read(map[ROOT := RootInode()], next, ROOT, entries, ok)
    ensures if ok then
        Storable(entries, {0}) && fs.nextIno == next + Need(entries, {0}) && Known(fs.inodes) == {0} + Hosts(entries)
      else Fault(0, entries, {0}, fs.why) || fs.NoSpace(next, Need(entries, {0}))
  {
    KnownRoot();
    hide Known, Need, Hosts, Storable, Fault;
  }

  lemma KnownRoot()
    ensures Known(map[ROOT := RootInode()]) == {0}
  {
    assert RootInode().host == 0;
    assert ROOT in map[ROOT := RootInode()];
  }

  /** A file of thirteen blocks has an index block, which is cached under a small number. */
  lemma IndexBlockOf(fs: Sfs, id: nat, text: seq<int>)
    requires fs.Valid() && id in fs.inodes && fs.inodes[id].host == 7 && fs.what(7) == HostObject(FileKind, text)
    requires |text| == (NDIRECT + 1) * BLKSIZE && fs.nextIno == 19
    ensures var b := fs.inodes[id].indirect; b in fs.cache && 0 < b < 19
  {
    TextLength(fs, id, text);
    hide Consistent, Faithful, Recorded, Chained;
    FreshNumber(fs.ninos, fs.nextIno, fs.unused, fs.inodes.Keys, fs.cache.Keys, fs.written, fs.pending);
    hide Allocated;
    assert Mapped(id, fs.inodes[id], fs.cache, fs.owner, fs.lists[id]);
    hide Warm, Lookup, Leaves;
  }

  lemma TextLength(fs: Sfs, id: nat, text: seq<int>)
    requires fs.Valid() && id in fs.inodes && fs.inodes[id].host == 7 && fs.what(7) == HostObject(FileKind, text)
    requires |text| == (NDIRECT + 1) * BLKSIZE
    ensures id in fs.lists && |fs.lists[id]| == 13
  {
    var t := fs.T();
    KindByHost(t, id);
    assert IsText(t, id) && fs.texts[id] == text;
    hide Allocated, Chained, Recorded, Faithful, MappedAll;
    assert FileHolds(t.inodes[id], t.lists[id], t.texts[id], t.image);
  }

  /** The multiples of 2^32 in the products that the hash of small numbers is taken from. */
  const QUOTIENTS: seq<nat> := [0, 0, 1, 1, 2, 3, 3, 4, 4, 5, 6, 6, 7, 8, 8, 9, 9, 10, 11]

  lemma Buckets(b: nat)
    requires 0 < b < 19
    ensures Hash(b) != Hash(0)
  {
    Bucket(0, 0, 0);
    var rest := b * 0x9e37_0001 - QUOTIENTS[b] * 0x1_0000_0000;
    assert 0x40_0000 <= rest < 0x1_0000_0000;
    Bucket(b, QUOTIENTS[b], rest);
  }

  lemma Bucket(v: nat, quotient: nat, rest: nat)
    requires v < 0x1_0000_0000 && v * 0x9e37_0001 == quotient * 0x1_0000_0000 + rest && rest < 0x1_0000_0000
    ensures Hash(v) == 0 <==> rest < 0x40_0000
  {
    RestOf(v, 0, v);
    RestOf(v * 0x9e37_0001, quotient, rest);
    assert Hash(v) == rest / 0x40_0000;
    hide Hash;
  }

  lemma RestOf(x: nat, quotient: nat, rest: nat)
    requires x == quotient * 0x1_0000_0000 + rest && rest < 0x1_0000_0000
    ensures x % 0x1_0000_0000 == rest
  {
    var d := x / 0x1_0000_0000;
    assert x == d * 0x1_0000_0000 + x % 0x1_0000_0000;
    assert d == quotient;
  }

  lemma AllocBounds(ninos: nat, nextIno: nat, unused: nat, inodes: set<nat>, cache: set<nat>, written: seq<nat>,
      pending: multiset<nat>)
    requires Allocated(ninos, nextIno, unused, inodes, cache, written, pending)
    ensures First(ninos) <= nextIno <= ninos && unused == ninos - nextIno
  {}

  /** The root after create_sfs: it is its own parent. */
  function RootInode(): (f: Inode)
    ensures f.host == 0 && f.nblks == 0
  {
    FreshInode(DirKind, 0).(nlinks := 2, parent := ROOT)
  }

  lemma FirstSound(ninos: nat)
    requires First(ninos) < ninos
    ensures Allocated(ninos, First(ninos), ninos - First(ninos), {ROOT}, {}, [], multiset{})
    ensures Chained(map[ROOT := RootInode()], Push(NoHeads(), Hash(0), ROOT), map[], NoHeads())
    ensures MappedAll(map[ROOT := RootInode()], map[], map[], map[ROOT := []])
  {
    assert Numbers(First(ninos), First(ninos)) == {};
    FirstChained();
    FirstMapped();
    hide Chained, MappedAll, First;
  }

  lemma FirstChained()
    ensures Chained(map[ROOT := RootInode()], Push(NoHeads(), Hash(0), ROOT), map[], NoHeads())
  {
    FirstInodeChain();
    FirstBlockChains();
    var none: Cache := map[];
    assert none.Keys == {};
    hide InodeChains, BlockChains, Hash;
  }

  lemma FirstInodeChain()
    ensures InodeChains(map[ROOT := RootInode()], Push(NoHeads(), Hash(0), ROOT))
  {
    hide Hash, Flat, RootInode;
    AllEmpty(NoHeads());
    PushFlat(NoHeads(), Hash(0), ROOT);
    PushMember(NoHeads(), Hash(0), ROOT, Hash(0), ROOT);
    var one := map[ROOT := RootInode()];
    assert one.Keys == {ROOT} && multiset(one.Keys) == multiset{ROOT};
    hide Push, NoHeads;
  }

  lemma FirstBlockChains()
    ensures BlockChains({}, NoHeads())
  {
    AllEmpty(NoHeads());
    hide Flat;
  }

  lemma FirstMapped()
    ensures MappedAll(map[ROOT := RootInode()], map[], map[], map[ROOT := []])
  {
    assert Mapped(ROOT, RootInode(), map[], map[], []);
  }

  lemma FirstConsistent(t: Tree, what: nat -> HostObject)
    requires t.inodes == map[ROOT := RootInode()] && t.lists == map[ROOT := []] && t.log == [] && t.texts == map[]
    requires t.image == map[]
    requires t.open == {ROOT} && t.kinds(0) == DirKind
    ensures Consistent(t) && Faithful(t, what, 0) && Recorded(map[], [])
  {
    assert Kids(t.inodes, ROOT) == {ROOT};
  }

  /** The finished image: blocks 0 up to nextIno written once each and holding what they should; the entries are those
      of the host; link counts, slots and file contents agree with them; pointers spell out every file's blocks. */
  ghost predicate Complete(fs: Sfs, entries: seq<HostEntry>)
    reads fs
  {
    var t := fs.T();
    && First(fs.ninos) <= fs.nextIno <= fs.ninos && fs.unused == fs.ninos - fs.nextIno
    && multiset(fs.written) == multiset(Numbers(0, fs.nextIno)) && fs.image.Keys == Numbers(0, fs.nextIno)
    && Intended(fs) && MapCount(fs.image, First(fs.ninos) - BLKN_FREEMAP) == fs.unused
    && fs.View() == Visits(0, entries)
    && MappedAll(fs.inodes, fs.cache, fs.owner, fs.lists) && Entered(t) && Copied(t) && Faithful(t, fs.what, 0)
    && HostsDistinct(t) && CountsAgree(t)
  }

  /** Super block, free map, index blocks and inodes lie where they should. */
  ghost predicate Intended(fs: Sfs)
    reads fs
  {
    forall b :: b in fs.image ==> fs.image[b] == Want(fs.ninos, fs.nextIno, fs.unused, fs.inodes, fs.cache, fs.image, b)
  }

  /** The number of bits set in the first k blocks of the free map of an image. */
  function MapCount(image: Image, k: nat): nat {
    if k == 0 then 0
    else
      var b := BLKN_FREEMAP + k - 1;
      MapCount(image, k - 1) + if b in image && image[b].FreemapBlock? then SetBits(image[b].bits) else 0
  }

  /** The bits set in the free map of the finished image are as many as the super block counts unused. */
  lemma {:induction false} FreeBitsCount(fs: Sfs)
    requires First(fs.ninos) <= fs.nextIno <= fs.ninos && fs.unused == fs.ninos - fs.nextIno
    requires fs.image.Keys == Numbers(0, fs.nextIno) && Intended(fs)
    ensures MapCount(fs.image, First(fs.ninos) - BLKN_FREEMAP) == fs.unused
    ensures BLKN_SUPER in fs.image && fs.image[BLKN_SUPER] == SuperBlock(fs.ninos, fs.unused)
  {
    var k := First(fs.ninos) - BLKN_FREEMAP;
    MapCounts(fs, k);
    FreeBitsTotal(fs.ninos, fs.nextIno, BLKBITS * k);
    assert BLKN_SUPER in fs.image;
  }

  lemma {:induction false} MapCounts(fs: Sfs, k: nat)
    requires First(fs.ninos) <= fs.nextIno && fs.image.Keys == Numbers(0, fs.nextIno) && Intended(fs)
    requires k <= First(fs.ninos) - BLKN_FREEMAP
    ensures MapCount(fs.image, k) == FreeBits(fs.ninos, fs.nextIno, BLKBITS * k)
    decreases k
  {
    if k > 0 {
      MapCounts(fs, k - 1);
      var b, bits := BLKN_FREEMAP + k - 1, MapBits(fs.ninos, fs.nextIno, k - 1);
      assert b in fs.image && fs.image[b] == FreemapBlock(bits);
      SetBitsCount(bits, fs.ninos, fs.nextIno, k - 1, BLKBITS);
      assert bits[..BLKBITS] == bits;
    }
  }

  /** A directory has two links and one more for each of its subdirectories, anything else one for each entry that
      names it; a directory has as many slots as blocks. */
  ghost predicate CountsAgree(t: Tree) {
    forall i :: i in t.inodes ==>
      if IsDir(t, i) then t.inodes[i].nlinks == 2 + DirEntries(t, t.log, i) && i in t.lists
        && t.inodes[i].slots == |t.lists[i]|
      else t.inodes[i].nlinks == Named(t.log, i)
  }

  /** create_img: succeeds exactly when everything can be stored and the blocks suffice. */
  method CreateImg(bytes: nat, entries: seq<HostEntry>, ghost host: nat -> HostObject) returns (ok: bool, fs: Sfs?)
    requires host(0).kind == DirKind && Sane(entries, host)
    ensures var n := Limit(bytes); ok <==> Storable(entries, {0}) && First(n) + Need(entries, {0}) <= n && First(n) < n
    ensures ok ==> fs != null && fs.what == host && Complete(fs, entries)
    ensures ok ==> fs.nextIno == First(Limit(bytes)) + Need(entries, {0})
    ensures fs == null <==> var n := Limit(bytes); First(n) >= n
    ensures !ok && fs != null ==>
      Fault(0, entries, {0}, fs.why) || fs.NoSpace(First(Limit(bytes)), Need(entries, {0}))
  {
    hide Consistent, Faithful, MappedAll, Chained, Allocated, Recorded, Want, Visits, HostView, First, Need, Storable;
    fs := CreateSfs(bytes, host);
    if fs == null { return false, null; }
    RootIsDir(fs.T());
    ghost var first := fs.nextIno;
    ok := fs.OpenDir(ROOT, entries);
    AllThere(fs, entries, ok, first);
    StorableMeans(0, entries, {0});
    if ok {
      AllocBounds(fs.ninos, fs.nextIno, fs.unused, fs.inodes.Keys, fs.cache.Keys, fs.written, fs.pending);
      ghost var image0 := fs.image;
      fs.Close();
      forall b | b in fs.image
        ensures fs.image[b] == Want(fs.ninos, fs.nextIno, fs.unused, fs.inodes, fs.cache, fs.image, b)
      {
        WantTwice(fs.ninos, fs.nextIno, fs.unused, fs.inodes, fs.cache, image0, fs.image, b);
      }
      assert Intended(fs);
      Finish(fs, entries);
    }
  }

  lemma RootIsDir(t: Tree)
    requires Consistent(t)
    ensures IsDir(t, ROOT)
  {}

  lemma WantTwice(ninos: nat, nextIno: nat, unused: nat, inodes: Inodes, cache: Cache, image0: Image, image: Image,
      b: nat)
    requires b in image && image[b] == Want(ninos, nextIno, unused, inodes, cache, image0, b)
    ensures image[b] == Want(ninos, nextIno, unused, inodes, cache, image, b)
  {}

  lemma Finish(fs: Sfs, entries: seq<HostEntry>)
    requires Consistent(fs.T()) && Faithful(fs.T(), fs.what, 0) && MappedAll(fs.inodes, fs.cache, fs.owner, fs.lists)
    requires fs.open == {ROOT}
    requires multiset(fs.written) == multiset(Numbers(0, fs.nextIno)) && fs.image.Keys == Numbers(0, fs.nextIno)
    requires First(fs.ninos) <= fs.nextIno <= fs.ninos && fs.unused == fs.ninos - fs.nextIno && Intended(fs)
    requires fs.View() == Visits(0, entries)
    ensures Complete(fs, entries)
  {
    hide Consistent, Faithful, MappedAll, Visits, HostView, Entered, Copied, Numbers, CountsAgree, HostsDistinct,
        Intended, MapCount, First;
    FinishTree(fs.T());
    FreeBitsCount(fs);
  }

  lemma FinishTree(t: Tree)
    requires Consistent(t) && t.open == {ROOT}
    ensures Entered(t) && Copied(t) && CountsAgree(t) && HostsDistinct(t)
  {
    assert Entered(t) && Copied(t) && HostsDistinct(t);
    hide Consistent, HostsDistinct, Entered, Copied, DirEntries, Named;
    forall i | i in t.inodes
      ensures if IsDir(t, i) then t.inodes[i].nlinks == 2 + DirEntries(t, t.log, i) && i in t.lists
        && t.inodes[i].slots == |t.lists[i]|
              else t.inodes[i].nlinks == Named(t.log, i)
    {
      FinishedCounts(t, i);
    }
  }
}
