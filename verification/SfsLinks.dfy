/** Link counts, directory slots and file contents of the image under construction, as facts about values. */
module SfsLinks {
  import opened SfsMap

  const ROOT := 1
  const BLKSIZE := 4096

  /** What a block of the image holds. */
  datatype Content =
    | EntryBlock(ino: nat, name: string)
    | DataBlock(bytes: seq<int>)
    | FreemapBlock(bits: seq<bool>)
    | SuperBlock(nblocks: nat, unusedBlocks: nat)
    | InodeBlock(inode: Inode)
    | IndexBlock(entries: seq<nat>)

  type Inodes = map<nat, Inode>
  type Lists = map<nat, seq<nat>>
  type Image = map<nat, Content>

  /** One add_entry: `dir` got an entry for `child`. */
  datatype Slot = Slot(dir: nat, child: nat, name: string)

  /** How many entries name c. */
  function Named(log: seq<Slot>, c: nat): nat {
    if log == [] then 0 else Named(log[..|log| - 1], c) + if log[|log| - 1].child == c then 1 else 0
  }

  /** The entries of directory d, in order. */
  function Slots(log: seq<Slot>, d: nat): seq<Slot> {
    if log == [] then [] else Slots(log[..|log| - 1], d) + if log[|log| - 1].dir == d then [log[|log| - 1]] else []
  }

  lemma LogMore(log: seq<Slot>, e: Slot, i: nat)
    ensures Named(log + [e], i) == Named(log, i) + if e.child == i then 1 else 0
    ensures Slots(log + [e], i) == Slots(log, i) + if e.dir == i then [e] else []
  {
    assert (log + [e])[..|log + [e]| - 1] == log;
  }

  lemma {:induction false} NeverNamed(log: seq<Slot>, c: nat)
    requires forall e :: e in log ==> e.child != c && e.dir != c
    ensures Named(log, c) == 0 && Slots(log, c) == []
  {
    if log != [] {
      var e := log[|log| - 1];
      assert e in log;
      NeverNamed(log[..|log| - 1], c);
    }
  }

  /** The directories whose parent is d. */
  function Kids(inodes: Inodes, d: nat): set<nat> {
    set c | c in inodes && inodes[c].kind.DirKind? && inodes[c].parent == d
  }

  /** The state of the tree under construction: cached inodes, the blocks of each, the entries so far, the text each
      file has so far, the image, the still-open directories, and the kind of object behind each host number. */
  datatype Tree = Tree(inodes: Inodes, lists: Lists, log: seq<Slot>, texts: map<nat, seq<int>>, image: Image,
    open: set<nat>, kinds: nat -> Kind)

  predicate IsDir(t: Tree, i: nat) { i in t.inodes && t.inodes[i].kind.DirKind? }
  predicate IsText(t: Tree, i: nat) { i in t.inodes && !t.inodes[i].kind.DirKind? }

  /** A directory counts itself, its entry and each subdirectory; anything else counts the entries that name it. */
  ghost predicate LinkCounts(t: Tree) {
    forall i :: i in t.inodes ==>
      t.inodes[i].nlinks == Named(t.log, i) + if t.inodes[i].kind.DirKind? then 1 + |Kids(t.inodes, i)| else 0
  }

  /** The log speaks about known inodes. */
  ghost predicate LogKnown(t: Tree) {
    forall e :: e in t.log ==> IsDir(t, e.dir) && e.child in t.inodes
  }

  /** Slot k of a directory is block k of its list, and that block holds the k-th entry. */
  ghost predicate Entered(t: Tree) {
    forall d :: IsDir(t, d) ==> d in t.lists && DirHolds(t.inodes[d], t.lists[d], Slots(t.log, d), t.image)
  }

  predicate DirHolds(f: Inode, list: seq<nat>, slots: seq<Slot>, image: Image) {
    && f.slots == |list| == |slots|
    && forall k :: 0 <= k < |list| ==> list[k] in image && image[list[k]] == EntryBlock(slots[k].child, slots[k].name)
  }

  function Blocks(len: nat): nat { (len + BLKSIZE - 1) / BLKSIZE }

  /** The k-th block of a text. */
  function Part(text: seq<int>, k: nat): seq<int>
    requires k * BLKSIZE <= |text|
  {
    if (k + 1) * BLKSIZE <= |text| then text[k * BLKSIZE..(k + 1) * BLKSIZE] else text[k * BLKSIZE..]
  }

  /** The blocks of a file, put together, are its text. */
  ghost predicate Copied(t: Tree) {
    forall f :: IsText(t, f) ==> f in t.lists && f in t.texts && FileHolds(t.inodes[f], t.lists[f], t.texts[f], t.image)
  }

  predicate FileHolds(f: Inode, list: seq<nat>, text: seq<int>, image: Image) {
    && f.size == |text| && |list| == Blocks(|text|)
    && forall k :: 0 <= k < |list| ==>
      k * BLKSIZE <= |text| && list[k] in image && image[list[k]] == DataBlock(Part(text, k))
  }

  /** Directories on the still-open path have no entry yet, every other one has exactly one, in its parent. */
  ghost predicate Placed(t: Tree) { OpenPath(t) && OneEntry(t) && InParent(t) }

  ghost predicate OpenPath(t: Tree) {
    && ROOT in t.open && IsDir(t, ROOT) && t.inodes[ROOT].parent == ROOT
    && (forall d :: d in t.open ==> IsDir(t, d))
  }

  ghost predicate OneEntry(t: Tree) {
    forall d :: IsDir(t, d) ==> HasPlace(t.inodes, t.log, t.open, d)
  }

  ghost predicate HasPlace(inodes: Inodes, log: seq<Slot>, open: set<nat>, d: nat)
    requires d in inodes
  {
    && inodes[d].parent in inodes && inodes[inodes[d].parent].kind.DirKind?
    && Named(log, d) == if d in open then 0 else 1
  }

  ghost predicate InParent(t: Tree) {
    forall e :: e in t.log && IsDir(t, e.child) ==> e.dir == t.inodes[e.child].parent
  }

  /** Host numbers determine the kind, and only symbolic links may be cached twice under one number. */
  ghost predicate HostsDistinct(t: Tree) {
    && (forall i :: i in t.inodes ==> t.kinds(t.inodes[i].host) == t.inodes[i].kind)
    && (forall i, j :: i in t.inodes && j in t.inodes && i != j && t.inodes[i].host == t.inodes[j].host ==>
      t.inodes[i].kind.LinkKind?)
  }

  ghost predicate Consistent(t: Tree) {
    LinkCounts(t) && LogKnown(t) && Entered(t) && Copied(t) && Placed(t) && HostsDistinct(t)
  }

  function FreshInode(kind: Kind, host: nat): Inode {
    Inode(kind, host, 0, 0, 0, 0, 0, seq(NDIRECT, _ => 0), 0, 0, 0, 0, 0)
  }

  // ----- alloc_cache_inode for a file or a link -----

  function WithFile(t: Tree, i: nat, kind: Kind, host: nat): Tree {
    Tree(t.inodes[i := FreshInode(kind, host)], t.lists[i := []], t.log, t.texts[i := []], t.image, t.open, t.kinds)
  }

  predicate MayAddFile(t: Tree, i: nat, kind: Kind, host: nat) {
    && i !in t.inodes && !kind.DirKind? && t.kinds(host) == kind
    && (kind.FileKind? ==> forall j :: j in t.inodes ==> t.inodes[j].host != host)
  }

  lemma NewFile(t: Tree, i: nat, kind: Kind, host: nat)
    requires Consistent(t) && MayAddFile(t, i, kind, host)
    ensures Consistent(WithFile(t, i, kind, host))
  {
    NewFileCounts(t, i, kind, host);
    NewFileBlocks(t, i, kind, host);
    NewFilePlaced(t, i, kind, host);
  }

  lemma NewFileCounts(t: Tree, i: nat, kind: Kind, host: nat)
    requires LinkCounts(t) && LogKnown(t) && MayAddFile(t, i, kind, host)
    ensures LinkCounts(WithFile(t, i, kind, host)) && LogKnown(WithFile(t, i, kind, host))
  {
    var u := WithFile(t, i, kind, host);
    NeverNamed(t.log, i);
    forall j | j in u.inodes
      ensures u.inodes[j].nlinks == Named(u.log, j) + if u.inodes[j].kind.DirKind? then 1 + |Kids(u.inodes, j)| else 0
    {
      assert Kids(u.inodes, j) == Kids(t.inodes, j);
    }
  }

  lemma NewFileBlocks(t: Tree, i: nat, kind: Kind, host: nat)
    requires Entered(t) && Copied(t) && MayAddFile(t, i, kind, host)
    ensures Entered(WithFile(t, i, kind, host)) && Copied(WithFile(t, i, kind, host))
  {
    var u := WithFile(t, i, kind, host);
    forall d | IsDir(u, d) ensures d in u.lists && DirHolds(u.inodes[d], u.lists[d], Slots(u.log, d), u.image) {
      assert IsDir(t, d);
    }
    forall f | IsText(u, f)
      ensures f in u.lists && f in u.texts && FileHolds(u.inodes[f], u.lists[f], u.texts[f], u.image)
    {
      if f != i { assert IsText(t, f); }
    }
  }

  lemma NewFilePlaced(t: Tree, i: nat, kind: Kind, host: nat)
    requires Placed(t) && LogKnown(t) && HostsDistinct(t) && MayAddFile(t, i, kind, host)
    ensures Placed(WithFile(t, i, kind, host)) && HostsDistinct(WithFile(t, i, kind, host))
  {
    hide OpenPath, OneEntry, InParent, HostsDistinct, LogKnown;
    NewFileOpenPath(t, i, kind, host);
    NewFileOnce(t, i, kind, host);
    NewFileInParent(t, i, kind, host);
    NewFileHosts(t, i, kind, host);
  }

  lemma NewFileOpenPath(t: Tree, i: nat, kind: Kind, host: nat)
    requires OpenPath(t) && MayAddFile(t, i, kind, host)
    ensures OpenPath(WithFile(t, i, kind, host))
  {
    var u := WithFile(t, i, kind, host);
    forall d | d in u.open ensures IsDir(u, d) { assert IsDir(t, d); }
  }

  lemma NewFileOnce(t: Tree, i: nat, kind: Kind, host: nat)
    requires OneEntry(t) && MayAddFile(t, i, kind, host)
    ensures OneEntry(WithFile(t, i, kind, host))
  {
    var u := WithFile(t, i, kind, host);
    forall d | IsDir(u, d) ensures HasPlace(u.inodes, u.log, u.open, d) {
      assert IsDir(t, d);
    }
  }

  lemma NewFileInParent(t: Tree, i: nat, kind: Kind, host: nat)
    requires InParent(t) && MayAddFile(t, i, kind, host)
    ensures InParent(WithFile(t, i, kind, host))
  {
    var u := WithFile(t, i, kind, host);
    forall e | e in u.log && IsDir(u, e.child) ensures e.dir == u.inodes[e.child].parent { assert IsDir(t, e.child); }
  }

  lemma NewFileHosts(t: Tree, i: nat, kind: Kind, host: nat)
    requires HostsDistinct(t) && MayAddFile(t, i, kind, host)
    ensures HostsDistinct(WithFile(t, i, kind, host))
  {}

  // ----- alloc_cache_inode and init_dir_cache_inode for a directory -----

  /** The tree after directory i has been created below p; it stays open. */
  function WithDir(t: Tree, i: nat, host: nat, p: nat): Tree
    requires p in t.inodes
  {
    Tree(t.inodes[i := FreshInode(DirKind, host).(nlinks := 1,
      parent := p)][p := t.inodes[p].(nlinks := t.inodes[p].nlinks + 1)],
         t.lists[i := []], t.log, t.texts, t.image, t.open + {i}, t.kinds)
  }

  predicate MayAddDir(t: Tree, i: nat, host: nat, p: nat) {
    i !in t.inodes && IsDir(t, p) && t.kinds(host) == DirKind && forall j :: j in t.inodes ==> t.inodes[j].host != host
  }

  lemma NewDir(t: Tree, i: nat, host: nat, p: nat)
    requires Consistent(t) && MayAddDir(t, i, host, p)
    ensures Consistent(WithDir(t, i, host, p))
  {
    NewDirCounts(t, i, host, p);
    NewDirKnown(t, i, host, p);
    NewDirBlocks(t, i, host, p);
    NewDirPlaced(t, i, host, p);
  }

  lemma WithDirFields(t: Tree, i: nat, host: nat, p: nat)
    requires MayAddDir(t, i, host, p)
    ensures var u := WithDir(t, i, host, p);
      && u.inodes.Keys == t.inodes.Keys + {i} && u.log == t.log && u.open == t.open + {i} && u.kinds == t.kinds
      && u.lists == t.lists[i := []] && u.texts == t.texts && u.image == t.image
      && u.inodes[i].kind == DirKind && u.inodes[i].parent == p && u.inodes[i].nlinks == 1 && u.inodes[i].slots == 0
        && u.inodes[i].host == host
      && (forall j :: j in t.inodes ==>
            && u.inodes[j].kind == t.inodes[j].kind && u.inodes[j].parent == t.inodes[j].parent
              && u.inodes[j].host == t.inodes[j].host
            && u.inodes[j].size == t.inodes[j].size && u.inodes[j].slots == t.inodes[j].slots
            && u.inodes[j].nlinks == t.inodes[j].nlinks + if j == p then 1 else 0)
  {}

  lemma NewDirCounts(t: Tree, i: nat, host: nat, p: nat)
    requires LinkCounts(t) && LogKnown(t) && OneEntry(t) && MayAddDir(t, i, host, p)
    ensures LinkCounts(WithDir(t, i, host, p))
  {
    var u := WithDir(t, i, host, p);
    NeverNamed(t.log, i);
    WithDirFields(t, i, host, p);
    hide WithDir, OneEntry, Kids, LogKnown, Named, MayAddDir;
    forall j | j in u.inodes
      ensures u.inodes[j].nlinks == Named(u.log, j) + if u.inodes[j].kind.DirKind? then 1 + |Kids(u.inodes, j)| else 0
    {
      NewDirKids(t, i, host, p, j);
    }
  }

  lemma NewDirKnown(t: Tree, i: nat, host: nat, p: nat)
    requires LogKnown(t) && MayAddDir(t, i, host, p)
    ensures LogKnown(WithDir(t, i, host, p))
  {
    WithDirFields(t, i, host, p);
    hide WithDir;
  }

  lemma NewDirKids(t: Tree, i: nat, host: nat, p: nat, j: nat)
    requires OneEntry(t) && MayAddDir(t, i, host, p)
    ensures |Kids(WithDir(t, i, host, p).inodes, j)| == |Kids(t.inodes, j)| + if j == p then 1 else 0
    ensures |Kids(t.inodes, i)| == 0
  {
    NoOrphans(t, i);
    hide OneEntry;
    WithDirFields(t, i, host, p);
    hide WithDir;
    var u := WithDir(t, i, host, p);
    assert i !in Kids(t.inodes, j);
    if j == p {
      assert Kids(u.inodes, j) == Kids(t.inodes, j) + {i};
    } else {
      assert Kids(u.inodes, j) == Kids(t.inodes, j);
    }
  }

  lemma NoOrphans(t: Tree, i: nat)
    requires OneEntry(t) && i !in t.inodes
    ensures Kids(t.inodes, i) == {}
  {
    assert forall c :: IsDir(t, c) ==> t.inodes[c].parent != i;
  }

  lemma NewDirBlocks(t: Tree, i: nat, host: nat, p: nat)
    requires LogKnown(t) && Entered(t) && Copied(t) && MayAddDir(t, i, host, p)
    ensures Entered(WithDir(t, i, host, p)) && Copied(WithDir(t, i, host, p))
  {
    NewDirEntered(t, i, host, p);
    NewDirCopied(t, i, host, p);
  }

  lemma NewDirEntered(t: Tree, i: nat, host: nat, p: nat)
    requires LogKnown(t) && Entered(t) && MayAddDir(t, i, host, p)
    ensures Entered(WithDir(t, i, host, p))
  {
    NeverNamed(t.log, i);
    WithDirFields(t, i, host, p);
    hide WithDir, LogKnown;
    var u := WithDir(t, i, host, p);
    forall d | IsDir(u, d) ensures d in u.lists && DirHolds(u.inodes[d], u.lists[d], Slots(u.log, d), u.image) {
      if d != i { assert IsDir(t, d); }
    }
  }

  lemma NewDirCopied(t: Tree, i: nat, host: nat, p: nat)
    requires Copied(t) && MayAddDir(t, i, host, p)
    ensures Copied(WithDir(t, i, host, p))
  {
    WithDirFields(t, i, host, p);
    hide WithDir, FileHolds;
    var u := WithDir(t, i, host, p);
    forall f | IsText(u, f)
      ensures f in u.lists && f in u.texts && FileHolds(u.inodes[f], u.lists[f], u.texts[f], u.image)
    {
      assert IsText(t, f);
    }
  }

  lemma NewDirPlaced(t: Tree, i: nat, host: nat, p: nat)
    requires Placed(t) && LogKnown(t) && HostsDistinct(t) && MayAddDir(t, i, host, p)
    ensures Placed(WithDir(t, i, host, p)) && HostsDistinct(WithDir(t, i, host, p))
  {
    hide OpenPath, OneEntry, InParent, HostsDistinct, LogKnown;
    NewDirOpenPath(t, i, host, p);
    NewDirOnce(t, i, host, p);
    NewDirInParent(t, i, host, p);
    NewDirHosts(t, i, host, p);
  }

  lemma NewDirOpenPath(t: Tree, i: nat, host: nat, p: nat)
    requires OpenPath(t) && MayAddDir(t, i, host, p)
    ensures OpenPath(WithDir(t, i, host, p))
  {
    WithDirFields(t, i, host, p);
    hide WithDir;
    var u := WithDir(t, i, host, p);
    forall d | d in u.open ensures IsDir(u, d) {
      if d != i { assert d in t.open && IsDir(t, d); }
    }
  }

  lemma NewDirOnce(t: Tree, i: nat, host: nat, p: nat)
    requires OneEntry(t) && LogKnown(t) && MayAddDir(t, i, host, p)
    ensures OneEntry(WithDir(t, i, host, p))
  {
    NeverNamed(t.log, i);
    hide LogKnown;
    WithDirFields(t, i, host, p);
    hide WithDir;
    var u := WithDir(t, i, host, p);
    forall d | IsDir(u, d) ensures HasPlace(u.inodes, u.log, u.open, d) {
      if d != i { assert IsDir(t, d); }
    }
  }

  lemma NewDirInParent(t: Tree, i: nat, host: nat, p: nat)
    requires InParent(t) && LogKnown(t) && MayAddDir(t, i, host, p)
    ensures InParent(WithDir(t, i, host, p))
  {
    WithDirFields(t, i, host, p);
    hide WithDir;
    var u := WithDir(t, i, host, p);
    forall e | e in u.log && IsDir(u, e.child) ensures e.dir == u.inodes[e.child].parent {
      assert e.child in t.inodes && IsDir(t, e.child);
    }
  }

  lemma NewDirHosts(t: Tree, i: nat, host: nat, p: nat)
    requires HostsDistinct(t) && MayAddDir(t, i, host, p)
    ensures HostsDistinct(WithDir(t, i, host, p))
  {
    WithDirFields(t, i, host, p);
    hide WithDir;
  }

  // ----- add_entry -----

  /** The tree after `dir`, whose inode is now f, got an entry in block b for `child`. */
  function WithEntry(t: Tree, dir: nat, child: nat, name: string, b: nat, f: Inode): Tree
    requires dir in t.lists && child in t.inodes
  {
    Tree(t.inodes[dir := f][child := t.inodes[child].(nlinks := t.inodes[child].nlinks + 1)],
         t.lists[dir := t.lists[dir] + [b]], t.log + [Slot(dir, child, name)], t.texts,
         t.image[b := EntryBlock(child, name)], t.open - {child}, t.kinds)
  }

  predicate MayAddEntry(t: Tree, dir: nat, child: nat, b: nat, f: Inode) {
    && IsDir(t, dir) && dir in t.lists && child in t.inodes && child != dir && b !in t.image
    && f.kind == DirKind && f.host == t.inodes[dir].host && f.parent == t.inodes[dir].parent
    && f.nlinks == t.inodes[dir].nlinks && f.slots == t.inodes[dir].slots + 1
    && (IsDir(t, child) ==> child in t.open && child != ROOT && t.inodes[child].parent == dir)
  }

  lemma WithEntryFields(t: Tree, dir: nat, child: nat, name: string, b: nat, f: Inode)
    requires MayAddEntry(t, dir, child, b, f)
    ensures var u := WithEntry(t, dir, child, name, b, f);
      && u.inodes.Keys == t.inodes.Keys && u.log == t.log + [Slot(dir, child, name)] && u.open == t.open - {child}
        && u.kinds == t.kinds
      && u.lists == t.lists[dir := t.lists[dir] + [b]] && u.texts == t.texts
        && u.image == t.image[b := EntryBlock(child, name)]
      && (forall j :: j in t.inodes ==>
            && u.inodes[j].kind == t.inodes[j].kind && u.inodes[j].parent == t.inodes[j].parent
              && u.inodes[j].host == t.inodes[j].host
            && u.inodes[j].slots == t.inodes[j].slots + (if j == dir then 1 else 0)
            && (j != dir ==> u.inodes[j].size == t.inodes[j].size)
            && u.inodes[j].nlinks == t.inodes[j].nlinks + if j == child then 1 else 0)
  {}

  lemma NewEntry(t: Tree, dir: nat, child: nat, name: string, b: nat, f: Inode)
    requires Consistent(t) && MayAddEntry(t, dir, child, b, f)
    ensures Consistent(WithEntry(t, dir, child, name, b, f))
  {
    NewEntryCounts(t, dir, child, name, b, f);
    NewEntryKnown(t, dir, child, name, b, f);
    NewEntrySlots(t, dir, child, name, b, f);
    NewEntryTexts(t, dir, child, name, b, f);
    NewEntryPlaced(t, dir, child, name, b, f);
    NewEntryHosts(t, dir, child, name, b, f);
  }

  lemma NewEntryCounts(t: Tree, dir: nat, child: nat, name: string, b: nat, f: Inode)
    requires LinkCounts(t) && MayAddEntry(t, dir, child, b, f)
    ensures LinkCounts(WithEntry(t, dir, child, name, b, f))
  {
    WithEntryFields(t, dir, child, name, b, f);
    hide WithEntry;
    var u := WithEntry(t, dir, child, name, b, f);
    forall j | j in u.inodes
      ensures u.inodes[j].nlinks == Named(u.log, j) + if u.inodes[j].kind.DirKind? then 1 + |Kids(u.inodes, j)| else 0
    {
      LogMore(t.log, Slot(dir, child, name), j);
      assert Kids(u.inodes, j) == Kids(t.inodes, j);
    }
  }

  lemma NewEntryKnown(t: Tree, dir: nat, child: nat, name: string, b: nat, f: Inode)
    requires LogKnown(t) && MayAddEntry(t, dir, child, b, f)
    ensures LogKnown(WithEntry(t, dir, child, name, b, f))
  {
    WithEntryFields(t, dir, child, name, b, f);
    hide WithEntry;
    var u := WithEntry(t, dir, child, name, b, f);
    forall e | e in u.log ensures IsDir(u, e.dir) && e.child in u.inodes {
      if e in t.log { assert IsDir(t, e.dir); }
    }
  }

  lemma NewEntrySlots(t: Tree, dir: nat, child: nat, name: string, b: nat, f: Inode)
    requires Entered(t) && MayAddEntry(t, dir, child, b, f)
    ensures Entered(WithEntry(t, dir, child, name, b, f))
  {
    WithEntryFields(t, dir, child, name, b, f);
    hide WithEntry;
    var u := WithEntry(t, dir, child, name, b, f);
    forall d | IsDir(u, d) ensures d in u.lists && DirHolds(u.inodes[d], u.lists[d], Slots(u.log, d), u.image) {
      LogMore(t.log, Slot(dir, child, name), d);
      assert IsDir(t, d);
    }
  }

  lemma NewEntryTexts(t: Tree, dir: nat, child: nat, name: string, b: nat, f: Inode)
    requires Copied(t) && MayAddEntry(t, dir, child, b, f)
    ensures Copied(WithEntry(t, dir, child, name, b, f))
  {
    WithEntryFields(t, dir, child, name, b, f);
    hide WithEntry;
    var u := WithEntry(t, dir, child, name, b, f);
    forall i | IsText(u, i)
      ensures i in u.lists && i in u.texts && FileHolds(u.inodes[i], u.lists[i], u.texts[i], u.image)
    {
      assert IsText(t, i);
    }
  }

  lemma NewEntryPlaced(t: Tree, dir: nat, child: nat, name: string, b: nat, f: Inode)
    requires Placed(t) && MayAddEntry(t, dir, child, b, f)
    ensures Placed(WithEntry(t, dir, child, name, b, f))
  {
    NewEntryOnce(t, dir, child, name, b, f);
    NewEntryInParent(t, dir, child, name, b, f);
    NewEntryOpenPath(t, dir, child, name, b, f);
  }

  lemma NewEntryInParent(t: Tree, dir: nat, child: nat, name: string, b: nat, f: Inode)
    requires InParent(t) && MayAddEntry(t, dir, child, b, f)
    ensures InParent(WithEntry(t, dir, child, name, b, f))
  {
    WithEntryFields(t, dir, child, name, b, f);
    hide WithEntry;
    var u := WithEntry(t, dir, child, name, b, f);
    forall e | e in u.log && IsDir(u, e.child) ensures e.dir == u.inodes[e.child].parent {
      assert IsDir(t, e.child);
      if e !in t.log { assert e == Slot(dir, child, name); }
    }
  }

  lemma NewEntryOpenPath(t: Tree, dir: nat, child: nat, name: string, b: nat, f: Inode)
    requires OpenPath(t) && MayAddEntry(t, dir, child, b, f)
    ensures OpenPath(WithEntry(t, dir, child, name, b, f))
  {
    WithEntryFields(t, dir, child, name, b, f);
    hide WithEntry;
    var u := WithEntry(t, dir, child, name, b, f);
    assert ROOT != child;
    forall d | d in u.open ensures IsDir(u, d) { assert d in t.open && IsDir(t, d); }
  }

  lemma NewEntryOnce(t: Tree, dir: nat, child: nat, name: string, b: nat, f: Inode)
    requires OneEntry(t) && MayAddEntry(t, dir, child, b, f)
    ensures OneEntry(WithEntry(t, dir, child, name, b, f))
  {
    WithEntryFields(t, dir, child, name, b, f);
    hide WithEntry;
    var u := WithEntry(t, dir, child, name, b, f);
    forall d | IsDir(u, d) ensures HasPlace(u.inodes, u.log, u.open, d) {
      assert IsDir(t, d);
      LogMore(t.log, Slot(dir, child, name), d);
    }
  }

  lemma NewEntryHosts(t: Tree, dir: nat, child: nat, name: string, b: nat, f: Inode)
    requires HostsDistinct(t) && MayAddEntry(t, dir, child, b, f)
    ensures HostsDistinct(WithEntry(t, dir, child, name, b, f))
  {
    WithEntryFields(t, dir, child, name, b, f);
    hide WithEntry;
  }

  // ----- append_block_size -----

  /** The tree after file i, whose inode is now f, got the next part of its text in block b. */
  function WithText(t: Tree, i: nat, part: seq<int>, b: nat, f: Inode): Tree
    requires i in t.lists && i in t.texts
  {
    Tree(t.inodes[i := f], t.lists[i := t.lists[i] + [b]], t.log, t.texts[i := t.texts[i] + part],
         t.image[b := DataBlock(part)], t.open, t.kinds)
  }

  predicate MayAddText(t: Tree, i: nat, part: seq<int>, b: nat, f: Inode) {
    && IsText(t, i) && i in t.lists && i in t.texts && b !in t.image
    && |t.texts[i]| % BLKSIZE == 0 && 0 < |part| <= BLKSIZE
    && f.kind == t.inodes[i].kind && f.host == t.inodes[i].host && f.parent == t.inodes[i].parent
    && f.nlinks == t.inodes[i].nlinks && f.slots == t.inodes[i].slots && f.size == t.inodes[i].size + |part|
  }

  lemma NewText(t: Tree, i: nat, part: seq<int>, b: nat, f: Inode)
    requires Consistent(t) && MayAddText(t, i, part, b, f)
    ensures Consistent(WithText(t, i, part, b, f))
  {
    NewTextCounts(t, i, part, b, f);
    NewTextBlocks(t, i, part, b, f);
    NewTextPlaced(t, i, part, b, f);
  }

  lemma NewTextCounts(t: Tree, i: nat, part: seq<int>, b: nat, f: Inode)
    requires LinkCounts(t) && LogKnown(t) && HostsDistinct(t) && MayAddText(t, i, part, b, f)
    ensures LinkCounts(WithText(t, i, part, b, f)) && LogKnown(WithText(t, i, part, b, f))
    ensures HostsDistinct(WithText(t, i, part, b, f))
  {
    var u := WithText(t, i, part, b, f);
    forall j | j in u.inodes
      ensures u.inodes[j].nlinks == Named(u.log, j) + if u.inodes[j].kind.DirKind? then 1 + |Kids(u.inodes, j)| else 0
    {
      assert Kids(u.inodes, j) == Kids(t.inodes, j);
    }
  }

  lemma NewTextBlocks(t: Tree, i: nat, part: seq<int>, b: nat, f: Inode)
    requires Entered(t) && Copied(t) && MayAddText(t, i, part, b, f)
    ensures Entered(WithText(t, i, part, b, f)) && Copied(WithText(t, i, part, b, f))
  {
    var u := WithText(t, i, part, b, f);
    forall d | IsDir(u, d) ensures d in u.lists && DirHolds(u.inodes[d], u.lists[d], Slots(u.log, d), u.image) {
      assert IsDir(t, d);
    }
    forall j | IsText(u, j)
      ensures j in u.lists && j in u.texts && FileHolds(u.inodes[j], u.lists[j], u.texts[j], u.image)
    {
      assert IsText(t, j);
      if j == i { TextGrows(t.inodes[i], t.lists[i], t.texts[i], t.image, part, b, f); }
    }
  }

  lemma TextGrows(g: Inode, list: seq<nat>, text: seq<int>, image: Image, part: seq<int>, b: nat, f: Inode)
    requires FileHolds(g, list, text, image) && b !in image && f.size == g.size + |part|
    requires |text| % BLKSIZE == 0 && 0 < |part| <= BLKSIZE
    ensures FileHolds(f, list + [b], text + part, image[b := DataBlock(part)])
  {
    var n := |list|;
    assert |text| == n * BLKSIZE;
    forall k | 0 <= k < n + 1
      ensures k * BLKSIZE <= |text + part| && (list + [b])[k] in image[b := DataBlock(part)]
      ensures image[b := DataBlock(part)][(list + [b])[k]] == DataBlock(Part(text + part, k))
    {
      if k < n {
        assert (k + 1) * BLKSIZE <= |text|;
        assert (text + part)[k * BLKSIZE..(k + 1) * BLKSIZE] == text[k * BLKSIZE..(k + 1) * BLKSIZE];
      } else {
        assert (text + part)[|text|..] == part;
        if |part| == BLKSIZE { assert (text + part)[k * BLKSIZE..(k + 1) * BLKSIZE] == part; }
      }
    }
  }

  lemma NewTextPlaced(t: Tree, i: nat, part: seq<int>, b: nat, f: Inode)
    requires Placed(t) && MayAddText(t, i, part, b, f)
    ensures Placed(WithText(t, i, part, b, f))
  {
    var u := WithText(t, i, part, b, f);
    assert forall d :: IsDir(u, d) <==> IsDir(t, d);
  }

  // ----- the host's view of the entries -----

  function HostOf(inodes: Inodes, i: nat): nat { if i in inodes then inodes[i].host else 0 }

  /** Each entry as (host number of the directory, host number of the child, name). */
  function HostView(inodes: Inodes, log: seq<Slot>): seq<(nat, nat, string)> {
    if log == [] then []
    else
      var e := log[|log| - 1];
      HostView(inodes, log[..|log| - 1]) + [(HostOf(inodes, e.dir), HostOf(inodes, e.child), e.name)]
  }

  /** Known inodes keep their kind, host number and parent. */
  ghost predicate Keeps(a: Inodes, b: Inodes) {
    forall i :: i in a ==> i in b && b[i].kind == a[i].kind && b[i].host == a[i].host && b[i].parent == a[i].parent
  }

  lemma KeepsRefl(a: Inodes)
    ensures Keeps(a, a)
  {}

  lemma KeepsTrans(a: Inodes, b: Inodes, c: Inodes)
    requires Keeps(a, b) && Keeps(b, c)
    ensures Keeps(a, c)
  {}

  lemma KeepsKind(a: Inodes, b: Inodes, i: nat)
    requires Keeps(a, b) && i in a
    ensures i in b && b[i].kind == a[i].kind && b[i].host == a[i].host && b[i].parent == a[i].parent
  {}

  lemma {:induction false} HostViewKept(a: Inodes, b: Inodes, log: seq<Slot>)
    requires Keeps(a, b) && forall e :: e in log ==> e.dir in a && e.child in a
    ensures HostView(b, log) == HostView(a, log)
  {
    if log != [] {
      assert log[|log| - 1] in log;
      HostViewKept(a, b, log[..|log| - 1]);
    }
  }

  lemma ViewKept(t: Tree, inodes: Inodes)
    requires Consistent(t) && Keeps(t.inodes, inodes)
    ensures HostView(inodes, t.log) == HostView(t.inodes, t.log)
  {
    HostViewKept(t.inodes, inodes, t.log);
  }

  lemma ViewEntry(t: Tree, inodes: Inodes, dir: nat, child: nat, name: string)
    requires Consistent(t) && Keeps(t.inodes, inodes) && dir in t.inodes && child in t.inodes
    ensures HostView(inodes, t.log + [Slot(dir, child, name)]) ==
            HostView(t.inodes, t.log) + [(t.inodes[dir].host, t.inodes[child].host, name)]
  {
    ViewKept(t, inodes);
    var log := t.log + [Slot(dir, child, name)];
    assert log[..|log| - 1] == t.log;
  }

  // ----- the finished tree -----

  /** How many entries of directory d are directories. */
  function DirEntries(t: Tree, log: seq<Slot>, d: nat): nat {
    if log == [] then 0
    else DirEntries(t, log[..|log| - 1], d) + if log[|log| - 1].dir == d && IsDir(t, log[|log| - 1].child) then 1 else 0
  }

  /** The subdirectories of d that have an entry in the log. */
  function NamedKids(t: Tree, log: seq<Slot>, d: nat): set<nat> {
    set c | c in Kids(t.inodes, d) && Named(log, c) > 0
  }

  lemma {:induction false} NamedMonotone(log: seq<Slot>, n: nat, c: nat)
    requires n <= |log|
    ensures Named(log[..n], c) <= Named(log, c)
  {
    if n < |log| {
      assert log[..|log| - 1][..n] == log[..n];
      NamedMonotone(log[..|log| - 1], n, c);
    } else {
      assert log[..n] == log;
    }
  }

  lemma {:induction false} DirEntriesCount(t: Tree, n: nat, d: nat)
    requires OneEntry(t) && InParent(t) && n <= |t.log|
    ensures DirEntries(t, t.log[..n], d) == |NamedKids(t, t.log[..n], d)|
  {
    if n == 0 {
      assert NamedKids(t, t.log[..0], d) == {};
    } else {
      var log, pre, e := t.log[..n], t.log[..n - 1], t.log[n - 1];
      assert log[..|log| - 1] == pre && log == pre + [e] && e in t.log;
      DirEntriesCount(t, n - 1, d);
      NamedMonotone(t.log, n, e.child);
      NamedKidsMore(t, pre, e, d);
      hide NamedKids, OneEntry, InParent;
    }
  }

  /** One entry more names one subdirectory more, or none. */
  lemma NamedKidsMore(t: Tree, pre: seq<Slot>, e: Slot, d: nat)
    requires OneEntry(t) && InParent(t) && e in t.log && Named(pre + [e], e.child) <= Named(t.log, e.child)
    ensures if e.dir == d && IsDir(t, e.child) then
        NamedKids(t, pre + [e], d) == NamedKids(t, pre, d) + {e.child} && e.child !in NamedKids(t, pre, d)
      else NamedKids(t, pre + [e], d) == NamedKids(t, pre, d)
  {
    forall c ensures Named(pre + [e], c) == Named(pre, c) + if e.child == c then 1 else 0 { LogMore(pre, e, c); }
    hide Named;
  }

  /** When only the root is open, a directory's link count is two more than the number of its entries that are
      directories, its slots and blocks number its entries, and a file's link count is that of the entries naming it. */
  lemma FinishedCounts(t: Tree, i: nat)
    requires Consistent(t) && t.open == {ROOT} && i in t.inodes
    ensures IsDir(t, i) ==> t.inodes[i].nlinks == 2 + DirEntries(t, t.log, i)
    ensures IsDir(t, i) ==> i in t.lists && t.inodes[i].slots == |t.lists[i]| == |Slots(t.log, i)|
    ensures !IsDir(t, i) ==> t.inodes[i].nlinks == Named(t.log, i)
  {
    hide Placed, Copied, HostsDistinct, LogKnown;
    if IsDir(t, i) {
      FinishedKids(t, i);
    }
  }

  lemma FinishedKids(t: Tree, i: nat)
    requires Placed(t) && t.open == {ROOT} && IsDir(t, i)
    ensures Named(t.log, i) + |Kids(t.inodes, i)| == 1 + DirEntries(t, t.log, i)
  {
    DirEntriesCount(t, |t.log|, i);
    assert t.log[..|t.log|] == t.log;
    hide DirEntries;
    forall c | c in Kids(t.inodes, i) ensures Named(t.log, c) == if c == ROOT then 0 else 1 { assert IsDir(t, c); }
    if i == ROOT {
      assert ROOT in Kids(t.inodes, ROOT);
      assert NamedKids(t, t.log, ROOT) == Kids(t.inodes, ROOT) - {ROOT};
    } else {
      assert ROOT !in Kids(t.inodes, i);
      assert NamedKids(t, t.log, i) == Kids(t.inodes, i);
    }
  }
}
