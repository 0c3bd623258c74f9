/** Block allocation, the inode and index-block caches with their hash chains, and what they keep. */
module SfsDisk {
  import opened SfsMap

  const BLKBITS := 32768
  const MAX_NBLKS := 524288
  const BLKN_SUPER: nat := 0
  const BLKN_ROOT: nat := 1
  const BLKN_FREEMAP: nat := 2
  const HASH_LIST_SIZE := 1024

  /** hash32 and hash64: the top ten bits of a 32-bit product. */
  function Hash(v: nat): (h: nat)
    ensures h < HASH_LIST_SIZE
  {
    ((v % 0x1_0000_0000) * 0x9e37_0001) % 0x1_0000_0000 / 0x40_0000
  }

  /** The first block behind the free map. */
  function First(ninos: nat): nat { BLKN_FREEMAP + (ninos + BLKBITS - 1) / BLKBITS }

  function Numbers(lo: nat, hi: nat): (s: set<nat>)
    ensures forall x: nat :: x in s <==> lo <= x < hi
  {
    if hi <= lo then {} else Numbers(lo, hi - 1) + {hi - 1}
  }

  // ----- hash chains -----

  type Heads = seq<seq<nat>>

  function NoHeads(): (heads: Heads)
    ensures |heads| == HASH_LIST_SIZE && forall h :: 0 <= h < HASH_LIST_SIZE ==> heads[h] == []
  {
    seq(HASH_LIST_SIZE, _ => [])
  }

  function Flat(heads: Heads): seq<nat> {
    if heads == [] then [] else heads[0] + Flat(heads[1..])
  }

  function Push(heads: Heads, h: nat, b: nat): Heads
    requires h < |heads|
  {
    heads[h := [b] + heads[h]]
  }

  lemma {:induction false} PushFlat(heads: Heads, h: nat, b: nat)
    requires h < |heads|
    ensures multiset(Flat(Push(heads, h, b))) == multiset(Flat(heads)) + multiset{b}
  {
    var heads' := Push(heads, h, b);
    if h == 0 {
      assert heads'[1..] == heads[1..];
      assert Flat(heads') == [b] + Flat(heads);
    } else {
      assert heads'[1..] == Push(heads[1..], h - 1, b) && heads'[0] == heads[0];
      PushFlat(heads[1..], h - 1, b);
      assert Flat(heads') == heads[0] + Flat(heads'[1..]) && Flat(heads) == heads[0] + Flat(heads[1..]);
      hide *;
      BehindFront(heads[0], Flat(heads[1..]), Flat(heads'[1..]), b);
    }
  }

  lemma BehindFront(a: seq<nat>, s: seq<nat>, s': seq<nat>, b: nat)
    requires multiset(s') == multiset(s) + multiset{b}
    ensures multiset(a + s') == multiset(a + s) + multiset{b}
  {
    assert multiset(a + s') == multiset(a) + multiset(s') && multiset(a + s) == multiset(a) + multiset(s);
  }

  lemma {:induction false} InFlat(heads: Heads, h: nat, b: nat)
    requires h < |heads| && b in heads[h]
    ensures b in Flat(heads)
  {
    if h > 0 { InFlat(heads[1..], h - 1, b); }
  }

  // ----- what the caches and the allocator keep -----

  /** Every number handed out is in exactly one place: written, a cached index block, a cached inode, or on its way. */
  ghost predicate Allocated(ninos: nat, nextIno: nat, unused: nat, inodes: set<nat>, cache: set<nat>, written: seq<nat>,
      pending: multiset<nat>) {
    && First(ninos) <= nextIno <= ninos && unused == ninos - nextIno
    && multiset(written) + multiset(cache) + multiset(inodes) + pending
      == multiset(Numbers(First(ninos), nextIno) + {BLKN_ROOT})
  }

  /** Each cached inode hangs once, in the chain of its host number; each index block once, in the chain of 0. */
  ghost predicate Chained(inodes: map<nat, Inode>, inodeHeads: Heads, cache: Cache, blockHeads: Heads) {
    InodeChains(inodes, inodeHeads) && BlockChains(cache.Keys, blockHeads)
  }

  ghost predicate InodeChains(inodes: map<nat, Inode>, heads: Heads) {
    && |heads| == HASH_LIST_SIZE && multiset(Flat(heads)) == multiset(inodes.Keys)
    && forall i :: i in inodes ==> i in heads[Hash(inodes[i].host)]
  }

  ghost predicate BlockChains(cached: set<nat>, heads: Heads) {
    && |heads| == HASH_LIST_SIZE && multiset(Flat(heads)) == multiset(cached)
    && forall h :: 0 < h < HASH_LIST_SIZE ==> heads[h] == []
  }

  /** Every file's pointers spell out its list of blocks. */
  ghost predicate MappedAll(inodes: map<nat, Inode>, cache: Cache, owner: map<nat, Owner>, lists: map<nat, seq<nat>>) {
    && lists.Keys == inodes.Keys && owner.Keys == cache.Keys && 0 !in cache
    && (forall b :: b in owner ==> owner[b].file in inodes)
    && forall i :: i in inodes ==> Mapped(i, inodes[i], cache, owner, lists[i])
  }

  lemma FreshNumber(ninos: nat, nextIno: nat, unused: nat, inodes: set<nat>, cache: set<nat>, written: seq<nat>,
      pending: multiset<nat>)
    requires Allocated(ninos, nextIno, unused, inodes, cache, written, pending)
    ensures nextIno > BLKN_ROOT && nextIno !in inodes && nextIno !in cache && nextIno !in written && nextIno !in pending
    ensures forall x :: x in inodes || x in cache || x in written || x in pending ==> 0 < x < nextIno
  {
    var all := multiset(written) + multiset(cache) + multiset(inodes) + pending;
    forall x | x in inodes || x in cache || x in written || x in pending ensures 0 < x < nextIno {
      assert x in all;
      assert x in Numbers(First(ninos), nextIno) + {BLKN_ROOT};
    }
  }

  lemma NextIsFresh(ninos: nat, nextIno: nat, unused: nat, inodes: set<nat>, cache: set<nat>, written: seq<nat>,
      pending: multiset<nat>)
    requires Allocated(ninos, nextIno, unused, inodes, cache, written, pending)
    ensures nextIno > BLKN_ROOT && nextIno !in inodes && nextIno !in cache && nextIno !in written && nextIno !in pending
  {
    FreshNumber(ninos, nextIno, unused, inodes, cache, written, pending);
  }

  lemma TakeNumber(ninos: nat, nextIno: nat, unused: nat, inodes: set<nat>, cache: set<nat>, written: seq<nat>,
      pending: multiset<nat>)
    requires Allocated(ninos, nextIno, unused, inodes, cache, written, pending) && nextIno < ninos
    ensures Allocated(ninos, nextIno + 1, unused - 1, inodes, cache, written, pending + multiset{nextIno})
  {
    var a, b := Numbers(First(ninos), nextIno) + {BLKN_ROOT}, Numbers(First(ninos), nextIno + 1) + {BLKN_ROOT};
    assert b == a + {nextIno} && nextIno !in a;
    assert multiset(b) == multiset(a) + multiset{nextIno};
  }

  lemma PutWritten(ninos: nat, nextIno: nat, unused: nat, inodes: set<nat>, cache: set<nat>, written: seq<nat>,
      pending: multiset<nat>, b: nat)
    requires Allocated(ninos, nextIno, unused, inodes, cache, written, pending + multiset{b})
    ensures Allocated(ninos, nextIno, unused, inodes, cache, written + [b], pending)
  {
    assert multiset(written + [b]) == multiset(written) + multiset{b};
  }

  lemma PutCached(ninos: nat, nextIno: nat, unused: nat, inodes: set<nat>, cache: set<nat>, written: seq<nat>,
      pending: multiset<nat>, b: nat)
    requires Allocated(ninos, nextIno, unused, inodes, cache, written, pending + multiset{b}) && b !in cache
    ensures Allocated(ninos, nextIno, unused, inodes, cache + {b}, written, pending)
  {
    assert multiset(cache + {b}) == multiset(cache) + multiset{b};
  }

  lemma PutInode(ninos: nat, nextIno: nat, unused: nat, inodes: set<nat>, cache: set<nat>, written: seq<nat>,
      pending: multiset<nat>, b: nat)
    requires Allocated(ninos, nextIno, unused, inodes, cache, written, pending + multiset{b}) && b !in inodes
    ensures Allocated(ninos, nextIno, unused, inodes + {b}, cache, written, pending)
  {
    assert multiset(inodes + {b}) == multiset(inodes) + multiset{b};
  }

  lemma ChainBlock(inodes: map<nat, Inode>, inodeHeads: Heads, cache: Cache, blockHeads: Heads, b: nat)
    requires Chained(inodes, inodeHeads, cache, blockHeads) && b !in cache
    ensures Chained(inodes, inodeHeads, cache[b := Zeros()], Push(blockHeads, Hash(0), b))
  {
    hide InodeChains;
    assert cache[b := Zeros()].Keys == cache.Keys + {b};
    PushBlock(cache.Keys, blockHeads, b);
  }

  lemma PushBlock(cached: set<nat>, heads: Heads, b: nat)
    requires BlockChains(cached, heads) && b !in cached
    ensures BlockChains(cached + {b}, Push(heads, Hash(0), b))
  {
    assert Hash(0) == 0;
    hide Hash;
    PushFlat(heads, 0, b);
    hide Flat;
    assert multiset(cached + {b}) == multiset(cached) + multiset{b};
  }

  lemma ChainInode(inodes: map<nat, Inode>, inodeHeads: Heads, cache: Cache, blockHeads: Heads, i: nat, f: Inode)
    requires Chained(inodes, inodeHeads, cache, blockHeads) && i !in inodes
    ensures Chained(inodes[i := f], Push(inodeHeads, Hash(f.host), i), cache, blockHeads)
  {
    hide Hash, Flat, BlockChains;
    var inodes', heads' := inodes[i := f], Push(inodeHeads, Hash(f.host), i);
    assert multiset(Flat(heads')) == multiset(inodes'.Keys) by {
      PushFlat(inodeHeads, Hash(f.host), i);
      assert inodes'.Keys == inodes.Keys + {i};
      assert multiset(inodes.Keys + {i}) == multiset(inodes.Keys) + multiset{i};
    }
    forall j | j in inodes' ensures j in heads'[Hash(inodes'[j].host)] {
      PushMember(inodeHeads, Hash(f.host), i, Hash(inodes'[j].host), j);
    }
  }

  lemma PushMember(heads: Heads, h: nat, i: nat, k: nat, j: nat)
    requires h < |heads| && k < |heads| && (j in heads[k] || (j == i && k == h))
    ensures j in Push(heads, h, i)[k]
  {}

  /** What hangs in a chain is a cached inode. */
  lemma ChainHolds(inodes: map<nat, Inode>, inodeHeads: Heads, cache: Cache, blockHeads: Heads, h: nat, i: nat)
    requires Chained(inodes, inodeHeads, cache, blockHeads) && h < HASH_LIST_SIZE && i in inodeHeads[h]
    ensures i in inodes
  {
    InFlat(inodeHeads, h, i);
    assert i in multiset(Flat(inodeHeads));
    assert i in multiset(inodes.Keys);
  }

  lemma BlockChainHolds(inodes: map<nat, Inode>, inodeHeads: Heads, cache: Cache, blockHeads: Heads, h: nat, b: nat)
    requires Chained(inodes, inodeHeads, cache, blockHeads) && h < HASH_LIST_SIZE && b in blockHeads[h]
    ensures b in cache
  {
    InFlat(blockHeads, h, b);
    assert b in multiset(Flat(blockHeads));
    assert b in multiset(cache.Keys);
  }

  /** Setting an entry of a cached block does not touch the chains. */
  lemma ChainKept(inodes: map<nat, Inode>, inodeHeads: Heads, cache: Cache, blockHeads: Heads, inodes': map<nat, Inode>,
      cache': Cache)
    requires Chained(inodes, inodeHeads, cache, blockHeads)
    requires inodes'.Keys == inodes.Keys && cache'.Keys == cache.Keys
    requires forall i :: i in inodes ==> inodes'[i].host == inodes[i].host
    ensures Chained(inodes', inodeHeads, cache', blockHeads)
  {}

  /** The lookup of an index block by number fails unless the number hashes to bucket 0: blocks are
      chained under the number 0 they were requested with. */
  lemma IndexBlocksAreLost(inodes: map<nat, Inode>, inodeHeads: Heads, cache: Cache, blockHeads: Heads, b: nat)
    requires Chained(inodes, inodeHeads, cache, blockHeads) && b in cache
    ensures b in blockHeads[Hash(b)] <==> Hash(b) == Hash(0)
  {
    assert b in multiset(cache.Keys);
    assert b in multiset(Flat(blockHeads));
    OnlyFirst(blockHeads, b);
  }

  lemma {:induction false} OnlyFirst(heads: Heads, b: nat)
    requires |heads| > 0 && b in Flat(heads) && forall h :: 0 < h < |heads| ==> heads[h] == []
    ensures b in heads[0]
  {
    AllEmpty(heads[1..]);
  }

  lemma {:induction false} AllEmpty(heads: Heads)
    requires forall h :: 0 <= h < |heads| ==> heads[h] == []
    ensures Flat(heads) == []
  {
    if heads != [] { AllEmpty(heads[1..]); }
  }

  // ----- closing the image -----

  lemma {:induction false} FlatMore(heads: Heads, h: nat)
    requires h < |heads|
    ensures Flat(heads[..h + 1]) == Flat(heads[..h]) + heads[h]
  {
    if h == 0 {
      assert heads[..1] == [heads[0]];
      assert Flat(heads[..1]) == heads[0] + Flat([]);
    } else {
      assert heads[..h + 1][1..] == heads[1..][..h];
      assert heads[..h][1..] == heads[1..][..h - 1];
      FlatMore(heads[1..], h - 1);
    }
  }

  lemma FlatNone(heads: Heads)
    ensures Flat(heads[..0]) == []
  {}

  lemma ChainLengths(inodes: map<nat, Inode>, inodeHeads: Heads, cache: Cache, blockHeads: Heads)
    requires Chained(inodes, inodeHeads, cache, blockHeads)
    ensures |inodeHeads| == |blockHeads| == HASH_LIST_SIZE
    ensures multiset(Flat(inodeHeads)) == multiset(inodes.Keys) && multiset(Flat(blockHeads)) == multiset(cache.Keys)
  {}

  /** With the caches flushed, the free map and the super block written, every number in use is written once. */
  lemma AllWritten(ninos: nat, nextIno: nat, unused: nat, inodes: set<nat>, cache: set<nat>, written: seq<nat>,
      final: seq<nat>)
    requires Allocated(ninos, nextIno, unused, inodes, cache, written, multiset{})
    requires multiset(final) == multiset(written) + multiset(Numbers(BLKN_FREEMAP, First(ninos))) + multiset{BLKN_SUPER}
      + multiset(cache) + multiset(inodes)
    ensures multiset(final) == multiset(Numbers(0, nextIno))
  {
    var used, bits := Numbers(First(ninos), nextIno) + {BLKN_ROOT}, Numbers(BLKN_FREEMAP, First(ninos));
    var a, b, c := multiset(written), multiset(cache), multiset(inodes);
    assert a + b + c + multiset{} == multiset(used);
    NumbersSplit(First(ninos), nextIno);
    hide *;
    Regrouped(a, b, c, multiset(bits), multiset{BLKN_SUPER});
    Together(used, bits);
    Together(used + bits, {BLKN_SUPER});
    assert multiset({BLKN_SUPER}) == multiset{BLKN_SUPER};
  }

  /** The numbers below next are those handed out, the free map and the super block. */
  lemma NumbersSplit(first: nat, next: nat)
    requires BLKN_FREEMAP <= first <= next
    ensures var used, bits := Numbers(first, next) + {BLKN_ROOT}, Numbers(BLKN_FREEMAP, first);
      && Numbers(0, next) == used + bits + {BLKN_SUPER}
      && used !! bits && used + bits !! {BLKN_SUPER}
  {}

  lemma Together(a: set<nat>, b: set<nat>)
    requires a !! b
    ensures multiset(a + b) == multiset(a) + multiset(b)
  {}

  lemma Regrouped(a: multiset<nat>, b: multiset<nat>, c: multiset<nat>, d: multiset<nat>, e: multiset<nat>)
    ensures a + d + e + b + c == a + b + c + multiset{} + d + e
  {}

  lemma NumbersMore(lo: nat, hi: nat)
    requires lo <= hi
    ensures multiset(Numbers(lo, hi + 1)) == multiset(Numbers(lo, hi)) + multiset{hi}
  {
    assert Numbers(lo, hi + 1) == Numbers(lo, hi) + {hi};
  }

  /** The number of unused blocks among the first n. */
  function FreeBits(ninos: nat, nextIno: nat, n: nat): nat {
    if n == 0 then 0 else FreeBits(ninos, nextIno, n - 1) + if nextIno <= n - 1 < ninos then 1 else 0
  }

  lemma {:induction false} FreeBitsTotal(ninos: nat, nextIno: nat, n: nat)
    requires nextIno <= ninos
    ensures FreeBits(ninos, nextIno, n) == if n <= nextIno then 0 else if n <= ninos then n - nextIno
      else ninos - nextIno
  {
    if n > 0 { FreeBitsTotal(ninos, nextIno, n - 1); }
  }

  /** The number of bits set in a free-map block. */
  function SetBits(bits: seq<bool>): nat {
    if bits == [] then 0 else SetBits(bits[..|bits| - 1]) + if bits[|bits| - 1] then 1 else 0
  }

  /** Bit j of block k of the map stands for block 32768 k + j. */
  ghost predicate MapsFrom(bits: seq<bool>, ninos: nat, nextIno: nat, k: nat) {
    |bits| == BLKBITS && forall j :: 0 <= j < BLKBITS ==> bits[j] == (nextIno <= BLKBITS * k + j < ninos)
  }

  lemma {:induction false} SetBitsCount(bits: seq<bool>, ninos: nat, nextIno: nat, k: nat, n: nat)
    requires MapsFrom(bits, ninos, nextIno, k) && n <= BLKBITS
    ensures FreeBits(ninos, nextIno, BLKBITS * k) + SetBits(bits[..n]) == FreeBits(ninos, nextIno, BLKBITS * k + n)
  {
    if n > 0 {
      SetBitsCount(bits, ninos, nextIno, k, n - 1);
      assert bits[..n][..n - 1] == bits[..n - 1];
    }
  }
}
