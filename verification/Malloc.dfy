/** The user-space allocator: a ring of free blocks in address order, with two kinds of memory. */
module Malloc {
  import opened Common

  /** Bytes in one header; block sizes are counted in this unit. */
  const UNIT := 64

  /** The NULL pointer. */
  const NULL := 0

  /** `shared` is the type field: false for memory from brk, true for shared memory. */
  datatype Header = Header(ptr: int, size: nat, shared: bool)

  /** What the kernel hands out for one request. */
  datatype Chunk = Chunk(addr: int, units: nat)

  type Headers = map<int, Header>

  // ----- blocks -----

  function End(h: Headers, a: int): int
    requires a in h
  {
    a + UNIT * h[a].size
  }

  /** First address above block a; the anchor of the ring has size 0 but occupies a header. */
  function Above(h: Headers, a: int): int
    requires a in h
  {
    if h[a].size == 0 then a + UNIT else End(h, a)
  }

  predicate Apart(h: Headers, a: int, b: int)
    requires a in h && b in h
  {
    Above(h, a) <= b || Above(h, b) <= a
  }

  /** Block a ends where block b of the same kind starts. */
  predicate Touch(h: Headers, a: int, b: int)
    requires a in h && b in h
  {
    h[a].shared == h[b].shared && End(h, a) == b
  }

  // ----- the ring -----

  predicate Link(h: Headers, a: int, b: int) {
    a in h && b in h && h[a].ptr == b && Above(h, a) <= b && !Touch(h, a, b)
  }

  predicate Linked(h: Headers, s: seq<int>) {
    forall i :: 0 <= i < |s| - 1 ==> Link(h, s[i], s[i + 1])
  }

  /** The free list is one ring through `base`, in ascending address order with one wrap,
      of non-empty blocks that do not overlap, and no two of one kind touch. */
  predicate IsRing(base: int, h: Headers, ring: seq<int>) {
    && |ring| > 0 && ring[0] == base && NULL < base
    && (forall a :: a in ring ==> a in h && (h[a].size == 0 <==> a == base))
    && !h[base].shared
    && Linked(h, ring)
    && h[ring[|ring| - 1]].ptr == base
  }

  lemma {:induction false} RingAscends(base: int, h: Headers, ring: seq<int>, i: nat, j: nat)
    requires IsRing(base, h, ring) && i < j < |ring|
    ensures ring[i] < ring[j] && Above(h, ring[i]) <= ring[j]
    decreases j - i
  {
    assert Link(h, ring[j - 1], ring[j]);
    if i < j - 1 { RingAscends(base, h, ring, i, j - 1); }
  }

  lemma RingAboveBase(base: int, h: Headers, ring: seq<int>, a: int)
    requires IsRing(base, h, ring) && a in ring
    ensures NULL < base <= a && (a == base || base + UNIT <= a)
  {
    var i :| 0 <= i < |ring| && ring[i] == a;
    if i > 0 { RingAscends(base, h, ring, 0, i); }
  }

  lemma RingDistinct(base: int, h: Headers, ring: seq<int>)
    requires IsRing(base, h, ring)
    ensures forall i, j :: 0 <= i < j < |ring| ==> ring[i] < ring[j]
  {
    forall i, j | 0 <= i < j < |ring| ensures ring[i] < ring[j] { RingAscends(base, h, ring, i, j); }
  }

  function Next(ring: seq<int>, i: nat): int
    requires i < |ring|
  {
    if i + 1 < |ring| then ring[i + 1] else ring[0]
  }

  lemma RingNext(base: int, h: Headers, ring: seq<int>, i: nat)
    requires IsRing(base, h, ring) && i < |ring|
    ensures ring[i] in h && h[ring[i]].ptr == Next(ring, i)
  {
    assert ring[i] in ring;
    if i + 1 < |ring| { assert Link(h, ring[i], ring[i + 1]); }
  }

  /** k is the last place of the ring below bp. */
  predicate Slot(ring: seq<int>, bp: int, k: nat) {
    k < |ring| && ring[k] < bp && (k + 1 < |ring| ==> bp < ring[k + 1])
  }

  lemma SlotExists(base: int, h: Headers, ring: seq<int>, bp: int) returns (k: nat)
    requires IsRing(base, h, ring) && base < bp && bp !in ring
    ensures Slot(ring, bp, k)
  {
    k := 0;
    while k + 1 < |ring| && ring[k + 1] < bp
      invariant k < |ring| && ring[k] < bp
    {
      k := k + 1;
    }
  }

  lemma SlotUnique(base: int, h: Headers, ring: seq<int>, bp: int, i: nat, k: nat)
    requires IsRing(base, h, ring) && Slot(ring, bp, i) && Slot(ring, bp, k)
    ensures i == k
  {
    RingDistinct(base, h, ring);
  }

  lemma {:induction false} LinkedConcat(h: Headers, s: seq<int>, t: seq<int>)
    requires Linked(h, s) && Linked(h, t)
    requires s != [] && t != [] ==> Link(h, s[|s| - 1], t[0])
    ensures Linked(h, s + t)
  {
    forall i | 0 <= i < |s + t| - 1 ensures Link(h, (s + t)[i], (s + t)[i + 1]) {
      if i < |s| - 1 {
        assert Link(h, s[i], s[i + 1]);
      } else if i >= |s| {
        assert Link(h, t[i - |s|], t[i - |s| + 1]);
      }
    }
  }

  lemma LinkedSlice(h: Headers, s: seq<int>, lo: nat, hi: nat)
    requires Linked(h, s) && lo <= hi <= |s|
    ensures Linked(h, s[lo..hi])
  {
    forall i | 0 <= i < |s[lo..hi]| - 1 ensures Link(h, s[lo..hi][i], s[lo..hi][i + 1]) {
      assert Link(h, s[lo + i], s[lo + i + 1]);
    }
  }

  // ----- free_locked on values -----

  /** The block to be freed lies in a gap of the ring. */
  predicate Releasable(base: int, h: Headers, ring: seq<int>, bp: int) {
    && IsRing(base, h, ring)
    && bp in h && h[bp].size > 0 && bp !in ring && base < bp
    && forall a :: a in ring ==> Apart(h, a, bp)
  }

  /** The ring and the headers once bp has been linked in behind place k and merged with its neighbours. */
  function Freed(h: Headers, ring: seq<int>, bp: int, k: nat): (Headers, seq<int>)
    requires k < |ring| && bp in h && ring[k] in h && Next(ring, k) in h
  {
    var p, q := ring[k], Next(ring, k);
    var up, low := Touch(h, bp, q), Touch(h, p, bp);
    var b := if up then h[bp].(ptr := h[q].ptr, size := h[bp].size + h[q].size) else h[bp].(ptr := q);
    (h[bp := b][p := if low then h[p].(ptr := b.ptr, size := h[p].size + b.size) else h[p].(ptr := bp)],
     ring[..k + 1] + (if low then [] else [bp]) + ring[if up && k + 1 < |ring| then k + 2 else k + 1..])
  }

  lemma SlotNeighbours(base: int, h: Headers, ring: seq<int>, bp: int, k: nat)
    requires Releasable(base, h, ring, bp) && Slot(ring, bp, k)
    ensures ring[k] in h && Next(ring, k) in h && h[ring[k]].ptr == Next(ring, k)
    ensures Above(h, ring[k]) <= bp
    ensures k + 1 < |ring| ==> End(h, bp) <= ring[k + 1]
    ensures Touch(h, bp, Next(ring, k)) ==> k + 1 < |ring|
  {
    assert ring[k] in ring;
    RingNext(base, h, ring, k);
    assert Next(ring, k) in ring;
    if k + 1 < |ring| { assert ring[k + 1] in ring; }
  }

  /** Links away from bp and its lower neighbour survive. */
  lemma LinksKept(h: Headers, h': Headers, s: seq<int>, p: int, bp: int)
    requires Linked(h, s) && p !in s && bp !in s
    requires forall a :: a in h && a != p && a != bp ==> a in h' && h'[a] == h[a]
    ensures Linked(h', s)
  {
    forall i | 0 <= i < |s| - 1 ensures Link(h', s[i], s[i + 1]) {
      assert Link(h, s[i], s[i + 1]);
      assert s[i] in s && s[i + 1] in s;
    }
  }

  /** What of the ring stays below and above the freed block. */
  function Lower(ring: seq<int>, k: nat): seq<int>
    requires k < |ring|
  {
    ring[..k]
  }
  function Upper(h: Headers, ring: seq<int>, bp: int, k: nat): seq<int>
    requires k < |ring| && bp in h && Next(ring, k) in h
  {
    ring[if Touch(h, bp, Next(ring, k)) && k + 1 < |ring| then k + 2 else k + 1..]
  }
  /** The lower neighbour, and the freed block unless it has been merged into it. */
  function Middle(h: Headers, ring: seq<int>, bp: int, k: nat): seq<int>
    requires k < |ring| && bp in h && ring[k] in h
  {
    if Touch(h, ring[k], bp) then [ring[k]] else [ring[k], bp]
  }

  lemma FreedShape(base: int, h: Headers, ring: seq<int>, bp: int, k: nat)
    requires Releasable(base, h, ring, bp) && Slot(ring, bp, k)
    requires ring[k] in h && Next(ring, k) in h
    ensures var (h', ring') := Freed(h, ring, bp, k);
      var p, q := ring[k], Next(ring, k);
      var M := Middle(h, ring, bp, k);
      var last := M[|M| - 1];
      && ring' == Lower(ring, k) + M + Upper(h, ring, bp, k)
      && (forall a :: a in h ==> a in h' && h'[a].shared == h[a].shared)
      && (forall a :: a in h && a != p && a != bp ==> h'[a] == h[a])
      && last in h' && h'[last].shared == h[bp].shared && h'[last].size > 0
      && (if Touch(h, bp, q) then End(h', last) == End(h, q) && h'[last].ptr == h[q].ptr
          else End(h', last) == End(h, bp) && h'[last].ptr == q)
      && (last == bp ==> h'[p].size == h[p].size && h'[p].ptr == bp)
      && (last == p ==> h[p].size > 0)
  {
    SlotNeighbours(base, h, ring, bp, k);
    assert ring[..k + 1] == Lower(ring, k) + [ring[k]];
    assert ring[k] != bp && ring[k] in ring;
  }

  lemma FreedLinksBelow(base: int, h: Headers, ring: seq<int>, bp: int, k: nat)
    requires Releasable(base, h, ring, bp) && Slot(ring, bp, k)
    requires ring[k] in h && Next(ring, k) in h
    ensures Linked(Freed(h, ring, bp, k).0, Lower(ring, k) + Middle(h, ring, bp, k))
  {
    SlotNeighbours(base, h, ring, bp, k);
    FreedShape(base, h, ring, bp, k);
    RingDistinct(base, h, ring);
    var h' := Freed(h, ring, bp, k).0;
    var p := ring[k];
    var A, M := Lower(ring, k), Middle(h, ring, bp, k);
    LinkedSlice(h, ring, 0, k);
    LinksKept(h, h', A, p, bp);
    if k > 0 {
      assert Link(h, ring[k - 1], ring[k]);
      assert ring[k - 1] in ring;
      assert Link(h', A[|A| - 1], p);
    }
    LinkedConcat(h', A, M);
  }

  lemma FreedLinksAbove(base: int, h: Headers, ring: seq<int>, bp: int, k: nat)
    requires Releasable(base, h, ring, bp) && Slot(ring, bp, k)
    requires ring[k] in h && Next(ring, k) in h
    ensures Linked(Freed(h, ring, bp, k).0, Upper(h, ring, bp, k))
  {
    SlotNeighbours(base, h, ring, bp, k);
    FreedShape(base, h, ring, bp, k);
    RingDistinct(base, h, ring);
    var lo := if Touch(h, bp, Next(ring, k)) && k + 1 < |ring| then k + 2 else k + 1;
    var B := Upper(h, ring, bp, k);
    assert B == ring[lo..] == ring[lo..|ring|];
    LinkedSlice(h, ring, lo, |ring|);
    assert forall i :: 0 <= i < |B| ==> B[i] == ring[lo + i] && ring[k] < ring[lo + i];
    LinksKept(h, Freed(h, ring, bp, k).0, B, ring[k], bp);
  }

  lemma FreedJoint(base: int, h: Headers, ring: seq<int>, bp: int, k: nat)
    requires Releasable(base, h, ring, bp) && Slot(ring, bp, k)
    requires ring[k] in h && Next(ring, k) in h
    ensures var h' := Freed(h, ring, bp, k).0;
      var M, B := Middle(h, ring, bp, k), Upper(h, ring, bp, k);
      var last := M[|M| - 1];
      last in h' && if B == [] then h'[last].ptr == base else Link(h', last, B[0])
  {
    SlotNeighbours(base, h, ring, bp, k);
    FreedShape(base, h, ring, bp, k);
    var q := Next(ring, k);
    var lo := if Touch(h, bp, q) then k + 2 else k + 1;
    if Touch(h, bp, q) {
      RingNext(base, h, ring, k + 1);
    }
    if lo < |ring| {
      RingAscends(base, h, ring, k, lo);
      assert ring[lo] in ring;
      if Touch(h, bp, q) { assert Link(h, ring[k + 1], ring[k + 2]); }
    }
  }

  lemma FreedLast(base: int, h: Headers, ring: seq<int>, bp: int, k: nat)
    requires Releasable(base, h, ring, bp) && Slot(ring, bp, k)
    requires ring[k] in h && Next(ring, k) in h
    ensures var h' := Freed(h, ring, bp, k).0; var B := Upper(h, ring, bp, k);
      B != [] ==> B[|B| - 1] in h' && h'[B[|B| - 1]].ptr == base
  {
    FreedShape(base, h, ring, bp, k);
    var B := Upper(h, ring, bp, k);
    if B != [] {
      RingAscends(base, h, ring, k, |ring| - 1);
      assert B[|B| - 1] == ring[|ring| - 1] && ring[|ring| - 1] in ring;
    }
  }

  /** Freeing keeps the ring: in order, without overlap, and with nothing left to merge. */
  lemma FreedIsRing(base: int, h: Headers, ring: seq<int>, bp: int, k: nat)
    requires Releasable(base, h, ring, bp) && Slot(ring, bp, k)
    requires ring[k] in h && Next(ring, k) in h
    ensures var (h', ring') := Freed(h, ring, bp, k); IsRing(base, h', ring')
  {
    var (h', ring') := Freed(h, ring, bp, k);
    var A, M, B := Lower(ring, k), Middle(h, ring, bp, k), Upper(h, ring, bp, k);
    FreedShape(base, h, ring, bp, k);
    FreedLinksBelow(base, h, ring, bp, k);
    FreedLinksAbove(base, h, ring, bp, k);
    FreedJoint(base, h, ring, bp, k);
    FreedLast(base, h, ring, bp, k);
    LinkedConcat(h', A + M, B);
    assert ring'[|ring'| - 1] == if B == [] then M[|M| - 1] else B[|B| - 1];
    forall a | a in ring' ensures a in h' && (h'[a].size == 0 <==> a == base) {
      assert a in ring || a == bp;
    }
    assert ring'[0] == ring[0];
  }

  // ----- what a ring holds -----

  /** Address x belongs to a free block of the given kind. */
  ghost predicate Covers(h: Headers, ring: seq<int>, x: int, shared: bool) {
    exists a :: a in ring && InBlock(h, a, x, shared)
  }

  predicate InBlock(h: Headers, a: int, x: int, shared: bool) {
    a in h && a <= x < End(h, a) && h[a].shared == shared
  }

  /** The units of one kind in a list of blocks. */
  function Units(h: Headers, s: seq<int>, shared: bool): nat {
    if s == [] then 0
    else (if s[0] in h && h[s[0]].shared == shared then h[s[0]].size else 0) + Units(h, s[1..], shared)
  }

  lemma {:induction false} UnitsConcat(h: Headers, s: seq<int>, t: seq<int>, shared: bool)
    ensures Units(h, s + t, shared) == Units(h, s, shared) + Units(h, t, shared)
  {
    if s == [] {
      assert s + t == t;
    } else {
      assert (s + t)[1..] == s[1..] + t;
      UnitsConcat(h, s[1..], t, shared);
    }
  }

  lemma {:induction false} UnitsSame(h: Headers, h': Headers, s: seq<int>, shared: bool)
    requires forall a :: a in s ==> a in h && a in h' && h'[a].size == h[a].size && h'[a].shared == h[a].shared
    ensures Units(h', s, shared) == Units(h, s, shared)
  {
    if s != [] {
      var a := s[0];
      assert a in s && a in h && a in h' && h'[a].size == h[a].size && h'[a].shared == h[a].shared;
      UnitsSame(h, h', s[1..], shared);
    }
  }

  lemma UnitsOne(h: Headers, a: int, shared: bool)
    requires a in h
    ensures Units(h, [a], shared) == if h[a].shared == shared then h[a].size else 0
  {}

  /** The ring, cut at the place where bp goes. */
  lemma RingCut(base: int, h: Headers, ring: seq<int>, bp: int, k: nat)
    requires Releasable(base, h, ring, bp) && Slot(ring, bp, k)
    requires ring[k] in h && Next(ring, k) in h
    ensures var q := Next(ring, k); var A, B := Lower(ring, k), Upper(h, ring, bp, k);
      && ring == A + [ring[k]] + (if Touch(h, bp, q) then [q] else []) + B
      && (forall a :: a in A || a in B ==> a in ring && a != ring[k] && a != bp)
  {
    SlotNeighbours(base, h, ring, bp, k);
    var up := Touch(h, bp, Next(ring, k));
    CutAt(ring, k, up);
    var A, B := Lower(ring, k), Upper(h, ring, bp, k);
    forall a | a in A || a in B ensures a in ring && a != ring[k] && a != bp {
      RingPart(base, h, ring, k, if up then k + 2 else k + 1, a);
    }
  }

  lemma CutAt(ring: seq<int>, k: nat, up: bool)
    requires k < |ring| && (up ==> k + 1 < |ring|)
    ensures ring == ring[..k] + [ring[k]] + (if up then [ring[k + 1]] else []) + ring[if up then k + 2 else k + 1..]
  {}

  lemma RingPart(base: int, h: Headers, ring: seq<int>, k: nat, lo: nat, a: int)
    requires IsRing(base, h, ring) && k < lo <= |ring|
    requires a in ring[..k] || a in ring[lo..]
    ensures a in ring && a != ring[k]
  {
    RingDistinct(base, h, ring);
    if a in ring[..k] {
      var i :| 0 <= i < k && ring[..k][i] == a;
      assert ring[i] == a;
    } else {
      var i :| 0 <= i < |ring[lo..]| && ring[lo..][i] == a;
      assert ring[lo + i] == a;
    }
  }

  lemma FreedUnits(base: int, h: Headers, ring: seq<int>, bp: int, k: nat, shared: bool)
    requires Releasable(base, h, ring, bp) && Slot(ring, bp, k)
    requires ring[k] in h && Next(ring, k) in h
    ensures var (h', ring') := Freed(h, ring, bp, k);
      Units(h', ring', shared) == Units(h, ring, shared) + Units(h, [bp], shared)
  {
    var (h', ring') := Freed(h, ring, bp, k);
    var p, q := ring[k], Next(ring, k);
    var up := if Touch(h, bp, q) then [q] else [];
    var A, M, B := Lower(ring, k), Middle(h, ring, bp, k), Upper(h, ring, bp, k);
    FreedShape(base, h, ring, bp, k);
    RingCut(base, h, ring, bp, k);
    UnitsConcat(h', A + M, B, shared); UnitsConcat(h', A, M, shared);
    UnitsConcat(h, A + [p] + up, B, shared); UnitsConcat(h, A + [p], up, shared); UnitsConcat(h, A, [p], shared);
    UnitsSame(h, h', A, shared); UnitsSame(h, h', B, shared);
    FreedMiddleUnits(base, h, ring, bp, k, shared);
  }

  lemma FreedMiddleUnits(base: int, h: Headers, ring: seq<int>, bp: int, k: nat, shared: bool)
    requires Releasable(base, h, ring, bp) && Slot(ring, bp, k)
    requires ring[k] in h && Next(ring, k) in h
    ensures var h' := Freed(h, ring, bp, k).0;
      var up := if Touch(h, bp, Next(ring, k)) then [Next(ring, k)] else [];
      Units(h', Middle(h, ring, bp, k), shared)
        == Units(h, [ring[k]], shared) + Units(h, up, shared) + Units(h, [bp], shared)
  {
    FreedShape(base, h, ring, bp, k);
    SlotNeighbours(base, h, ring, bp, k);
    var h' := Freed(h, ring, bp, k).0;
    var p, q := ring[k], Next(ring, k);
    UnitsOne(h, p, shared); UnitsOne(h, bp, shared); UnitsOne(h, q, shared);
    UnitsOne(h', p, shared); UnitsOne(h', bp, shared);
    assert [p, bp] == [p] + [bp];
    UnitsConcat(h', [p], [bp], shared);
  }

  /** Freeing adds exactly the addresses of the block. */
  lemma FreedCovers(base: int, h: Headers, ring: seq<int>, bp: int, k: nat, x: int, shared: bool)
    requires Releasable(base, h, ring, bp) && Slot(ring, bp, k)
    requires ring[k] in h && Next(ring, k) in h
    ensures var (h', ring') := Freed(h, ring, bp, k);
      Covers(h', ring', x, shared) <==> Covers(h, ring, x, shared) || InBlock(h, bp, x, shared)
  {
    hide IsRing;
    var (h', ring') := Freed(h, ring, bp, k);
    var p, q := ring[k], Next(ring, k);
    SlotNeighbours(base, h, ring, bp, k);
    FreedShape(base, h, ring, bp, k);
    RingCut(base, h, ring, bp, k);
    FreedMiddleCovers(base, h, ring, bp, k, x, shared);
    var A, M, B := Lower(ring, k), Middle(h, ring, bp, k), Upper(h, ring, bp, k);
    if Covers(h', ring', x, shared) {
      var a :| a in ring' && InBlock(h', a, x, shared);
      if a in A || a in B { assert InBlock(h, a, x, shared); } else { assert a in M; }
    }
    if Covers(h, ring, x, shared) {
      var a :| a in ring && InBlock(h, a, x, shared);
      if a in A || a in B {
        assert InBlock(h', a, x, shared) && a in ring';
      } else {
        assert a == p || (Touch(h, bp, q) && a == q);
      }
    }
    assert forall a :: a in M ==> a in ring';
  }

  lemma FreedMiddleCovers(base: int, h: Headers, ring: seq<int>, bp: int, k: nat, x: int, shared: bool)
    requires Releasable(base, h, ring, bp) && Slot(ring, bp, k)
    requires ring[k] in h && Next(ring, k) in h
    ensures var h' := Freed(h, ring, bp, k).0;
      var p, q := ring[k], Next(ring, k);
      Covers(h', Middle(h, ring, bp, k), x, shared) <==>
        InBlock(h, p, x, shared) || InBlock(h, bp, x, shared) || (Touch(h, bp, q) && InBlock(h, q, x, shared))
  {
    var h' := Freed(h, ring, bp, k).0;
    var p, q, M := ring[k], Next(ring, k), Middle(h, ring, bp, k);
    SlotNeighbours(base, h, ring, bp, k);
    FreedShape(base, h, ring, bp, k);
    var last := M[|M| - 1];
    assert InBlock(h', last, x, shared) ==> last in M;
    assert InBlock(h', p, x, shared) ==> p in M;
  }

  /** No block of the list reaches into the addresses from lo up to hi. */
  predicate Clear(h: Headers, s: seq<int>, lo: int, hi: int) {
    forall a :: a in s ==> a in h && (Above(h, a) <= lo || hi <= a)
  }

  /** Addresses outside the ring and the freed block stay outside the ring. */
  lemma FreedClear(base: int, h: Headers, ring: seq<int>, bp: int, k: nat, lo: int, hi: int)
    requires Releasable(base, h, ring, bp) && Slot(ring, bp, k)
    requires ring[k] in h && Next(ring, k) in h
    requires lo < hi && Clear(h, ring, lo, hi) && (End(h, bp) <= lo || hi <= bp)
    ensures var (h', ring') := Freed(h, ring, bp, k); Clear(h', ring', lo, hi)
  {
    var (h', ring') := Freed(h, ring, bp, k);
    var p, q := ring[k], Next(ring, k);
    SlotNeighbours(base, h, ring, bp, k);
    FreedShape(base, h, ring, bp, k);
    RingCut(base, h, ring, bp, k);
    assert p in ring && q in ring;
    forall a | a in ring' ensures a in h' && (Above(h', a) <= lo || hi <= a) {
      if a in Lower(ring, k) || a in Upper(h, ring, bp, k) { assert a in ring; }
    }
  }

  // ----- taking a block off the ring -----

  /** The first n units of the free block at place i become an allocation. */
  function Taken(h: Headers, ring: seq<int>, i: nat, n: nat): (Headers, seq<int>)
    requires 0 < i < |ring| && ring[i] in h && ring[i - 1] in h && 0 < n <= h[ring[i]].size
  {
    var p, prev := ring[i], ring[i - 1];
    if h[p].size == n then
      (h[prev := h[prev].(ptr := h[p].ptr)], ring[..i] + ring[i + 1..])
    else
      var np := p + UNIT * n;
      (h[prev := h[prev].(ptr := np)][np := Header(h[p].ptr, h[p].size - n, h[p].shared)][p := h[p].(size := n)],
       ring[..i] + [np] + ring[i + 1..])
  }

  predicate Takable(base: int, h: Headers, ring: seq<int>, i: nat, n: nat) {
    IsRing(base, h, ring) && 0 < i < |ring| && ring[i] in h && 0 < n <= h[ring[i]].size
  }

  /** The new head of the remainder lies inside the old block, so nothing else starts there. */
  lemma TakenRoom(base: int, h: Headers, ring: seq<int>, i: nat, n: nat)
    requires Takable(base, h, ring, i, n)
    ensures ring[i] in h && ring[i - 1] in h && ring[i - 1] < ring[i] && base < ring[i]
    ensures Above(h, ring[i - 1]) <= ring[i]
    ensures forall a :: a in ring[..i] ==> a in ring && a < ring[i]
    ensures forall a :: a in ring[i + 1..] ==> a in ring && End(h, ring[i]) <= a
  {
    assert ring[i] in ring && ring[i - 1] in ring;
    RingAscends(base, h, ring, i - 1, i);
    RingAscends(base, h, ring, 0, i);
    forall a | a in ring[..i] ensures a in ring && a < ring[i] {
      var j :| 0 <= j < i && ring[j] == a;
      RingAscends(base, h, ring, j, i);
    }
    forall a | a in ring[i + 1..] ensures a in ring && End(h, ring[i]) <= a {
      var j :| 0 <= j < |ring| - i - 1 && ring[i + 1..][j] == a;
      RingAscends(base, h, ring, i, i + 1 + j);
    }
  }

  lemma TakenIsRing(base: int, h: Headers, ring: seq<int>, i: nat, n: nat)
    requires Takable(base, h, ring, i, n) && ring[i] in h && ring[i - 1] in h
    ensures var (h', ring') := Taken(h, ring, i, n); IsRing(base, h', ring')
  {
    TakenMembers(base, h, ring, i, n);
    TakenParts(h, ring, i, n);
    TakenLinksBelow(base, h, ring, i, n);
    TakenLinksAbove(base, h, ring, i, n);
    TakenJoint(base, h, ring, i, n);
    assert NULL < base;
    var (h', ring') := Taken(h, ring, i, n);
    var rest := if h[ring[i]].size == n then [] else [ring[i] + UNIT * n];
    hide *;
    TwoParts(base, h', ring[..i - 1] + [ring[i - 1]] + rest, ring[i + 1..]);
  }

  /** A ring put together from two parts. */
  lemma TwoParts(base: int, h: Headers, s: seq<int>, t: seq<int>)
    requires s != [] && (s + t)[0] == base && NULL < base && base in h && !h[base].shared
    requires forall a :: a in s + t ==> a in h && (h[a].size == 0 <==> a == base)
    requires Linked(h, s) && Linked(h, t) && s[|s| - 1] in h
    requires t == [] ==> h[s[|s| - 1]].ptr == base
    requires t != [] ==> Link(h, s[|s| - 1], t[0]) && t[|t| - 1] in h && h[t[|t| - 1]].ptr == base
    ensures IsRing(base, h, s + t)
  {
    LinkedConcat(h, s, t);
  }

  /** The ring as it is left, in parts. */
  lemma TakenParts(h: Headers, ring: seq<int>, i: nat, n: nat)
    requires 0 < i < |ring| && ring[i] in h && ring[i - 1] in h && 0 < n <= h[ring[i]].size
    ensures var rest := if h[ring[i]].size == n then [] else [ring[i] + UNIT * n];
      Taken(h, ring, i, n).1 == ring[..i - 1] + [ring[i - 1]] + rest + ring[i + 1..]
  {
    assert ring[..i] == ring[..i - 1] + [ring[i - 1]];
  }

  lemma TakenMembers(base: int, h: Headers, ring: seq<int>, i: nat, n: nat)
    requires Takable(base, h, ring, i, n) && ring[i] in h && ring[i - 1] in h
    ensures var (h', ring') := Taken(h, ring, i, n);
      && (forall a :: a in ring' ==> a in h' && (h'[a].size == 0 <==> a == base))
      && ring'[0] == base && base in h' && !h'[base].shared
  {
    var (h', ring') := Taken(h, ring, i, n);
    TakenRoom(base, h, ring, i, n);
    TakenLinksAbove(base, h, ring, i, n);
    assert ring[..i][0] == base && ring[0] in ring;
    forall a | a in ring' ensures a in h' && (h'[a].size == 0 <==> a == base) {
      assert a in ring[..i] || a in ring[i + 1..] || a == ring[i] + UNIT * n;
    }
  }

  lemma TakenJoint(base: int, h: Headers, ring: seq<int>, i: nat, n: nat)
    requires Takable(base, h, ring, i, n) && ring[i - 1] in h
    ensures var h' := Taken(h, ring, i, n).0;
      var last := if h[ring[i]].size == n then ring[i - 1] else ring[i] + UNIT * n;
      && last in h'
      && (i + 1 == |ring| ==> h'[last].ptr == base)
      && (i + 1 < |ring| ==> Link(h', last, ring[i + 1]) && ring[|ring| - 1] in h' && h'[ring[|ring| - 1]].ptr == base)
  {
    TakenRoom(base, h, ring, i, n);
    RingNext(base, h, ring, i);
    if i + 1 < |ring| {
      assert Link(h, ring[i], ring[i + 1]);
      RingAscends(base, h, ring, i, |ring| - 1);
      assert ring[|ring| - 1] in ring;
    }
  }

  lemma TakenLinksBelow(base: int, h: Headers, ring: seq<int>, i: nat, n: nat)
    requires Takable(base, h, ring, i, n) && ring[i] in h && ring[i - 1] in h
    ensures var h' := Taken(h, ring, i, n).0;
      var rest := if h[ring[i]].size == n then [] else [ring[i] + UNIT * n];
      Linked(h', ring[..i - 1] + [ring[i - 1]] + rest)
  {
    var h' := Taken(h, ring, i, n).0;
    var rest := if h[ring[i]].size == n then [] else [ring[i] + UNIT * n];
    TakenLower(base, h, ring, i, n);
    TakenRest(base, h, ring, i, n);
    assert ring[..i] == ring[..i - 1] + [ring[i - 1]];
    assert Linked(h', rest);
    hide *;
    LinkedConcat(h', ring[..i], rest);
  }

  lemma TakenLower(base: int, h: Headers, ring: seq<int>, i: nat, n: nat)
    requires Takable(base, h, ring, i, n) && ring[i] in h && ring[i - 1] in h
    ensures Linked(Taken(h, ring, i, n).0, ring[..i])
  {
    var h', A := Taken(h, ring, i, n).0, ring[..i];
    TakenRoom(base, h, ring, i, n);
    LinkedSlice(h, ring, 0, i);
    assert A == ring[0..i];
    forall j | 0 <= j < |A| - 1 ensures Link(h', A[j], A[j + 1]) {
      assert Link(h, A[j], A[j + 1]);
      RingAscends(base, h, ring, j, i - 1);
      assert A[j] in A && A[j + 1] in A;
    }
  }

  /** The remainder, if there is one, behind the block in front of it. */
  lemma TakenRest(base: int, h: Headers, ring: seq<int>, i: nat, n: nat)
    requires Takable(base, h, ring, i, n) && ring[i] in h && ring[i - 1] in h
    ensures h[ring[i]].size != n ==> Link(Taken(h, ring, i, n).0, ring[i - 1], ring[i] + UNIT * n)
  {
    TakenRoom(base, h, ring, i, n);
    assert Link(h, ring[i - 1], ring[i]);
  }

  lemma TakenLinksAbove(base: int, h: Headers, ring: seq<int>, i: nat, n: nat)
    requires Takable(base, h, ring, i, n) && ring[i] in h && ring[i - 1] in h
    ensures Linked(Taken(h, ring, i, n).0, ring[i + 1..])
    ensures forall a :: a in ring[i + 1..] ==>
      a in h && a in Taken(h, ring, i, n).0 && Taken(h, ring, i, n).0[a] == h[a]
  {
    var h' := Taken(h, ring, i, n).0;
    TakenRoom(base, h, ring, i, n);
    var B := ring[i + 1..];
    forall a | a in B ensures a in h && a in h' && h'[a] == h[a] {
      assert a in ring && End(h, ring[i]) <= a;
      assert ring[i] + UNIT * h[ring[i]].size <= a;
    }
    forall j | 0 <= j < |B| - 1 ensures Link(h', B[j], B[j + 1]) {
      assert Link(h, ring[i + 1 + j], ring[i + 1 + j + 1]);
      assert B[j] in B && B[j + 1] in B;
    }
  }

  lemma TakenUnits(base: int, h: Headers, ring: seq<int>, i: nat, n: nat, shared: bool)
    requires Takable(base, h, ring, i, n) && ring[i] in h && ring[i - 1] in h
    ensures var (h', ring') := Taken(h, ring, i, n);
      Units(h', ring', shared) + (if h[ring[i]].shared == shared then n else 0) == Units(h, ring, shared)
  {
    hide IsRing;
    var (h', ring') := Taken(h, ring, i, n);
    var p := ring[i];
    var A, B := ring[..i], ring[i + 1..];
    var rest := if h[p].size == n then [] else [p + UNIT * n];
    CutAt(ring, i, false);
    assert ring == A + [p] + B;
    assert ring' == A + rest + B;
    TakenUnitsKept(base, h, ring, i, n, shared);
    UnitsOne(h, p, shared);
    if rest != [] { UnitsOne(h', rest[0], shared); }
    assert Units(h', rest, shared) + (if h[p].shared == shared then n else 0) == Units(h, [p], shared);
    hide *;
    UnitsConcat(h, A + [p], B, shared); UnitsConcat(h, A, [p], shared);
    UnitsConcat(h', A + rest, B, shared); UnitsConcat(h', A, rest, shared);
  }

  lemma TakenUnitsKept(base: int, h: Headers, ring: seq<int>, i: nat, n: nat, shared: bool)
    requires Takable(base, h, ring, i, n) && ring[i] in h && ring[i - 1] in h
    ensures var h' := Taken(h, ring, i, n).0;
      && Units(h', ring[..i], shared) == Units(h, ring[..i], shared)
      && Units(h', ring[i + 1..], shared) == Units(h, ring[i + 1..], shared)
  {
    var h' := Taken(h, ring, i, n).0;
    TakenRoom(base, h, ring, i, n);
    TakenLinksAbove(base, h, ring, i, n);
    UnitsSame(h, h', ring[..i], shared);
    UnitsSame(h, h', ring[i + 1..], shared);
  }

  /** Exactly the addresses of the allocation leave the ring. */
  lemma TakenCovers(base: int, h: Headers, ring: seq<int>, i: nat, n: nat, x: int, shared: bool)
    requires Takable(base, h, ring, i, n) && ring[i] in h && ring[i - 1] in h
    ensures var (h', ring') := Taken(h, ring, i, n);
      && (InBlock(h', ring[i], x, shared) ==> Covers(h, ring, x, shared))
      && (Covers(h', ring', x, shared) <==> Covers(h, ring, x, shared) && !InBlock(h', ring[i], x, shared))
  {
    hide IsRing;
    var (h', ring') := Taken(h, ring, i, n);
    var p := ring[i];
    var A, B := ring[..i], ring[i + 1..];
    var rest := if h[p].size == n then [] else [p + UNIT * n];
    TakenRoom(base, h, ring, i, n);
    assert ring == A + [p] + B && ring' == A + rest + B;
    assert p in ring;
    TakenKeeps(base, h, ring, i, n, x, shared);
    if Covers(h', ring', x, shared) {
      var a :| a in ring' && InBlock(h', a, x, shared);
      if a in rest {
        assert InBlock(h, p, x, shared);
      } else {
        assert InBlock(h, a, x, shared) && a in ring;
      }
    }
    if Covers(h, ring, x, shared) && !InBlock(h', p, x, shared) {
      var a :| a in ring && InBlock(h, a, x, shared);
      if a == p {
        assert rest != [] && InBlock(h', rest[0], x, shared) && rest[0] in ring';
      } else {
        assert InBlock(h', a, x, shared) && a in ring';
      }
    }
    if InBlock(h', p, x, shared) { assert InBlock(h, p, x, shared); }
  }

  lemma TakenKeeps(base: int, h: Headers, ring: seq<int>, i: nat, n: nat, x: int, shared: bool)
    requires Takable(base, h, ring, i, n) && ring[i] in h && ring[i - 1] in h
    ensures var (h', ring') := Taken(h, ring, i, n);
      && (forall a :: a in ring && a != ring[i] ==>
            (InBlock(h', a, x, shared) <==> InBlock(h, a, x, shared))
              && (InBlock(h, a, x, shared) ==> !InBlock(h, ring[i], x, shared)))
      && (h[ring[i]].size > n ==> !InBlock(h', ring[i] + UNIT * n, x, shared) || !InBlock(h', ring[i], x, shared))
  {
    hide IsRing;
    var (h', ring') := Taken(h, ring, i, n);
    TakenRoom(base, h, ring, i, n);
    assert ring == ring[..i] + [ring[i]] + ring[i + 1..];
    forall a | a in ring && a != ring[i]
      ensures InBlock(h', a, x, shared) <==> InBlock(h, a, x, shared)
      ensures InBlock(h, a, x, shared) ==> !InBlock(h, ring[i], x, shared)
    {
      if a in ring[..i] {
        var j :| 0 <= j < i && ring[j] == a;
        RingAscends(base, h, ring, j, i);
      } else {
        assert a in ring[i + 1..];
      }
    }
  }

  /** The allocation does not reach into the ring, nor does anything that was clear of it before. */
  lemma TakenClear(base: int, h: Headers, ring: seq<int>, i: nat, n: nat, lo: int, hi: int)
    requires Takable(base, h, ring, i, n) && ring[i] in h && ring[i - 1] in h
    requires (lo == ring[i] && hi == ring[i] + UNIT * n) || (lo < hi && Clear(h, ring, lo, hi))
    ensures var (h', ring') := Taken(h, ring, i, n);
      Clear(h', ring', lo, hi)
  {
    var (h', ring') := Taken(h, ring, i, n);
    var p := ring[i];
    TakenRoom(base, h, ring, i, n);
    TakenLinksAbove(base, h, ring, i, n);
    assert p in ring;
    forall a | a in ring' ensures a in h' && (Above(h', a) <= lo || hi <= a) {
      if a in ring[..i] {
        var j :| 0 <= j < i && ring[j] == a;
        RingAscends(base, h, ring, j, i);
        assert a in ring && Above(h', a) == Above(h, a);
      } else if a in ring[i + 1..] {
        assert a in ring && End(h, p) <= a && h'[a] == h[a];
      } else {
        assert a == p + UNIT * n && Above(h', a) == End(h, p) == Above(h, p);
      }
    }
  }

  // ----- the whole state -----

  /** Every allocation is clear of the free list and of the other allocations. */
  predicate Separate(base: int, h: Headers, ring: seq<int>, live: seq<int>) {
    && Distinct(live)
    && (forall c :: c in live ==> c in h && h[c].size > 0 && base < c && Clear(h, ring, c, End(h, c)))
    && (forall c, d :: c in live && d in live && c != d ==> Apart(h, c, d))
  }

  lemma ClearNotIn(h: Headers, s: seq<int>, lo: int, hi: int)
    requires lo < hi && Clear(h, s, lo, hi)
    ensures lo !in s
  {}
}
