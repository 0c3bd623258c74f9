/** malloc_locked, free_locked and morecore over the ring. */
module MallocHeap {
  import opened Common
  import opened Malloc

  /** The free list is a ring, allocations are separate, and no unit was lost or invented. */
  ghost predicate State(base: int, h: Headers, ring: seq<int>, live: seq<int>, obtained: bool -> nat) {
    && IsRing(base, h, ring)
    && Separate(base, h, ring, live)
    && forall shared :: Units(h, ring, shared) + Units(h, live, shared) == obtained(shared)
  }

  /** Addresses from lo up to hi belong to no block at all. */
  ghost predicate Unowned(base: int, h: Headers, ring: seq<int>, live: seq<int>, lo: int, hi: int) {
    base + UNIT <= lo < hi && Clear(h, ring, lo, hi) && Clear(h, live, lo, hi)
  }

  function Without(s: seq<int>, i: nat): seq<int>
    requires i < |s|
  {
    s[..i] + s[i + 1..]
  }

  lemma WithoutMembers(s: seq<int>, i: nat)
    requires i < |s| && Distinct(s)
    ensures Distinct(Without(s, i))
    ensures forall c :: c in Without(s, i) <==> c in s && c != s[i]
  {
    var w := Without(s, i);
    assert forall j :: 0 <= j < |w| ==> w[j] == s[if j < i then j else j + 1];
    forall c | c in s && c != s[i] ensures c in w {
      var j :| 0 <= j < |s| && s[j] == c;
      assert w[if j < i then j else j - 1] == c;
    }
  }

  lemma UnitsWithout(h: Headers, s: seq<int>, i: nat, shared: bool)
    requires i < |s|
    ensures Units(h, s, shared) == Units(h, Without(s, i), shared) + Units(h, [s[i]], shared)
  {
    assert s == s[..i] + [s[i]] + s[i + 1..];
    UnitsConcat(h, s[..i] + [s[i]], s[i + 1..], shared);
    UnitsConcat(h, s[..i], [s[i]], shared);
    UnitsConcat(h, s[..i], s[i + 1..], shared);
  }

  lemma LiveIsReleasable(base: int, h: Headers, ring: seq<int>, live: seq<int>, bp: int)
    requires IsRing(base, h, ring) && Separate(base, h, ring, live) && bp in live
    ensures Releasable(base, h, ring, bp)
  {
    ClearNotIn(h, ring, bp, End(h, bp));
  }

  /** free: the block moves from the allocations to the ring. */
  lemma FreeKeepsState(base: int, h: Headers, ring: seq<int>, live: seq<int>, obtained: bool -> nat, i: nat, k: nat)
    requires State(base, h, ring, live, obtained) && i < |live| && Slot(ring, live[i], k)
    requires ring[k] in h && Next(ring, k) in h
    ensures live[i] in h
    ensures var (h', ring') := Freed(h, ring, live[i], k); State(base, h', ring', Without(live, i), obtained)
  {
    var bp := live[i];
    assert bp in live;
    LiveIsReleasable(base, h, ring, live, bp);
    var (h', ring') := Freed(h, ring, bp, k);
    var live' := Without(live, i);
    WithoutSeparate(base, h, ring, live, i);
    hide Separate, Clear, Freed;
    FreedIsRing(base, h, ring, bp, k);
    FreedSeparate(base, h, ring, bp, k, live');
    forall shared ensures Units(h', ring', shared) + Units(h', live', shared) == obtained(shared) {
      FreedUnits(base, h, ring, bp, k, shared);
      UnitsWithout(h, live, i, shared);
      UnitsSame(h, h', live', shared);
    }
  }

  lemma FreedSeparate(base: int, h: Headers, ring: seq<int>, bp: int, k: nat, live: seq<int>)
    requires Releasable(base, h, ring, bp) && Slot(ring, bp, k)
    requires ring[k] in h && Next(ring, k) in h
    requires Separate(base, h, ring, live) && Clear(h, live, bp, End(h, bp))
    ensures var (h', ring') := Freed(h, ring, bp, k);
      Separate(base, h', ring', live) && forall c :: c in live ==> c in h && h'[c] == h[c]
  {
    var (h', ring') := Freed(h, ring, bp, k);
    assert ring[k] in ring && Next(ring, k) in ring;
    hide IsRing, Clear;
    forall c | c in live ensures c in h && h'[c] == h[c] && Clear(h', ring', c, End(h, c)) {
      ClearNotIn(h, ring, c, End(h, c));
      ClearNotIn(h, live, bp, End(h, bp));
      ClearApart(h, live, bp, End(h, bp), c);
      FreedClear(base, h, ring, bp, k, c, End(h, c));
    }
  }

  lemma ClearApart(h: Headers, s: seq<int>, lo: int, hi: int, c: int)
    requires Clear(h, s, lo, hi) && c in s
    ensures c in h && (Above(h, c) <= lo || hi <= c)
  {}

  /** A fresh chunk gets a header. */
  lemma HeaderKeepsState(base: int, h: Headers, ring: seq<int>, live: seq<int>, obtained: bool -> nat, bp: int,
      b: Header)
    requires State(base, h, ring, live, obtained) && b.size > 0
    requires Unowned(base, h, ring, live, bp, bp + UNIT * b.size)
    ensures var h' := h[bp := b];
      && State(base, h', ring, live, obtained) && Releasable(base, h', ring, bp)
      && Clear(h', live, bp, bp + UNIT * b.size)
  {
    var h' := h[bp := b];
    ClearNotIn(h, ring, bp, bp + UNIT * b.size);
    ClearNotIn(h, live, bp, bp + UNIT * b.size);
    forall i | 0 <= i < |ring| - 1 ensures Link(h', ring[i], ring[i + 1]) {
      assert Link(h, ring[i], ring[i + 1]);
      assert ring[i] in ring && ring[i + 1] in ring;
    }
    assert ring[|ring| - 1] in ring && ring[0] in ring;
    forall shared ensures Units(h', ring, shared) + Units(h', live, shared) == obtained(shared) {
      UnitsSame(h, h', ring, shared);
      UnitsSame(h, h', live, shared);
    }
  }

  /** Units per kind after n more of one kind have arrived. */
  ghost function Plus(obtained: bool -> nat, kind: bool, n: nat): bool -> nat {
    (s: bool) => if s == kind then obtained(s) + n else obtained(s)
  }

  /** morecore: the chunk joins the ring. */
  lemma CoreKeepsState(base: int, h: Headers, ring: seq<int>, live: seq<int>, obtained: bool -> nat, bp: int, k: nat)
    requires State(base, h, ring, live, obtained) && Releasable(base, h, ring, bp) && Slot(ring, bp, k)
    requires ring[k] in h && Next(ring, k) in h
    requires Clear(h, live, bp, End(h, bp))
    ensures var (h', ring') := Freed(h, ring, bp, k);
      State(base, h', ring', live, Plus(obtained, h[bp].shared, h[bp].size))
  {
    var (h', ring') := Freed(h, ring, bp, k);
    FreedIsRing(base, h, ring, bp, k);
    FreedSeparate(base, h, ring, bp, k, live);
    forall shared
      ensures Units(h', ring', shared) + Units(h', live, shared) == Plus(obtained, h[bp].shared, h[bp].size)(shared)
    {
      FreedUnits(base, h, ring, bp, k, shared);
      UnitsOne(h, bp, shared);
      UnitsSame(h, h', live, shared);
    }
  }

  /** malloc: the first units of a free block become an allocation. */
  lemma TakeKeepsState(base: int, h: Headers, ring: seq<int>, live: seq<int>, obtained: bool -> nat, i: nat, n: nat)
    requires State(base, h, ring, live, obtained) && Takable(base, h, ring, i, n) && ring[i - 1] in h
    ensures var (h', ring') := Taken(h, ring, i, n);
      State(base, h', ring', live + [ring[i]], obtained) && forall c :: c in live ==> c in h && h'[c] == h[c]
  {
    var (h', ring') := Taken(h, ring, i, n);
    var p := ring[i];
    TakenIsRing(base, h, ring, i, n);
    TakenSeparate(base, h, ring, live, i, n);
    forall shared ensures Units(h', ring', shared) + Units(h', live + [p], shared) == obtained(shared) {
      TakenUnits(base, h, ring, i, n, shared);
      UnitsConcat(h', live, [p], shared);
      UnitsOne(h', p, shared);
      UnitsSame(h, h', live, shared);
    }
  }

  lemma TakenSeparate(base: int, h: Headers, ring: seq<int>, live: seq<int>, i: nat, n: nat)
    requires IsRing(base, h, ring) && Separate(base, h, ring, live)
    requires Takable(base, h, ring, i, n) && ring[i - 1] in h
    ensures var (h', ring') := Taken(h, ring, i, n);
      Separate(base, h', ring', live + [ring[i]]) && forall c :: c in live ==> c in h && h'[c] == h[c]
  {
    var (h', ring') := Taken(h, ring, i, n);
    var p := ring[i];
    TakenBlock(base, h, ring, i, n);
    forall c | c in live
      ensures c in h && h'[c] == h[c] && Clear(h', ring', c, End(h', c)) && c != p && Apart(h', c, p)
    {
      TakenLive(base, h, ring, live, i, n, c);
    }
    hide IsRing, Taken, Takable, Clear;
    assert forall c, d :: c in live && d in live && c != d ==> Apart(h, c, d) && Apart(h', c, d);
  }

  /** The block handed out. */
  lemma TakenBlock(base: int, h: Headers, ring: seq<int>, i: nat, n: nat)
    requires Takable(base, h, ring, i, n) && ring[i - 1] in h
    ensures var (h', ring') := Taken(h, ring, i, n); var p := ring[i];
      p in h' && h'[p].size == n && base < p && Clear(h', ring', p, End(h', p))
  {
    var p := ring[i];
    TakenRoom(base, h, ring, i, n);
    TakenClear(base, h, ring, i, n, p, p + UNIT * n);
    RingAscends(base, h, ring, 0, i);
    hide IsRing, Clear;
  }

  /** An older allocation. */
  lemma TakenLive(base: int, h: Headers, ring: seq<int>, live: seq<int>, i: nat, n: nat, c: int)
    requires Takable(base, h, ring, i, n) && ring[i - 1] in h && Separate(base, h, ring, live) && c in live
    ensures var (h', ring') := Taken(h, ring, i, n); var p := ring[i];
      && c in h && c in h' && h'[c] == h[c] && Clear(h', ring', c, End(h', c)) && c != p && p in h' && Apart(h', c, p)
  {
    var p := ring[i];
    assert p in ring && ring[i - 1] in ring;
    TakenRoom(base, h, ring, i, n);
    ClearNotIn(h, ring, c, End(h, c));
    TakenClear(base, h, ring, i, n, c, End(h, c));
    ClearApart(h, ring, c, End(h, c), p);
    hide IsRing, Clear;
  }

  // ----- the kernel's answers -----

  function Stop(c: Chunk): int { c.addr + UNIT * c.units }

  /** An answer to a request: the chunk is big enough, above the anchor, no part of it is in use,
      and it does not end where a free block of its kind starts. */
  ghost predicate Grant(base: int, h: Headers, ring: seq<int>, live: seq<int>, c: Chunk, nunits: nat, shared: bool) {
    && 0 < nunits <= c.units
    && Unowned(base, h, ring, live, c.addr, Stop(c))
    && forall a :: a in ring && a in h && h[a].shared == shared ==> a != Stop(c)
  }

  /** Two successive grants keep the same rules towards each other. */
  ghost predicate Successive(c: Chunk, d: Chunk) {
    (Stop(c) <= d.addr || Stop(d) <= c.addr) && Stop(d) != c.addr
  }

  ghost predicate Answers(base: int, h: Headers, ring: seq<int>, live: seq<int>, answers: seq<Option<Chunk>>,
      nunits: nat, shared: bool) {
    && (forall i :: 0 <= i < |answers| && answers[i].Some? ==>
      Grant(base, h, ring, live, answers[i].value, nunits, shared))
    && (forall i, j :: 0 <= i < j < |answers| && answers[i].Some? && answers[j].Some? ==>
          Successive(answers[i].value, answers[j].value))
  }

  predicate InChunk(c: Chunk, x: int) { c.addr <= x < Stop(c) }

  /** x lies in one of the first n chunks granted. */
  ghost predicate Granted(answers: seq<Option<Chunk>>, n: nat, x: int) {
    exists j :: 0 <= j < n && j < |answers| && answers[j].Some? && InChunk(answers[j].value, x)
  }

  /** The units of the chunks granted by the first n answers. */
  function Total(answers: seq<Option<Chunk>>, n: nat): nat
    requires n <= |answers|
  {
    if n == 0 then 0 else Total(answers, n - 1) + if answers[n - 1].Some? then answers[n - 1].value.units else 0
  }

  /** Of the kind asked for, exactly the units of those chunks have come in; of the other kind none. */
  ghost predicate Paid(before: bool -> nat, after: bool -> nat, answers: seq<Option<Chunk>>, asked: nat, shared: bool) {
    asked <= |answers| && forall s :: after(s) == before(s) + if s == shared then Total(answers, asked) else 0
  }

  predicate Fits(h: Headers, a: int, n: nat, shared: bool) { a in h && h[a].shared == shared && h[a].size >= n }

  /** The number of places from i up to f around a ring of n. */
  function Distance(i: nat, f: nat, n: nat): nat
    requires i < n && f < n
  {
    if i <= f then f - i else n - i + f
  }

  class Heap {
    const base: int
    var headers: Headers
    var freep: int

    /** The free list in address order, the addresses of the allocations, and all units ever obtained. */
    ghost var ring: seq<int>
    ghost var live: seq<int>
    ghost var obtained: bool -> nat

    ghost predicate Valid()
      reads this
    {
      if freep == NULL then
        && NULL < base && base in headers && headers[base].size == 0 && !headers[base].shared
        && ring == [] && live == [] && (forall s :: obtained(s) == 0)
      else
        freep in ring && State(base, headers, ring, live, obtained)
    }

    /** Address x is free memory of the given kind. */
    ghost predicate IsFree(x: int, shared: bool)
      reads this
    {
      Covers(headers, ring, x, shared)
    }

    constructor (anchor: int)
      requires NULL < anchor
      ensures Valid() && base == anchor && live == [] && freep == NULL
    {
      base := anchor;
      headers := map[anchor := Header(NULL, 0, false)];
      freep := NULL;
      ring, live, obtained := [], [], s => 0;
    }

    /** The walk of free_locked to the gap around bp. */
    method FindSlot(bp: int) returns (p: int, ghost k: nat)
      requires freep in ring && Releasable(base, headers, ring, bp)
      ensures Slot(ring, bp, k) && p == ring[k]
    {
      k := SlotExists(base, headers, ring, bp);
      SlotNeighbours(base, headers, ring, bp, k);
      RingDistinct(base, headers, ring);
      p := freep;
      ghost var i :| 0 <= i < |ring| && ring[i] == p;
      RingNext(base, headers, ring, i);
      while !(bp > p && bp < headers[p].ptr)
        invariant 0 <= i < |ring| && ring[i] == p && p in headers && headers[p].ptr == Next(ring, i)
        decreases Distance(i, k, |ring|)
      {
        if p >= headers[p].ptr && (bp > p || bp < headers[p].ptr) { break; }
        assert i != k;
        p := headers[p].ptr;
        i := if i + 1 < |ring| then i + 1 else 0;
        RingNext(base, headers, ring, i);
      }
      assert Slot(ring, bp, i);
      SlotUnique(base, headers, ring, bp, i, k);
    }

    /** free_locked: walks the ring to the gap around bp and links the block in there. */
    method FreeLocked(bp: int) returns (ghost k: nat)
      requires NULL < base && freep in ring && Releasable(base, headers, ring, bp)
      modifies this`headers, this`freep, this`ring
      ensures Slot(old(ring), bp, k) && old(ring)[k] in old(headers) && Next(old(ring), k) in old(headers)
      ensures (headers, ring) == Freed(old(headers), old(ring), bp, k)
      ensures freep == old(ring)[k]
    {
      var p;
      p, k := FindSlot(bp);
      SlotNeighbours(base, headers, ring, bp, k);
      assert p in ring;
      hide Releasable, IsRing, Slot;
      var q := headers[p].ptr;
      if headers[bp].shared == headers[q].shared && bp + UNIT * headers[bp].size == q {
        headers := headers[bp := headers[bp].(size := headers[bp].size + headers[q].size, ptr := headers[q].ptr)];
      } else {
        headers := headers[bp := headers[bp].(ptr := q)];
      }
      if headers[p].shared == headers[bp].shared && p + UNIT * headers[p].size == bp {
        headers := headers[p := headers[p].(size := headers[p].size + headers[bp].size, ptr := headers[bp].ptr)];
      } else {
        headers := headers[p := headers[p].(ptr := bp)];
      }
      freep := p;
      ring := Freed(old(headers), ring, bp, k).1;
    }

    /** free: the caller passes an address that malloc returned and that is still allocated. */
    method Free(ap: int)
      requires Valid() && ap - UNIT in live
      modifies this
      ensures Valid() && obtained == old(obtained) && freep != NULL
      ensures forall c :: c in live <==> c in old(live) && c != ap - UNIT
      ensures forall c :: c in live ==> c in headers && c in old(headers) && headers[c] == old(headers)[c]
      ensures forall x, s :: IsFree(x, s) <==> old(IsFree(x, s)) || InBlock(old(headers), ap - UNIT, x, s)
    {
      var bp := ap - UNIT;
      ghost var i :| 0 <= i < |live| && live[i] == bp;
      LiveIsReleasable(base, headers, ring, live, bp);
      ghost var k := FreeLocked(bp);
      FreeDetails(base, old(headers), old(ring), live, obtained, i, k);
      live := Without(live, i);
    }

    /** The successful end of morecore_brk_locked and morecore_shmem_locked. */
    method MoreCore(c: Chunk, shared: bool, ghost nunits: nat) returns (ghost k: nat, ghost low: bool)
      requires freep in ring && State(base, headers, ring, live, obtained)
      requires Grant(base, headers, ring, live, c, nunits, shared)
      modifies this
      ensures State(base, headers, ring, live, obtained)
      ensures live == old(live) && obtained == Plus(old(obtained), shared, c.units)
      ensures k < |old(ring)| && k < |ring| && freep == old(ring)[k] == ring[k]
      ensures CoreStep(old(headers), old(ring), headers, ring, live, c, nunits, shared, k, low)
      ensures forall d :: old(Grant(base, headers, ring, live, d, nunits, shared)) && Successive(c, d) ==>
                Grant(base, headers, ring, live, d, nunits, shared)
    {
      var p := c.addr;
      headers := headers[p := Header(NULL, c.units, shared)];
      HeaderKeepsState(base, old(headers), ring, live, obtained, p, headers[p]);
      ghost var h := headers;
      k := FreeLocked(p);
      CoreKeepsState(base, h, old(ring), live, obtained, p, k);
      obtained := Plus(obtained, shared, c.units);
      CoreDetails(base, old(headers), old(ring), live, c, nunits, shared, k);
      low := Touch(h, old(ring)[k], p);
      forall d | old(Grant(base, headers, ring, live, d, nunits, shared)) && Successive(c, d)
        ensures Grant(base, headers, ring, live, d, nunits, shared)
      {
        GrantKept(base, old(headers), old(ring), live, c, nunits, shared, k, d);
      }
    }

    /** The hit of the search in malloc_locked: all of p, or its first units. */
    method Take(prevp: int, p: int, nunits: nat, ghost i: nat)
      requires Takable(base, headers, ring, i, nunits) && p == ring[i] && prevp == ring[i - 1] && prevp in headers
      modifies this`headers, this`freep, this`ring
      ensures (headers, ring) == Taken(old(headers), old(ring), i, nunits)
      ensures freep == prevp
    {
      TakenRoom(base, headers, ring, i, nunits);
      if headers[p].size == nunits {
        headers := headers[prevp := headers[prevp].(ptr := headers[p].ptr)];
      } else {
        var np := p + UNIT * nunits;
        headers := headers[prevp := headers[prevp].(ptr := np)];
        headers := headers[np := Header(headers[p].ptr, headers[p].size - nunits, headers[p].shared)];
        headers := headers[p := headers[p].(size := nunits)];
      }
      freep := prevp;
      ring := Taken(old(headers), ring, i, nunits).1;
    }

    /** malloc_locked. `answers` is what the kernel would say to the first and the second request;
        no call asks a third time. `asked` counts the requests made. */
    method Malloc(size: nat, shared: bool, answers: seq<Option<Chunk>>) returns (r: int, asked: nat)
      requires Valid() && |answers| == 2
      requires Answers(base, headers, ring, live, answers, (size + UNIT - 1) / UNIT + 1, shared)
      modifies this
      ensures Valid() && Paid(old(obtained), obtained, answers, asked, shared)
      ensures asked <= 2 && forall j :: 0 <= j < asked - 1 ==> answers[j].Some?
      ensures r == NULL <==> asked > 0 && answers[asked - 1].None?
      ensures asked > 0 ==> NoneFits(old(headers), old(ring), (size + UNIT - 1) / UNIT + 1, shared)
      ensures asked == 0 ==>
        FirstFit(old(headers), old(ring), old(freep), r - UNIT, (size + UNIT - 1) / UNIT + 1, shared)
      ensures r == NULL ==> live == old(live)
      ensures r == NULL ==> GrewBy(old(headers), old(ring), headers, ring, live, answers, asked, shared)
      ensures r != NULL ==> live == old(live) + [r - UNIT]
      ensures r != NULL ==>
        Allotted(old(headers), old(ring), headers, ring, old(live), answers, asked, r - UNIT, size, shared)
    {
      hide State, Covers, Granted, Allotted, Takable, GrewBy, Grant, Taken, Paid, Answers, Reached, Successive;
      var nunits := (size + UNIT - 1) / UNIT + 1;
      EnoughUnits(size);
      Begin(nunits, shared, answers);
      ghost var h, rs, from := headers, ring, freep;
      var prevp, p;
      ghost var i;
      prevp, p, asked, i := Search(nunits, shared, answers, old(headers), old(ring));
      ReachedParts(base, old(headers), old(ring), headers, ring, live, answers, asked, nunits, shared);
      hide NoneFits, FirstFit;
      FromTheStart(base, old(headers), old(ring), h, rs, from, p, nunits, shared);
      if p == NULL {
        StateAboveNull(base, headers, ring, live, obtained, freep);
        r := NULL;
      } else {
        r := Allot(prevp, p, nunits, size, shared, answers, asked, i, old(headers), old(ring));
      }
    }

    /** The end of malloc_locked: the block found, or its first units, is handed out. */
    method Allot(prevp: int, p: int, nunits: nat, ghost size: nat, ghost shared: bool,
                 ghost answers: seq<Option<Chunk>>, ghost asked: nat, ghost i: nat, ghost h0: Headers,
                 ghost ring0: seq<int>)
      returns (r: int)
      requires freep in ring && State(base, headers, ring, live, obtained)
      requires GrewBy(h0, ring0, headers, ring, live, answers, asked, shared)
      requires 0 < i < |ring| && ring[i] == p && ring[i - 1] == prevp && Fits(headers, p, nunits, shared)
      requires 0 < nunits && UNIT * (nunits - 2) < size <= UNIT * (nunits - 1)
      modifies this
      ensures Valid() && r == p + UNIT && r != NULL && live == old(live) + [p] && obtained == old(obtained)
      ensures Allotted(h0, ring0, headers, ring, old(live), answers, asked, r - UNIT, size, shared)
    {
      hide State, Covers, Granted, Allotted, Takable, GrewBy;
      TakeDetails(base, headers, ring, live, obtained, i, nunits);
      AllottedByTake(base, h0, ring0, headers, ring, live, obtained, answers, asked, i, nunits, size, shared);
      hide Taken;
      Take(prevp, p, nunits, i);
      live := live + [p];
      r := p + UNIT;
    }

    /** The first call makes a ring of the anchor alone. */
    method Begin(ghost nunits: nat, ghost shared: bool, ghost answers: seq<Option<Chunk>>)
      requires Valid() && |answers| == 2 && Answers(base, headers, ring, live, answers, nunits, shared)
      modifies this`headers, this`freep, this`ring
      ensures Valid() && freep in ring && State(base, headers, ring, live, obtained)
      ensures Reached(base, old(headers), old(ring), headers, ring, live, answers, 0, nunits, shared)
      ensures old(freep) != NULL ==> headers == old(headers) && ring == old(ring) && freep == old(freep)
      ensures old(freep) == NULL ==> old(ring) == [] && ring == [base] && base in headers && headers[base].size == 0
    {
      if freep == NULL {
        headers := headers[base := headers[base].(ptr := base, size := 0)];
        freep := base;
        ring := [base];
        FirstState(base, headers, obtained);
      }
    }

    /** One granted request, made with the search standing at p. */
    method Ask(nunits: nat, shared: bool, answers: seq<Option<Chunk>>, asked: nat, ghost prevp: int, ghost p: int,
               ghost i: nat, ghost f: nat, ghost h0: Headers, ghost ring0: seq<int>)
      returns (ghost f': nat, ghost i': nat)
      requires freep in ring && State(base, headers, ring, live, obtained)
      requires Reached(base, h0, ring0, headers, ring, live, answers, asked, nunits, shared)
      requires |answers| == 2 && asked < 2 && AllGranted(answers, asked) && answers[asked].Some?
      requires Searching(headers, ring, freep, prevp, p, i, f, asked, nunits, shared)
      requires p == freep && !Fits(headers, p, nunits, shared)
      modifies this
      ensures State(base, headers, ring, live, obtained) && live == old(live)
      ensures Reached(base, h0, ring0, headers, ring, live, answers, asked + 1, nunits, shared)
      ensures AllGranted(answers, asked + 1) && obtained == Plus(old(obtained), shared, answers[asked].value.units)
      ensures p in headers && Searching(headers, ring, freep, p, headers[p].ptr, i', f', asked + 1, nunits, shared)
    {
      hide Reached, CoreStep, Grant, IsRing, Separate, Units, Searching;
      NextGrant(base, h0, ring0, headers, ring, live, answers, asked, nunits, shared);
      ghost var k, low := MoreCore(answers[asked].value, shared, nunits);
      GrowSearching(base, old(headers), old(ring), headers, ring, prevp, p, i, f, asked, nunits, shared, live,
        answers[asked].value, k, low);
      ReachedMore(base, h0, ring0, old(headers), old(ring), headers, ring, live, answers, asked, nunits, shared, k,
        low);
      f' := k;
      i' := NextPlace(ring, if low || i <= k then i else i + 1);
    }

    /** The loop of malloc_locked: the first block that fits and its predecessor, or NULL. */
    method Search(nunits: nat, shared: bool, answers: seq<Option<Chunk>>, ghost h0: Headers, ghost ring0: seq<int>)
      returns (prevp: int, p: int, asked: nat, ghost i: nat)
      requires freep in ring && State(base, headers, ring, live, obtained) && 0 < nunits && |answers| == 2
      requires Reached(base, h0, ring0, headers, ring, live, answers, 0, nunits, shared)
      modifies this
      ensures freep in ring && State(base, headers, ring, live, obtained) && live == old(live)
      ensures Reached(base, h0, ring0, headers, ring, live, answers, asked, nunits, shared)
      ensures Paid(old(obtained), obtained, answers, asked, shared)
      ensures p == NULL <==> asked > 0 && answers[asked - 1].None?
      ensures asked > 0 ==> NoneFits(old(headers), old(ring), nunits, shared)
      ensures asked == 0 ==> FirstFit(old(headers), old(ring), old(freep), p, nunits, shared)
      ensures p != NULL ==> 0 < i < |ring| && ring[i] == p && ring[i - 1] == prevp && Fits(headers, p, nunits, shared)
    {
      hide Reached, State, Paid, NoneFits, FirstFit, Unfit, Searching, IsRing, Distance;
      prevp := freep;
      asked := 0;
      ghost var f: nat := SearchStart(base, headers, ring, live, obtained, freep, nunits, shared);
      p := headers[prevp].ptr;
      i := NextPlace(ring, f);
      PaidNone(obtained, answers, shared);
      UnfitNone(headers, ring, f, nunits, shared);
      while true
        invariant asked == 0 ==> headers == old(headers) && ring == old(ring) && freep == old(freep)
        invariant asked == 0 ==> Unfit(headers, ring, f, i, nunits, shared)
        invariant asked > 0 ==> NoneFits(old(headers), old(ring), nunits, shared)
        invariant State(base, headers, ring, live, obtained) && live == old(live)
        invariant Reached(base, h0, ring0, headers, ring, live, answers, asked, nunits, shared)
        invariant asked <= 2 && AllGranted(answers, asked) && Paid(old(obtained), obtained, answers, asked, shared)
        invariant Searching(headers, ring, freep, prevp, p, i, f, asked, nunits, shared)
        decreases 2 - asked, if i < |ring| && f < |ring| then Distance(i, f, |ring|) else 0
      {
        StateRing(base, headers, ring, live, obtained);
        SearchPlace(base, headers, ring, freep, prevp, p, i, f, asked, nunits, shared);
        if headers[p].shared == shared && headers[p].size >= nunits {
          if asked == 0 { UnfitFound(headers, ring, freep, f, i, nunits, shared); }
          return;
        }
        if asked == 0 { UnfitMore(base, headers, ring, freep, f, i, nunits, shared); }
        if p == freep {
          if answers[asked].None? {
            NoGrant(base, h0, ring0, headers, ring, live, answers, asked, nunits, shared);
            PaidMore(old(obtained), obtained, answers, asked, shared);
            p, asked := NULL, asked + 1;
            return;
          }
          PaidMore(old(obtained), obtained, answers, asked, shared);
          f, i := Ask(nunits, shared, answers, asked, prevp, p, i, f, h0, ring0);
          asked := asked + 1;
        } else {
          StepSearching(base, headers, ring, freep, prevp, p, i, f, asked, nunits, shared);
          i := NextPlace(ring, i);
        }
        prevp := p;
        p := headers[p].ptr;
      }
    }
  }

  /** No free block will do. */
  ghost predicate NoneFits(h: Headers, ring: seq<int>, n: nat, shared: bool) {
    forall a :: a in ring ==> !Fits(h, a, n, shared)
  }

  /** Going around the ring from behind place f, no block before place i will do. */
  ghost predicate Unfit(h: Headers, ring: seq<int>, f: nat, i: nat, n: nat, shared: bool) {
    && f < |ring| && i < |ring|
    && forall j: nat :: j < |ring| && Distance(j, f, |ring|) > Distance(i, f, |ring|) ==> !Fits(h, ring[j], n, shared)
  }

  /** Block a is the first one behind `freep` that will do, going around the ring. */
  ghost predicate FirstFit(h: Headers, ring: seq<int>, freep: int, a: int, n: nat, shared: bool) {
    && Fits(h, a, n, shared)
    && exists f: nat, i: nat :: Unfit(h, ring, f, i, n, shared) && ring[f] == freep && ring[i] == a
  }

  lemma UnfitNone(h: Headers, ring: seq<int>, f: nat, n: nat, shared: bool)
    requires f < |ring|
    ensures Unfit(h, ring, f, NextPlace(ring, f), n, shared)
  {}

  lemma UnfitFound(h: Headers, ring: seq<int>, freep: int, f: nat, i: nat, n: nat, shared: bool)
    requires Unfit(h, ring, f, i, n, shared) && ring[f] == freep && Fits(h, ring[i], n, shared)
    ensures FirstFit(h, ring, freep, ring[i], n, shared)
  {}

  lemma UnfitMore(base: int, h: Headers, ring: seq<int>, freep: int, f: nat, i: nat, n: nat, shared: bool)
    requires IsRing(base, h, ring) && Unfit(h, ring, f, i, n, shared) && ring[f] == freep
    requires !Fits(h, ring[i], n, shared)
    ensures ring[i] == freep ==> NoneFits(h, ring, n, shared)
    ensures ring[i] != freep ==> Unfit(h, ring, f, NextPlace(ring, i), n, shared)
  {
    if ring[i] == freep {
      SamePlace(base, h, ring, i, f);
      forall a | a in ring ensures !Fits(h, a, n, shared) {
        var j: nat :| j < |ring| && ring[j] == a;
        assert j != f ==> Distance(j, f, |ring|) > Distance(i, f, |ring|);
      }
    } else {
      forall j: nat | j < |ring| && Distance(j, f, |ring|) > Distance(NextPlace(ring, i), f, |ring|)
        ensures !Fits(h, ring[j], n, shared)
      {
        assert j != i ==> Distance(j, f, |ring|) > Distance(i, f, |ring|);
      }
    }
  }

  /** What is found after the first call has set up the ring holds of the state before it: the anchor never does. */
  lemma FromTheStart(base: int, h0: Headers, ring0: seq<int>, h: Headers, ring: seq<int>, freep: int, p: int, n: nat,
      shared: bool)
    requires 0 < n
    requires (h == h0 && ring == ring0) || (ring0 == [] && ring == [base] && base in h && h[base].size == 0)
    ensures NoneFits(h, ring, n, shared) ==> NoneFits(h0, ring0, n, shared)
    ensures FirstFit(h, ring, freep, p, n, shared) ==> h == h0 && ring == ring0
  {}

  lemma EnoughUnits(size: nat)
    ensures var n := (size + UNIT - 1) / UNIT + 1; UNIT * (n - 2) < size <= UNIT * (n - 1)
  {}

  lemma ReachedParts(base: int, h0: Headers, ring0: seq<int>, h: Headers, ring: seq<int>, live: seq<int>,
      answers: seq<Option<Chunk>>, asked: nat, n: nat, shared: bool)
    requires Reached(base, h0, ring0, h, ring, live, answers, asked, n, shared)
    ensures asked <= 2 == |answers| && forall j :: 0 <= j < asked - 1 ==> answers[j].Some?
    ensures GrewBy(h0, ring0, h, ring, live, answers, asked, shared)
  {
    hide Grant, GrewBy, Successive;
  }

  lemma PaidNone(obtained: bool -> nat, answers: seq<Option<Chunk>>, shared: bool)
    ensures Paid(obtained, obtained, answers, 0, shared)
  {
    assert Total(answers, 0) == 0;
  }

  lemma PaidMore(before: bool -> nat, after: bool -> nat, answers: seq<Option<Chunk>>, asked: nat, shared: bool)
    requires Paid(before, after, answers, asked, shared) && asked < |answers|
    ensures answers[asked].None? ==> Paid(before, after, answers, asked + 1, shared)
    ensures answers[asked].Some? ==>
      Paid(before, Plus(after, shared, answers[asked].value.units), answers, asked + 1, shared)
  {}

  /** What one grant does: the ring gains a block or one of its blocks grows. */
  ghost predicate CoreStep(h: Headers, ring: seq<int>, h': Headers, ring': seq<int>, live: seq<int>, c: Chunk, n: nat,
      shared: bool, k: nat, low: bool) {
    && k < |ring|
    && ring' == (if low then ring else ring[..k + 1] + [c.addr] + ring[k + 1..])
    && Fits(h', if low then ring[k] else c.addr, n, shared)
    && GrownFrom(h, h', ring)
    && (forall d :: d in live ==> d in h && d in h' && h'[d] == h[d])
    && (forall x, s :: Covers(h', ring', x, s) <==> Covers(h, ring, x, s) || (s == shared && InChunk(c, x)))
  }

  /** The free memory is what it was and the chunks granted; allocations are as they were. */
  ghost predicate GrewBy(h0: Headers, ring0: seq<int>, h: Headers, ring: seq<int>, live: seq<int>,
      answers: seq<Option<Chunk>>, asked: nat, shared: bool) {
    && (forall c :: c in live ==> c in h && c in h0 && h[c] == h0[c])
    && (forall x, s :: Covers(h, ring, x, s) <==>
      Covers(h0, ring0, x, s) || (s == shared && Granted(answers, asked, x)))
  }

  /** Block a has the kind asked for and as many units as a header and the size need, and no more; it came out of the
      free memory and the chunks
      granted, which hold everything else as before; older allocations are as they were. */
  ghost predicate Allotted(h0: Headers, ring0: seq<int>, h: Headers, ring: seq<int>, live: seq<int>,
      answers: seq<Option<Chunk>>, asked: nat, a: int, size: nat, shared: bool) {
    && a in h && h[a].shared == shared && UNIT * (h[a].size - 2) < size <= UNIT * (h[a].size - 1)
    && (forall c :: c in live ==> c in h && c in h0 && h[c] == h0[c])
    && (forall x :: InBlock(h, a, x, shared) ==> Covers(h0, ring0, x, shared) || Granted(answers, asked, x))
    && (forall x, s :: Covers(h, ring, x, s) <==>
          (Covers(h0, ring0, x, s) || (s == shared && Granted(answers, asked, x))) && !InBlock(h, a, x, s))
  }

  lemma AllottedByTake(base: int, h0: Headers, ring0: seq<int>, h: Headers, ring: seq<int>, live: seq<int>,
      obtained: bool -> nat, answers: seq<Option<Chunk>>, asked: nat, i: nat, n: nat, size: nat, shared: bool)
    requires State(base, h, ring, live, obtained) && GrewBy(h0, ring0, h, ring, live, answers, asked, shared)
    requires Takable(base, h, ring, i, n) && ring[i - 1] in h && h[ring[i]].shared == shared
    requires UNIT * (n - 2) < size <= UNIT * (n - 1)
    ensures var (h', ring') := Taken(h, ring, i, n);
      Allotted(h0, ring0, h', ring', live, answers, asked, ring[i], size, shared)
  {
    var (h', ring') := Taken(h, ring, i, n);
    TakenSeparate(base, h, ring, live, i, n);
    forall x, s
      ensures InBlock(h', ring[i], x, s) ==> Covers(h, ring, x, s)
      ensures Covers(h', ring', x, s) <==> Covers(h, ring, x, s) && !InBlock(h', ring[i], x, s)
    {
      TakenCovers(base, h, ring, i, n, x, s);
    }
  }

  /** After `asked` requests, all but possibly the last granted: the memory has grown by the chunks
      granted, and the remaining answers still obey the rules. */
  ghost predicate Reached(base: int, h0: Headers, ring0: seq<int>, h: Headers, ring: seq<int>, live: seq<int>,
                          answers: seq<Option<Chunk>>, asked: nat, n: nat, shared: bool) {
    && asked <= 2 == |answers|
    && (forall j :: 0 <= j < asked - 1 ==> answers[j].Some?)
    && (forall j :: asked <= j < 2 && answers[j].Some? ==> Grant(base, h, ring, live, answers[j].value, n, shared))
    && (answers[0].Some? && answers[1].Some? ==> Successive(answers[0].value, answers[1].value))
    && GrewBy(h0, ring0, h, ring, live, answers, asked, shared)
  }

  ghost predicate AllGranted(answers: seq<Option<Chunk>>, asked: nat) {
    asked <= |answers| && forall j :: 0 <= j < asked ==> answers[j].Some?
  }

  lemma NoGrant(base: int, h0: Headers, ring0: seq<int>, h: Headers, ring: seq<int>, live: seq<int>,
                answers: seq<Option<Chunk>>, asked: nat, n: nat, shared: bool)
    requires Reached(base, h0, ring0, h, ring, live, answers, asked, n, shared) && asked < 2 && answers[asked].None?
    requires AllGranted(answers, asked)
    ensures Reached(base, h0, ring0, h, ring, live, answers, asked + 1, n, shared)
  {
    assert forall x :: Granted(answers, asked + 1, x) <==> Granted(answers, asked, x);
  }

  lemma NextGrant(base: int, h0: Headers, ring0: seq<int>, h: Headers, ring: seq<int>, live: seq<int>,
                  answers: seq<Option<Chunk>>, asked: nat, n: nat, shared: bool)
    requires Reached(base, h0, ring0, h, ring, live, answers, asked, n, shared) && asked < 2 && answers[asked].Some?
    ensures Grant(base, h, ring, live, answers[asked].value, n, shared)
  {}

  lemma ReachedMore(base: int, h0: Headers, ring0: seq<int>, h: Headers, ring: seq<int>, h': Headers, ring': seq<int>,
                    live: seq<int>, answers: seq<Option<Chunk>>, asked: nat, n: nat, shared: bool, k: nat, low: bool)
    requires Reached(base, h0, ring0, h, ring, live, answers, asked, n, shared) && asked < 2 && answers[asked].Some?
    requires AllGranted(answers, asked)
    requires CoreStep(h, ring, h', ring', live, answers[asked].value, n, shared, k, low)
    requires forall d :: Grant(base, h, ring, live, d, n, shared) && Successive(answers[asked].value, d) ==>
               Grant(base, h', ring', live, d, n, shared)
    ensures Reached(base, h0, ring0, h', ring', live, answers, asked + 1, n, shared) && AllGranted(answers, asked + 1)
  {
    GrantedMore(answers, asked + 1);
  }

  lemma StateRing(base: int, h: Headers, ring: seq<int>, live: seq<int>, obtained: bool -> nat)
    requires State(base, h, ring, live, obtained)
    ensures IsRing(base, h, ring)
  {}

  /** The search starts behind freep. */
  lemma SearchStart(base: int, h: Headers, ring: seq<int>, live: seq<int>, obtained: bool -> nat, freep: int, n: nat,
      shared: bool)
    returns (f: nat)
    requires State(base, h, ring, live, obtained) && freep in ring
    ensures f < |ring| && ring[f] == freep && freep in h
    ensures Searching(h, ring, freep, freep, h[freep].ptr, NextPlace(ring, f), f, 0, n, shared)
  {
    f :| f < |ring| && ring[f] == freep;
    RingNext(base, h, ring, f);
  }

  lemma SearchPlace(base: int, h: Headers, ring: seq<int>, freep: int, prevp: int, p: int, i: nat, f: nat, asked: nat,
      n: nat, shared: bool)
    requires IsRing(base, h, ring) && Searching(h, ring, freep, prevp, p, i, f, asked, n, shared) && 0 < n
    ensures p in h && p != NULL && freep in ring && f < |ring| && i < |ring| && ring[i] == p && ring[f] == freep
    ensures Fits(h, p, n, shared) ==> 0 < i && ring[i - 1] == prevp
    ensures asked == 2 ==> Fits(h, p, n, shared)
  {
    assert p in ring && freep in ring;
    RingAboveBase(base, h, ring, p);
  }

  lemma GrantedMore(answers: seq<Option<Chunk>>, n: nat)
    requires 0 < n <= |answers| && answers[n - 1].Some?
    ensures forall x :: Granted(answers, n, x) <==> Granted(answers, n - 1, x) || InChunk(answers[n - 1].value, x)
  {}

  function NextPlace(ring: seq<int>, i: nat): nat { if i + 1 < |ring| then i + 1 else 0 }

  /** p is place i of the ring and prevp the place before it; freep is place f. After the first request
      a block that fits stands at freep or just behind it, after the second at p. */
  ghost predicate Searching(h: Headers, ring: seq<int>, freep: int, prevp: int, p: int, i: nat, f: nat, asked: nat,
      n: nat, shared: bool) {
    && f < |ring| && ring[f] == freep
    && i < |ring| && ring[i] == p && prevp == ring[if i == 0 then |ring| - 1 else i - 1]
    && (asked == 1 ==> Fits(h, ring[f], n, shared) || (f + 1 < |ring| && Fits(h, ring[f + 1], n, shared)))
    && (asked == 2 ==> Fits(h, p, n, shared))
  }

  lemma StepSearching(base: int, h: Headers, ring: seq<int>, freep: int, prevp: int, p: int, i: nat, f: nat, asked: nat,
      n: nat, shared: bool)
    requires IsRing(base, h, ring) && Searching(h, ring, freep, prevp, p, i, f, asked, n, shared)
    requires p in h && p != freep && !Fits(h, p, n, shared)
    ensures Searching(h, ring, freep, p, h[p].ptr, NextPlace(ring, i), f, asked, n, shared)
    ensures f < |ring| && i < |ring| && NextPlace(ring, i) < |ring|
    ensures Distance(NextPlace(ring, i), f, |ring|) < Distance(i, f, |ring|)
  {
    RingNext(base, h, ring, i);
  }

  /** After a request the search still stands in the ring, and after the second its next block fits. */
  lemma CoreParts(h: Headers, ring: seq<int>, h': Headers, ring': seq<int>, live: seq<int>, c: Chunk, n: nat,
      shared: bool, k: nat, low: bool)
    requires CoreStep(h, ring, h', ring', live, c, n, shared, k, low)
    ensures k < |ring| && ring' == (if low then ring else ring[..k + 1] + [c.addr] + ring[k + 1..])
    ensures Fits(h', if low then ring[k] else c.addr, n, shared) && GrownFrom(h, h', ring)
  {
    hide Covers;
  }

  lemma GrowSearching(base: int, h: Headers, ring: seq<int>, h': Headers, ring': seq<int>, prevp: int, p: int,
                      i: nat, f: nat, asked: nat, n: nat, shared: bool, live: seq<int>, c: Chunk, k: nat, low: bool)
    requires IsRing(base, h, ring) && IsRing(base, h', ring') && Searching(h, ring, p, prevp, p, i, f, asked, n, shared)
    requires asked < 2 && !Fits(h, p, n, shared)
    requires CoreStep(h, ring, h', ring', live, c, n, shared, k, low)
    ensures p in h'
    ensures Searching(h', ring', ring[k], p, h'[p].ptr, NextPlace(ring', if low || i <= k then i else i + 1), k,
      asked + 1, n, shared)
  {
    hide IsRing, CoreStep, GrownFrom;
    CoreParts(h, ring, h', ring', live, c, n, shared, k, low);
    SamePlace(base, h, ring, i, f);
    GrownPlace(ring, ring', c, k, low, i);
    var i' := if low || i <= k then i else i + 1;
    RingNext(base, h', ring', i');
    if asked == 1 { SecondFits(h, ring, h', ring', n, shared, i, c, k, low); }
  }

  lemma SamePlace(base: int, h: Headers, ring: seq<int>, i: nat, f: nat)
    requires IsRing(base, h, ring) && i < |ring| && f < |ring| && ring[i] == ring[f]
    ensures i == f
  {
    RingDistinct(base, h, ring);
  }

  /** Where the places of the ring are after a grant. */
  lemma GrownPlace(ring: seq<int>, ring': seq<int>, c: Chunk, k: nat, low: bool, i: nat)
    requires k < |ring| && i < |ring| && ring' == (if low then ring else ring[..k + 1] + [c.addr] + ring[k + 1..])
    ensures k < |ring'| && ring'[k] == ring[k] && (!low ==> k + 1 < |ring'| && ring'[k + 1] == c.addr)
    ensures var i' := if low || i <= k then i else i + 1; i' < |ring'| && ring'[i'] == ring[i]
  {}

  /** The block found behind the place of the first grant is still there, and large enough. */
  lemma SecondFits(h: Headers, ring: seq<int>, h': Headers, ring': seq<int>, n: nat, shared: bool, i: nat, c: Chunk,
      k: nat, low: bool)
    requires k < |ring| && ring' == (if low then ring else ring[..k + 1] + [c.addr] + ring[k + 1..])
    requires Fits(h', if low then ring[k] else c.addr, n, shared) && GrownFrom(h, h', ring)
    requires i + 1 < |ring| && Fits(h, ring[i + 1], n, shared)
    ensures var i' := if low || i <= k then i
      else i + 1; i' < |ring'| && Fits(h', ring'[NextPlace(ring', i')], n, shared)
  {
    assert ring[i + 1] in ring;
  }

  lemma TakeDetails(base: int, h: Headers, ring: seq<int>, live: seq<int>, obtained: bool -> nat, i: nat, n: nat)
    requires State(base, h, ring, live, obtained)
    requires i < |ring| && ring[i] in h && 0 < n <= h[ring[i]].size
    ensures Takable(base, h, ring, i, n) && ring[i - 1] in h && NULL < ring[i]
    ensures var (h', ring') := Taken(h, ring, i, n); var p := ring[i];
      && State(base, h', ring', live + [p], obtained)
      && ring[i - 1] in ring' && ring[i - 1] != NULL
  {
    assert ring[i] in ring;
    assert i > 0;
    assert ring[i - 1] in ring && ring[0] in ring;
    var (h', ring') := Taken(h, ring, i, n);
    TakenRoom(base, h, ring, i, n);
    TakeKeepsState(base, h, ring, live, obtained, i, n);
    assert ring'[i - 1] == ring[i - 1] && ring'[0] in ring';
    RingAboveBase(base, h, ring, ring[i - 1]);
  }

  lemma StateAboveNull(base: int, h: Headers, ring: seq<int>, live: seq<int>, obtained: bool -> nat, a: int)
    requires State(base, h, ring, live, obtained) && a in ring
    ensures NULL < a
  {
    RingAboveBase(base, h, ring, a);
  }

  lemma FirstState(base: int, h: Headers, obtained: bool -> nat)
    requires NULL < base && base in h && h[base] == Header(base, 0, false)
    requires forall s :: obtained(s) == 0
    ensures State(base, h, [base], [], obtained)
  {
    forall s ensures Units(h, [base], s) == 0 { UnitsOne(h, base, s); }
  }

  lemma GrantKept(base: int, h0: Headers, ring: seq<int>, live: seq<int>, c: Chunk, nunits: nat, shared: bool, k: nat,
      d: Chunk)
    requires IsRing(base, h0, ring) && Separate(base, h0, ring, live)
    requires Grant(base, h0, ring, live, c, nunits, shared) && Slot(ring, c.addr, k)
    requires Grant(base, h0, ring, live, d, nunits, shared) && Successive(c, d)
    requires c.addr !in ring && c.addr !in live
    requires var h := h0[c.addr := Header(NULL, c.units, shared)]; Releasable(base, h, ring, c.addr)
    ensures var h := h0[c.addr := Header(NULL, c.units, shared)];
      && ring[k] in h && Next(ring, k) in h
      && var (h', ring') := Freed(h, ring, c.addr, k);
      Grant(base, h', ring', live, d, nunits, shared)
  {
    var h := h0[c.addr := Header(NULL, c.units, shared)];
    SlotNeighbours(base, h, ring, c.addr, k);
    var (h', ring') := Freed(h, ring, c.addr, k);
    CoreDetails(base, h0, ring, live, c, nunits, shared, k);
    assert Clear(h, ring, d.addr, Stop(d));
    FreedClear(base, h, ring, c.addr, k, d.addr, Stop(d));
    forall a | a in ring' && a in h' && h'[a].shared == shared ensures a != Stop(d) {
      assert a in ring || a == c.addr;
    }
  }

  lemma FreeDetails(base: int, h: Headers, ring: seq<int>, live: seq<int>, obtained: bool -> nat, i: nat, k: nat)
    requires State(base, h, ring, live, obtained) && i < |live| && live[i] in h && Slot(ring, live[i], k)
    requires ring[k] in h && Next(ring, k) in h
    ensures var (h', ring') := Freed(h, ring, live[i], k); var live' := Without(live, i);
      && State(base, h', ring', live', obtained)
      && base in h' && h'[base].size == 0 && !h'[base].shared
      && ring[k] in ring' && ring[k] != NULL
      && (forall c :: c in live' <==> c in live && c != live[i])
      && (forall c :: c in live' ==> c in h && h'[c] == h[c])
      && (forall x, s :: Covers(h', ring', x, s) <==> Covers(h, ring, x, s) || InBlock(h, live[i], x, s))
  {
    var bp := live[i];
    var (h', ring') := Freed(h, ring, bp, k);
    assert bp in live && ring[k] in ring && Distinct(live);
    LiveIsReleasable(base, h, ring, live, bp);
    FreeKeepsState(base, h, ring, live, obtained, i, k);
    WithoutSeparate(base, h, ring, live, i);
    RingAboveBase(base, h, ring, ring[k]);
    FreedFront(h, ring, bp, k);
    RingBase(base, h', ring');
    hide State, IsRing, Freed, Separate, Covers, Clear, Distinct;
    WithoutMembers(live, i);
    FreedSeparate(base, h, ring, bp, k, Without(live, i));
    forall x, s ensures Covers(h', ring', x, s) <==> Covers(h, ring, x, s) || InBlock(h, bp, x, s) {
      FreedCovers(base, h, ring, bp, k, x, s);
    }
  }

  lemma RingBase(base: int, h: Headers, ring: seq<int>)
    requires IsRing(base, h, ring)
    ensures base in h && h[base].size == 0 && !h[base].shared
  {
    assert ring[0] in ring;
  }

  lemma FreedFront(h: Headers, ring: seq<int>, bp: int, k: nat)
    requires bp in h && k < |ring| && ring[k] in h && Next(ring, k) in h
    ensures ring[k] in Freed(h, ring, bp, k).1
  {
    assert Freed(h, ring, bp, k).1[k] == ring[k];
  }

  /** The other allocations, and the block between them. */
  lemma WithoutSeparate(base: int, h: Headers, ring: seq<int>, live: seq<int>, i: nat)
    requires Separate(base, h, ring, live) && i < |live|
    ensures live[i] in h && Separate(base, h, ring, Without(live, i))
    ensures Clear(h, Without(live, i), live[i], End(h, live[i]))
  {
    var bp := live[i];
    assert bp in live;
    WithoutMembers(live, i);
    forall a | a in Without(live, i) ensures a in h && (Above(h, a) <= bp || End(h, bp) <= a) {
      assert a in live && a != bp && Apart(h, a, bp);
    }
  }

  ghost predicate GrownFrom(h: Headers, h': Headers, ring: seq<int>) {
    forall a :: a in ring ==> a in h && a in h' && h'[a].shared == h[a].shared && h'[a].size >= h[a].size
  }

  lemma CoversSame(h: Headers, h': Headers, ring: seq<int>, x: int, shared: bool)
    requires forall a :: a in ring ==> a in h && a in h' && h'[a] == h[a]
    ensures Covers(h', ring, x, shared) <==> Covers(h, ring, x, shared)
  {
    if Covers(h', ring, x, shared) {
      var a :| a in ring && InBlock(h', a, x, shared);
      assert InBlock(h, a, x, shared);
    }
    if Covers(h, ring, x, shared) {
      var a :| a in ring && InBlock(h, a, x, shared);
      assert InBlock(h', a, x, shared);
    }
  }

  lemma CoreDetails(base: int, h0: Headers, ring: seq<int>, live: seq<int>, c: Chunk, nunits: nat, shared: bool, k: nat)
    requires IsRing(base, h0, ring) && Separate(base, h0, ring, live)
    requires Grant(base, h0, ring, live, c, nunits, shared) && Slot(ring, c.addr, k)
    requires c.addr !in ring && c.addr !in live
    requires var h := h0[c.addr := Header(NULL, c.units, shared)]; Releasable(base, h, ring, c.addr)
    ensures var h := h0[c.addr := Header(NULL, c.units, shared)];
      && ring[k] in h && Next(ring, k) in h
      && var (h', ring') := Freed(h, ring, c.addr, k);
      && ring'[k] == ring[k]
      && CoreStep(h0, ring, h', ring', live, c, nunits, shared, k, Touch(h, ring[k], c.addr))
  {
    var p := c.addr;
    var h := h0[p := Header(NULL, c.units, shared)];
    SlotNeighbours(base, h, ring, p, k);
    CoreShape(base, h, ring, p, k, shared);
    FreedShape(base, h, ring, p, k);
    assert forall a :: a in ring ==> a in h0 && a != p;
    forall d | d in live ensures d in h0 && d in h && h[d] == h0[d] && d != p && d != ring[k] {
      ClearNotIn(h0, ring, d, End(h0, d));
      assert ring[k] in ring;
    }
    var (h', ring') := Freed(h, ring, c.addr, k);
    forall x, s ensures Covers(h', ring', x, s) <==> Covers(h0, ring, x, s) || (s == shared && InChunk(c, x)) {
      FreedCovers(base, h, ring, p, k, x, s);
      CoversSame(h0, h, ring, x, s);
    }
  }

  /** No fresh chunk merges upwards, so no block leaves the ring. */
  lemma CoreShape(base: int, h: Headers, ring: seq<int>, p: int, k: nat, shared: bool)
    requires Releasable(base, h, ring, p) && Slot(ring, p, k) && h[p].shared == shared
    requires forall a :: a in ring && h[a].shared == shared ==> a != End(h, p)
    requires ring[k] in h && Next(ring, k) in h
    ensures var (h', ring') := Freed(h, ring, p, k);
      && var low := Touch(h, ring[k], p);
      && ring' == (if low then ring else ring[..k + 1] + [p] + ring[k + 1..])
      && ring'[k] == ring[k]
      && Fits(h', if low then ring[k] else p, h[p].size, shared)
      && GrownFrom(h, h', ring)
      && h'[base].size == h[base].size
  {
    SlotNeighbours(base, h, ring, p, k);
    assert Next(ring, k) in ring && ring[k] in ring;
    assert !Touch(h, p, Next(ring, k));
    CoreRing(ring, k, p, Touch(h, ring[k], p));
    CoreGrown(base, h, ring, p, k);
  }

  lemma CoreRing(ring: seq<int>, k: nat, p: int, low: bool)
    requires k < |ring|
    ensures var ring' := ring[..k + 1] + (if low then [] else [p]) + ring[k + 1..];
      ring' == (if low then ring else ring[..k + 1] + [p] + ring[k + 1..]) && ring'[k] == ring[k]
  {
    assert ring[..k + 1] + [] + ring[k + 1..] == ring;
  }

  lemma CoreGrown(base: int, h: Headers, ring: seq<int>, p: int, k: nat)
    requires Releasable(base, h, ring, p) && Slot(ring, p, k)
    requires ring[k] in h && Next(ring, k) in h && !Touch(h, p, Next(ring, k))
    ensures var h' := Freed(h, ring, p, k).0;
      && Fits(h', if Touch(h, ring[k], p) then ring[k] else p, h[p].size, h[p].shared)
      && GrownFrom(h, h', ring)
      && h'[base].size == h[base].size
  {
    assert ring[0] in ring && ring[k] in ring;
  }
}
