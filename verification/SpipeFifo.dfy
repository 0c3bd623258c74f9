/** What the shared-memory pipe promises in every run. */
module SpipeFifo {
  import opened Spipe

  /** The bytes now in the ring, oldest first, as they lie in the buffer. */
  function Queue(s: Pipe): seq<int>
    requires s.rpos <= s.wpos && |s.buf| > 0
  {
    seq(s.wpos - s.rpos, i requires 0 <= i < s.wpos - s.rpos => s.buf[(s.rpos + i) % |s.buf|])
  }

  function Bytes(es: seq<Entry>): (bs: seq<int>)
    ensures |bs| == |es|
  {
    seq(|es|, i requires 0 <= i < |es| => es[i].byte)
  }

  lemma QueueIsPending(s: Pipe)
    requires Ring(s)
    ensures Bytes(s.accepted) == Bytes(s.delivered) + Queue(s)
  {
    var all, a := Bytes(s.delivered) + Queue(s), Bytes(s.accepted);
    forall i | 0 <= i < |a| ensures all[i] == a[i] {
      if i >= s.rpos { assert Queue(s)[i - s.rpos] == s.buf[i % |s.buf|]; }
    }
  }

  /** In every run the pipe is a first-in first-out queue of at most `size` bytes: what went in is what came out,
      followed by what is in the ring; every call moved exactly the bytes it reports, in order. */
  lemma Fifo(size: nat, moves: seq<Move>)
    requires size > 0 && Noticed(size, moves)
    ensures var s := Run(size, moves);
      && s.rpos <= s.wpos && |Queue(s)| == s.wpos - s.rpos <= size
      && |s.accepted| == s.wpos && |s.delivered| == s.rpos
      && Bytes(s.accepted) == Bytes(s.delivered) + Queue(s)
  {
    RunKeeps(size, moves);
    QueueIsPending(Run(size, moves));
  }

  lemma EachInOrder(size: nat, moves: seq<Move>, c: nat)
    requires size > 0 && Noticed(size, moves) && c < |Run(size, moves).calls|
    ensures var s := Run(size, moves); var k := s.calls[c];
      && (k.op.Write? ==>
        && k.count <= |k.op.data| && Of(s.accepted, c) == k.op.data[..k.count]
        && Of(s.delivered, c) == [])
      && (k.op.Read? ==>
        && k.count <= k.op.n && |k.out| == k.count && Of(s.delivered, c) == k.out
        && Of(s.accepted, c) == [])
      && (!k.op.Write? && !k.op.Read? ==> Of(s.delivered, c) == [] && Of(s.accepted, c) == [])
  {
    RunKeeps(size, moves);
    assert CallAt(Run(size, moves), c);
  }

  function Counted(calls: seq<Call>, write: bool): nat {
    if calls == [] then 0
    else
      var k := calls[|calls| - 1];
      Counted(calls[..|calls| - 1], write) + if (if write then k.op.Write? else k.op.Read?) then k.count else 0
  }

  /** How many of the entries belong to the first n calls. */
  function Owned(es: seq<Entry>, n: nat): nat {
    if n == 0 then 0 else Owned(es, n - 1) + |Of(es, n - 1)|
  }

  lemma {:induction false} OwnedMore(es: seq<Entry>, e: Entry, n: nat)
    ensures Owned(es + [e], n) == Owned(es, n) + if e.call < n then 1 else 0
  {
    OfMore(es, e);
    if n > 0 { OwnedMore(es, e, n - 1); }
  }

  lemma {:induction false} OwnedAll(es: seq<Entry>, n: nat)
    requires forall c: nat :: c >= n ==> Of(es, c) == []
    ensures Owned(es, n) == |es|
  {
    if es == [] {
      OwnedNone(n);
    } else {
      var e, rest := es[|es| - 1], es[..|es| - 1];
      assert es == rest + [e];
      OfMore(rest, e);
      assert Of(es, e.call) != [];
      forall c: nat | c >= n ensures Of(rest, c) == [] { assert Of(es, c) == []; }
      OwnedAll(rest, n);
      OwnedMore(rest, e, n);
    }
  }

  lemma {:induction false} OwnedNone(n: nat)
    ensures Owned([], n) == 0
  {
    if n > 0 { OwnedNone(n - 1); }
  }

  lemma {:induction false} CountedIsOwned(s: Pipe, n: nat)
    requires n <= |s.calls| && CallsOk(s)
    ensures Counted(s.calls[..n], true) == Owned(s.accepted, n) && Counted(s.calls[..n], false) == Owned(s.delivered, n)
  {
    if n > 0 {
      CountedIsOwned(s, n - 1);
      assert s.calls[..n][..n - 1] == s.calls[..n - 1];
      assert CallAt(s, n - 1);
    }
  }

  /** The counts of all write calls together are the write position, those of the read calls the read position. */
  lemma Conserved(size: nat, moves: seq<Move>)
    requires size > 0 && Noticed(size, moves)
    ensures var s := Run(size, moves); Counted(s.calls, true) == s.wpos && Counted(s.calls, false) == s.rpos
  {
    RunKeeps(size, moves);
    var s := Run(size, moves);
    var n := |s.calls|;
    CountedIsOwned(s, n);
    assert s.calls[..n] == s.calls;
    forall c: nat | c >= n ensures Of(s.accepted, c) == [] && Of(s.delivered, c) == [] { assert CallAt(s, c); }
    OwnedAll(s.accepted, n);
    OwnedAll(s.delivered, n);
  }

  /** A write that is past the test for a closed pipe and has bytes left. */
  predicate Late(k: Call) { k.op.Write? && k.pc == Loop && k.count < |k.op.data| }

  predicate LateAt(s: Pipe, c: nat) { c < |s.calls| && Late(s.calls[c]) }

  /** What can have happened to a closed pipe s0: bytes came only from writes that were late then. */
  ghost predicate OnlyLate(s0: Pipe, s: Pipe) {
    && s.closed && s0.accepted <= s.accepted
    && (forall i :: |s0.accepted| <= i < |s.accepted| ==> LateAt(s0, s.accepted[i].call))
    && (forall c: nat :: LateAt(s, c) ==> LateAt(s0, c))
  }

  /** No call becomes late on a closed pipe, and only a late one adds a byte, whether or not waits fail. */
  lemma ClosedStep(s: Pipe, m: Move)
    requires s.closed && |s.buf| > 0
    ensures OnlyLate(s, Moved(s, m))
  {
    if m.Step? && m.c < |s.calls| { StepLate(s, m.c, m.ok); }
  }

  lemma StepLate(s: Pipe, c: nat, ok: bool)
    requires s.closed && |s.buf| > 0 && c < |s.calls|
    ensures OnlyLate(s, StepCall(s, c, ok))
  {
    var s' := StepCall(s, c, ok);
    if s.calls[c].pc == Check { CheckLate(s, c); }
    if s.calls[c].pc == Loop { LoopLate(s, c); }
    hide CheckStep, LoopStep;
    assert LateStep(s, s', c);
    OneCall(s, s', c);
  }

  /** What the step of one call may do to a closed pipe. */
  ghost predicate LateStep(s: Pipe, s': Pipe, c: nat) {
    && c < |s.calls| && |s'.calls| == |s.calls| && s'.calls == s.calls[c := s'.calls[c]] && s'.closed
    && (Late(s'.calls[c]) ==> Late(s.calls[c]))
    && (s'.accepted == s.accepted
        || (Late(s.calls[c]) && |s'.accepted| == |s.accepted| + 1 && s.accepted <= s'.accepted
          && s'.accepted[|s.accepted|].call == c))
  }

  lemma CheckLate(s: Pipe, c: nat)
    requires s.closed && c < |s.calls| && s.calls[c].pc == Check
    ensures LateStep(s, CheckStep(s, c), c)
  {}

  lemma LoopLate(s: Pipe, c: nat)
    requires s.closed && |s.buf| > 0 && c < |s.calls| && s.calls[c].pc == Loop
    ensures LateStep(s, LoopStep(s, c), c)
  {}

  lemma OneCall(s: Pipe, s': Pipe, c: nat)
    requires LateStep(s, s', c)
    ensures OnlyLate(s, s')
  {
    hide Late;
  }

  lemma OnlyLateOn(s0: Pipe, s: Pipe, s': Pipe)
    requires OnlyLate(s0, s) && OnlyLate(s, s')
    ensures OnlyLate(s0, s')
  {}

  /** After the pipe is closed, in every run and whatever the waits return, the only bytes still accepted come from
      writes that were already past the test at the time: no write call that begins later adds a byte. */
  lemma {:induction false} LateOnly(size: nat, moves: seq<Move>, more: seq<Move>)
    requires size > 0 && Run(size, moves).closed
    ensures OnlyLate(Run(size, moves), Run(size, moves + more))
    decreases |more|
  {
    var s0 := Run(size, moves);
    if more == [] {
      assert moves + more == moves;
    } else {
      var n := |more| - 1;
      assert (moves + more)[..|moves + more| - 1] == moves + more[..n];
      LateOnly(size, moves, more[..n]);
      var s := Run(size, moves + more[..n]);
      ClosedStep(s, more[n]);
      OnlyLateOn(s0, s, Moved(s, more[n]));
    }
  }

  /** If no failed wait went unnoticed before the close, nothing more is accepted at all. */
  lemma NoneAfterClose(size: nat, moves: seq<Move>, more: seq<Move>)
    requires size > 0 && Noticed(size, moves) && Run(size, moves).closed
    ensures var s := Run(size, moves + more); s.closed && s.accepted == Run(size, moves).accepted
  {
    RunKeeps(size, moves);
    LateOnly(size, moves, more);
    var s, s' := Run(size, moves), Run(size, moves + more);
    forall c: nat ensures !LateAt(s, c) { assert CallAt(s, c); }
    var n := |s.accepted|;
    assert n < |s'.accepted| ==> LateAt(s, s'.accepted[n].call);
  }

  /** A finished read that was asked for bytes and returns none has found the pipe closed, and drained or its own
      handle closed by spipeclose; a finished write that returns less than asked for has found the pipe closed. */
  lemma ShortReturns(size: nat, moves: seq<Move>, c: nat)
    requires size > 0 && Noticed(size, moves) && c < |Run(size, moves).calls|
    ensures var s := Run(size, moves); var k := s.calls[c];
      && (k.pc == Done && !k.failed && k.op.Read? && k.op.n > 0 && k.count == 0 ==>
            s.closed && k.h in s.shut && (s.rpos == s.wpos || k.h in s.byClose))
      && (k.pc == Done && !k.failed && k.op.Write? && k.count < |k.op.data| ==> s.closed)
  {
    RunKeeps(size, moves);
    assert CallAt(Run(size, moves), c);
  }

  /** The shared state changes only by a call that holds the semaphore, alone, and through a handle that is still
      open: a handle once closed is not used to reach the memory it has given up. */
  lemma OnlyTheHolder(s: Pipe, m: Move)
    requires Inv(s)
    ensures var s' := Moved(s, m);
      (s'.closed, s'.rpos, s'.wpos, s'.buf) != (s.closed, s.rpos, s.wpos, s.buf) ==>
        && m.Step? && m.c < |s.calls| && s.sem == 0 && s.calls[m.c].holds && s.calls[m.c].h !in s.shut
        && forall d: nat :: d < |s.calls| && s.calls[d].holds ==> d == m.c
  {
    if m.Step? && m.c < |s.calls| {
      assert CallAt(s, m.c);
      assert s.calls[m.c].holds <==> Inside(s.calls[m.c].pc);
    }
  }

  /** Each move leaves the queue as it is, adds the next byte of a write at the end, or takes the first byte
      for a read. */
  lemma RefinesQueue(s: Pipe, m: Move)
    requires Inv(s)
    ensures var s' := Moved(s, m);
      && s'.rpos <= s'.wpos
      && (|| (Queue(s') == Queue(s) && s'.accepted == s.accepted && s'.delivered == s.delivered)
          || (&& m.Step? && m.c < |s.calls| && s.calls[m.c].op.Write? && s.calls[m.c].count < |s.calls[m.c].op.data|
              && Queue(s') == Queue(s) + [s.calls[m.c].op.data[s.calls[m.c].count]] && s'.delivered == s.delivered)
          || (&& m.Step? && m.c < |s.calls| && s.calls[m.c].op.Read? && Queue(s) != [] && Queue(s') == Queue(s)[1..]
              && s'.calls[m.c].out == s.calls[m.c].out + [Queue(s)[0]] && s'.accepted == s.accepted))
  {
    if m.Step? && m.c < |s.calls| && s.calls[m.c].pc == Loop {
      assert CallAt(s, m.c);
      hide Mutex, CallsOk, Shutting;
      LoopOnQueue(s, m.c);
    } else {
      hide Inv;
      SameQueue(s, m);
    }
  }

  lemma SameQueue(s: Pipe, m: Move)
    requires |s.buf| > 0 && !(m.Step? && m.c < |s.calls| && s.calls[m.c].pc == Loop)
    ensures var s' := Moved(s, m);
      (s'.rpos, s'.wpos, s'.buf, s'.accepted, s'.delivered) == (s.rpos, s.wpos, s.buf, s.accepted, s.delivered)
  {}

  lemma LoopOnQueue(s: Pipe, c: nat)
    requires Ring(s) && c < |s.calls| && s.calls[c].pc == Loop
    ensures var s' := LoopStep(s, c); var k := s.calls[c];
      && s'.rpos <= s'.wpos
      && (|| (Queue(s') == Queue(s) && s'.accepted == s.accepted && s'.delivered == s.delivered)
          || (k.op.Write? && k.count < |k.op.data| && Queue(s') == Queue(s) + [k.op.data[k.count]]
            && s'.delivered == s.delivered)
          || (k.op.Read? && Queue(s) != [] && Queue(s') == Queue(s)[1..] && s'.calls[c].out == k.out + [Queue(s)[0]]
            && s'.accepted == s.accepted))
  {
    if LoopStep(s, c).wpos == s.wpos + 1 {
      WriteOnQueue(s, c);
    } else if LoopStep(s, c).rpos == s.rpos + 1 {
      ReadOnQueue(s, c);
    }
  }

  lemma WriteOnQueue(s: Pipe, c: nat)
    requires Ring(s) && c < |s.calls| && s.calls[c].pc == Loop && LoopStep(s, c).wpos == s.wpos + 1
    ensures var s', k := LoopStep(s, c), s.calls[c];
      k.op.Write? && k.count < |k.op.data| && s'.rpos <= s'.wpos && Queue(s') == Queue(s) + [k.op.data[k.count]]
  {
    var s', k := LoopStep(s, c), s.calls[c];
    var x := k.op.data[k.count];
    RingKept(s, c);
    QueueIsPending(s);
    QueueIsPending(s');
    assert s'.accepted == s.accepted + [Entry(c, x)] && s'.delivered == s.delivered;
    hide LoopStep, Ring, Queue;
    BytesMore(s.accepted, Entry(c, x));
    Cancel(Bytes(s.delivered), Queue(s'), Queue(s) + [x]);
  }

  lemma ReadOnQueue(s: Pipe, c: nat)
    requires Ring(s) && c < |s.calls| && s.calls[c].pc == Loop && LoopStep(s, c).rpos == s.rpos + 1
    ensures var s', k := LoopStep(s, c), s.calls[c];
      && k.op.Read? && Queue(s) != [] && s'.rpos <= s'.wpos && Queue(s') == Queue(s)[1..]
      && s'.calls[c].out == k.out + [Queue(s)[0]]
  {
    var s' := LoopStep(s, c);
    var x := s.buf[s.rpos % |s.buf|];
    RingKept(s, c);
    QueueIsPending(s);
    QueueIsPending(s');
    assert s'.delivered == s.delivered + [Entry(c, x)] && s'.accepted == s.accepted;
    assert Queue(s) != [] && Queue(s)[0] == x;
    hide LoopStep, Ring, Queue;
    BytesMore(s.delivered, Entry(c, x));
    Cancel(Bytes(s.delivered), [x] + Queue(s'), Queue(s));
  }

  lemma BytesMore(es: seq<Entry>, e: Entry)
    ensures Bytes(es + [e]) == Bytes(es) + [e.byte]
  {}

  lemma Cancel(a: seq<int>, b: seq<int>, c: seq<int>)
    requires a + b == a + c
    ensures b == c
  {
    assert b == (a + b)[|a|..] && c == (a + c)[|a|..];
  }

  /** A closed pipe can still be emptied: with nobody inside, a read through an open handle returns the next
      bytes in the ring, as many as it asks for or as there are. */
  lemma PendingReadable(s: Pipe, h: nat, n: nat) returns (k: nat)
    requires Inv(s) && s.sem == 1 && h !in s.shut && s.rpos < s.wpos
    ensures var c := |s.calls|; var s' := Alone(Moved(s, Begin(h, Read(n))), c, k);
      && c < |s'.calls| && s'.calls[c].pc == Done && s'.calls[c].out == Queue(s)[..Least(n, s.wpos - s.rpos)]
        && s'.sem == 1
  {
    var c := |s.calls|;
    var s1 := Moved(s, Begin(h, Read(n)));
    assert |s.buf| > 0;
    BeginKeeps(s, h, Read(n));
    Enters(s, h, n);
    assert s1.calls[c].pc == Enter;
    hide Inv, Alone, StepCall, Moved, Queue;
    var s2 := StepCall(s1, c, true);
    StepKeeps(s1, c, true);
    var s3 := StepCall(s2, c, true);
    StepKeeps(s2, c, true);
    var s4 := StepCall(s3, c, true);
    StepKeeps(s3, c, true);
    k := LoopToEnd(s4, c);
    AloneOne(s3, c, k);
    AloneOne(s2, c, k + 1);
    AloneOne(s1, c, k + 2);
    k := k + 3;
  }

  /** Three steps take a read to the loop. */
  lemma Enters(s: Pipe, h: nat, n: nat)
    requires s.sem == 1 && h !in s.shut && s.rpos < s.wpos && |s.buf| > 0
    ensures var c, s1 := |s.calls|, Moved(s, Begin(h, Read(n)));
      && |s1.calls| == c + 1
      && var s2 := StepCall(s1, c, true);
      && |s2.calls| == c + 1 && s2.calls[c].pc == Wait && |s2.buf| == |s.buf|
      && var s3 := StepCall(s2, c, true);
      && |s3.calls| == c + 1 && s3.calls[c].pc == Check && |s3.buf| == |s.buf|
      && var s4 := StepCall(s3, c, true);
      && s4 == s.(sem := 0, calls := s.calls + [Call(h, Read(n), Loop, true, 0, [], 0, false)]) && Queue(s4) == Queue(s)
  {
    var c, s1, k := |s.calls|, Moved(s, Begin(h, Read(n))), Call(h, Read(n), Enter, false, 0, [], 0, false);
    assert s1 == s.(calls := s.calls + [k]);
    var s2 := StepCall(s1, c, true);
    assert s2 == s.(calls := s.calls + [k.(pc := Wait)]);
    var s3 := StepCall(s2, c, true);
    assert s3 == s.(sem := 0, calls := s.calls + [k.(pc := Check, holds := true)]);
  }

  /** k steps of call c with nobody else moving. */
  function Alone(s: Pipe, c: nat, k: nat): (s': Pipe)
    requires |s.buf| > 0
    ensures |s'.buf| == |s.buf|
    decreases k
  {
    if k == 0 then s else Alone(Moved(s, Step(c, true)), c, k - 1)
  }

  function Least(a: nat, b: nat): nat { if a < b then a else b }

  lemma TakeMore(q: seq<int>, q': seq<int>, n: nat)
    requires q != [] && q == [q[0]] + q' && n > 0
    ensures q[..Least(n, |q|)] == [q[0]] + q'[..Least(n - 1, |q'|)]
  {}

  /** The first byte of the queue goes to the read. */
  lemma TakeOne(s: Pipe, c: nat)
    requires Inv(s) && c < |s.calls| && s.calls[c].pc == Loop && s.calls[c].op.Read?
    requires s.calls[c].count < s.calls[c].op.n && s.rpos != s.wpos
    ensures var s', k := StepCall(s, c, true), s.calls[c];
      && Inv(s') && s'.sem == s.sem && s'.wpos == s.wpos && s'.rpos == s.rpos + 1 <= s.wpos && |s'.calls| == |s.calls|
      && s'.calls[c] == k.(count := k.count + 1, out := k.out + [Queue(s)[0]])
      && Queue(s) == [Queue(s)[0]] + Queue(s')
  {
    StepKeeps(s, c, true);
    hide Mutex, Shutting, CallsOk;
    var s' := StepCall(s, c, true);
    var q, q' := Queue(s), Queue(s');
    forall i | 0 <= i < |q'| ensures q'[i] == q[i + 1] { assert s.rpos + (i + 1) == s'.rpos + i; }
  }

  lemma {:induction false} LoopToEnd(s: Pipe, c: nat) returns (k: nat)
    requires Inv(s) && c < |s.calls| && s.calls[c].pc == Loop && s.calls[c].op.Read?
    requires s.calls[c].count <= s.calls[c].op.n && s.sem == 0
    ensures var s' := Alone(s, c, k); var q := s.calls[c];
      && c < |s'.calls| && s'.calls[c].pc == Done && s'.sem == 1
      && s'.calls[c].out == q.out + Queue(s)[..Least(q.op.n - q.count, s.wpos - s.rpos)]
    decreases s.wpos - s.rpos
  {
    hide *;
    Bounds(s);
    var q := s.calls[c];
    if q.count < q.op.n && s.rpos != s.wpos {
      var s1 := StepCall(s, c, true);
      TakeOne(s, c);
      k := LoopToEnd(s1, c);
      AloneOne(s, c, k);
      Bounds(s1);
      TakeMore(Queue(s), Queue(s1), q.op.n - q.count);
      k := k + 1;
    } else {
      LastSteps(s, c);
      k := 2;
    }
  }

  lemma Bounds(s: Pipe)
    requires Inv(s)
    ensures s.rpos <= s.wpos && |s.buf| > 0 && |Queue(s)| == s.wpos - s.rpos
  {}

  lemma LastSteps(s: Pipe, c: nat)
    requires s.rpos <= s.wpos && |s.buf| > 0 && c < |s.calls| && s.calls[c].pc == Loop && s.calls[c].op.Read?
    requires s.sem == 0
    requires s.calls[c].count == s.calls[c].op.n || (s.calls[c].count < s.calls[c].op.n && s.rpos == s.wpos)
    ensures var s' := Alone(s, c, 2); var q := s.calls[c];
      && |s'.calls| == |s.calls| && s'.calls[c].pc == Done && s'.sem == 1
      && s'.calls[c].out == q.out + Queue(s)[..Least(q.op.n - q.count, s.wpos - s.rpos)]
  {
    var q := s.calls[c];
    var s1 := StepCall(s, c, true);
    assert s1 == With(s, c, q.(pc := Leave));
    var s2 := StepCall(s1, c, true);
    assert s2 == With(s1, c, q.(pc := Done, holds := false)).(sem := 1);
    hide StepCall, Alone;
    AloneOne(s1, c, 0);
    AloneOne(s1, c, 1);
    AloneOne(s2, c, 0);
    AloneOne(s, c, 1);
    assert Queue(s)[..0] == [];
  }

  lemma AloneOne(s: Pipe, c: nat, k: nat)
    requires |s.buf| > 0 && c < |s.calls|
    ensures Alone(s, c, k + 1) == Alone(StepCall(s, c, true), c, k) && Alone(s, c, 0) == s
  {}

  /** How many calls hold the semaphore, and how many have given it back without having got it. */
  function Holding(calls: seq<Call>): nat {
    if calls == [] then 0 else Holding(calls[..|calls| - 1]) + if calls[|calls| - 1].holds then 1 else 0
  }

  predicate GaveFreely(k: Call) { k.pc == Done && k.failed && (k.op.Close? || k.op.IsClosed?) }

  function Freely(calls: seq<Call>): nat {
    if calls == [] then 0 else Freely(calls[..|calls| - 1]) + if GaveFreely(calls[|calls| - 1]) then 1 else 0
  }

  lemma {:induction false} Recount(calls: seq<Call>, c: nat, k: Call)
    requires c < |calls|
    ensures Holding(calls[c := k]) - Holding(calls) == (if k.holds then 1 else 0) - (if calls[c].holds then 1 else 0)
    ensures Freely(calls[c := k]) - Freely(calls)
      == (if GaveFreely(k) then 1 else 0) - (if GaveFreely(calls[c]) then 1 else 0)
  {
    var n := |calls| - 1;
    if c == n {
      assert calls[c := k][..n] == calls[..n];
    } else {
      Recount(calls[..n], c, k);
      assert calls[c := k][..n] == calls[..n][c := k];
    }
  }

  /** What is true of a call in every run, failed waits included. */
  ghost predicate Tidy(k: Call) {
    && (k.holds ==> Inside(k.pc)) && (Inside(k.pc) && !k.holds ==> k.failed && (k.op.Close? || k.op.IsClosed?))
    && (k.pc == Loop || k.pc == Yield ==> k.op.Read? || k.op.Write?)
    && (k.failed && k.holds ==> false)
    && (k.failed && !Inside(k.pc) ==> k.pc == Done)
  }

  ghost predicate Balance(s: Pipe) {
    && s.sem + Holding(s.calls) == 1 + Freely(s.calls)
    && forall c :: 0 <= c < |s.calls| ==> Tidy(s.calls[c])
  }

  /** In every run, with or without failed waits, the semaphore and the calls holding it add up to one exactly
      when no spipeclose or spipeisclosed has come back after a failed sem_wait. */
  lemma {:induction false} Balanced(size: nat, moves: seq<Move>)
    requires size > 0
    ensures var s := Run(size, moves);
      && s.sem + Holding(s.calls) == 1 + Freely(s.calls)
      && (s.sem + Holding(s.calls) == 1 <==> forall c: nat :: c < |s.calls| ==> !GaveFreely(s.calls[c]))
    ensures Balance(Run(size, moves))
  {
    if moves != [] {
      Balanced(size, moves[..|moves| - 1]);
      BalanceKept(Run(size, moves[..|moves| - 1]), moves[|moves| - 1]);
    }
    NoneFreely(Run(size, moves).calls);
  }

  lemma TidyStep(s: Pipe, c: nat, ok: bool)
    requires c < |s.calls| && |s.buf| > 0 && Tidy(s.calls[c])
    ensures var s', k := StepCall(s, c, ok), s.calls[c];
      && |s'.calls| == |s.calls| && s'.calls == s.calls[c := s'.calls[c]] && Tidy(s'.calls[c])
      && s'.sem - s.sem == (if k.holds then 1 else 0) - (if s'.calls[c].holds then 1 else 0)
                           + (if GaveFreely(s'.calls[c]) then 1 else 0) - (if GaveFreely(k) then 1 else 0)
  {
    if s.calls[c].pc == Check || s.calls[c].pc == Loop { WorkKeeps(s, c); }
    hide CheckStep, LoopStep;
  }

  lemma WorkKeeps(s: Pipe, c: nat)
    requires c < |s.calls| && |s.buf| > 0 && Tidy(s.calls[c])
    ensures s.calls[c].pc == Check ==> var s' := CheckStep(s, c);
      && |s'.calls| == |s.calls| && s'.calls == s.calls[c := s'.calls[c]] && Tidy(s'.calls[c]) && s'.sem == s.sem
      && s'.calls[c].holds == s.calls[c].holds && s'.calls[c].pc != Done
    ensures s.calls[c].pc == Loop ==> var s' := LoopStep(s, c);
      && |s'.calls| == |s.calls| && s'.calls == s.calls[c := s'.calls[c]] && Tidy(s'.calls[c]) && s'.sem == s.sem
      && s'.calls[c].holds == s.calls[c].holds && s'.calls[c].pc != Done
  {}

  lemma BalanceKept(s: Pipe, m: Move)
    requires Balance(s) && |s.buf| > 0
    ensures Balance(Moved(s, m))
  {
    var s' := Moved(s, m);
    match m
    case Begin(h, op) => assert s'.calls[..|s.calls|] == s.calls;
    case Step(c, ok) =>
      if c < |s.calls| {
        hide StepCall, Tidy, GaveFreely, Holding, Freely;
        TidyStep(s, c, ok);
        Recount(s.calls, c, s'.calls[c]);
      }
  }

  lemma {:induction false} NoneFreely(calls: seq<Call>)
    ensures Freely(calls) == 0 <==> forall c: nat :: c < |calls| ==> !GaveFreely(calls[c])
  {
    if calls != [] {
      var n := |calls| - 1;
      NoneFreely(calls[..n]);
      if forall c: nat :: c < |calls| ==> !GaveFreely(calls[c]) {
        forall c: nat | c < n ensures !GaveFreely(calls[..n][c]) { assert !GaveFreely(calls[c]); }
      }
    }
  }

  /** Why the failed waits matter: a spipeclose whose sem_wait fails closes the pipe while a write is inside, and
      the write then adds a byte to the closed pipe. */
  lemma UnnoticedBreaksClose()
    ensures exists moves: seq<Move>, more: seq<Move> ::
      Run(1, moves).closed && |Run(1, moves + more).accepted| > |Run(1, moves).accepted|
  {
    var w, c := Call(0, Write([7]), Loop, true, 0, [], 0, false), Call(1, Close, Check, false, 0, [], 0, true);
    var m0 := [];
    var m1 := m0 + [Begin(0, Write([7]))];
    var m2 := m1 + [Step(0, true)];
    var m3 := m2 + [Step(0, true)];
    var m4 := m3 + [Step(0, true)];
    var m5 := m4 + [Begin(1, Close)];
    var m6 := m5 + [Step(1, true)];
    var m7 := m6 + [Step(1, false)];
    var m8 := m7 + [Step(1, true)];
    var m9 := m8 + [Step(0, true)];
    OneMore(m0, Begin(0, Write([7])));
    OneMore(m1, Step(0, true));
    OneMore(m2, Step(0, true));
    OneMore(m3, Step(0, true));
    assert Run(1, m4).calls == [w] && Run(1, m4).accepted == [];
    OneMore(m4, Begin(1, Close));
    OneMore(m5, Step(1, true));
    OneMore(m6, Step(1, false));
    assert Run(1, m7).calls == [w, c] && Run(1, m7).accepted == [];
    OneMore(m7, Step(1, true));
    OneMore(m8, Step(0, true));
    assert m9 == m8 + [Step(0, true)];
    assert Run(1, m8).closed && |Run(1, m9).accepted| == 1;
  }

  lemma OneMore(moves: seq<Move>, m: Move)
    ensures Run(1, moves + [m]) == Moved(Run(1, moves), m)
  {
    assert (moves + [m])[..|moves|] == moves;
  }
}
