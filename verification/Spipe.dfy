/** The shared-memory pipe of spipe.c: any number of calls in progress, through any number of handles, on one
    pipe. A step is one access to a semaphore, or one piece of work between two such accesses. */
module Spipe {
  import opened Common

  datatype Op = Read(n: nat) | Write(data: seq<int>) | Close | IsClosed

  datatype Pc = Enter | Wait | Check | Loop | Yield | Leave | Done

  /** A call in progress or finished, on handle h: bytes moved so far, bytes read so far, return code of the
      two calls that move no bytes, and whether a sem_wait has failed. */
  datatype Call = Call(h: nat, op: Op, pc: Pc, holds: bool, count: nat, out: seq<int>, code: int, failed: bool)

  /** One byte that went in or out, and the call that moved it. */
  datatype Entry = Entry(call: nat, byte: int)

  /** `shut` are the handles whose own flag is set, `closed` is the flag in the shared state. Histories:
      `accepted` and `delivered` are all bytes written and read, `byClose` the handles closed by spipeclose. */
  datatype Pipe = Pipe(sem: nat, shut: set<nat>, closed: bool, rpos: nat, wpos: nat, buf: seq<int>,
                       calls: seq<Call>, accepted: seq<Entry>, delivered: seq<Entry>, byClose: set<nat>)

  function Start(size: nat): Pipe {
    Pipe(1, {}, false, 0, 0, seq(size, _ => 0), [], [], [], {})
  }

  /** __spipeclose_nolock */
  function CloseNoLock(s: Pipe, h: nat): (Pipe, int) {
    if h !in s.shut then (s.(shut := s.shut + {h}, closed := true), 0) else (s, -1)
  }

  /** __spipeisclosed_nolock */
  function IsClosedNoLock(s: Pipe, h: nat, read: bool): (Pipe, bool) {
    if h in s.shut then (s, true)
    else if !s.closed then (s, false)
    else if s.rpos < s.wpos then (s, !read)
    else (CloseNoLock(s, h).0, true)
  }

  function With(s: Pipe, c: nat, k: Call): Pipe
    requires c < |s.calls|
  {
    s.(calls := s.calls[c := k])
  }

  function CheckStep(s: Pipe, c: nat): Pipe
    requires c < |s.calls|
  {
    var k := s.calls[c];
    match k.op
    case Read(n) =>
      var (s1, closed) := IsClosedNoLock(s, k.h, true);
      With(s1, c, k.(pc := if closed then Leave else if s.rpos == s.wpos then Yield else Loop))
    case Write(data) =>
      var (s1, closed) := IsClosedNoLock(s, k.h, false);
      With(s1, c, k.(pc := if closed then Leave else Loop))
    case Close =>
      var (s1, code) := CloseNoLock(s, k.h);
      With(s1, c, k.(pc := Leave, code := code)).(byClose := if code == 0 then s.byClose + {k.h} else s.byClose)
    case IsClosed =>
      var (s1, closed) := IsClosedNoLock(s, k.h, false);
      With(s1, c, k.(pc := Leave, code := if closed then 1 else 0))
  }

  function LoopStep(s: Pipe, c: nat): Pipe
    requires c < |s.calls| && |s.buf| > 0
  {
    var k := s.calls[c];
    match k.op
    case Read(n) =>
      if k.count < n && s.rpos != s.wpos then
        var b := s.buf[s.rpos % |s.buf|];
        With(s, c, k.(count := k.count + 1, out := k.out + [b])).(rpos := s.rpos + 1,
          delivered := s.delivered + [Entry(c, b)])
      else With(s, c, k.(pc := Leave))
    case Write(data) =>
      if k.count < |data| then
        if s.wpos - s.rpos >= |s.buf| then With(s, c, k.(pc := Yield))
        else
          With(s, c, k.(count := k.count + 1)).(
            buf := s.buf[s.wpos % |s.buf| := data[k.count]], wpos := s.wpos + 1,
            accepted := s.accepted + [Entry(c, data[k.count])])
      else With(s, c, k.(pc := Leave))
    case _ => s
  }

  /** Coming and going: the test of the handle, sem_wait and sem_post. spipeclose and spipeisclosed do not look at the
      result of sem_wait. */
  function GateStep(s: Pipe, c: nat, ok: bool): Pipe
    requires c < |s.calls|
  {
    var k := s.calls[c];
    match k.pc
    case Enter =>
      if k.h in s.shut then With(s, c,
        k.(pc := Done, code := match k.op case Close => -1 case IsClosed => 1 case _ => 0))
      else With(s, c, k.(pc := Wait))
    case Wait =>
      if ok then (if s.sem == 0 then s else With(s, c, k.(pc := Check, holds := true)).(sem := s.sem - 1))
      else if k.op.Read? || k.op.Write? then With(s, c, k.(pc := Done, failed := true))
      else With(s, c, k.(pc := Check, failed := true))
    case Yield => With(s, c, k.(pc := Enter, holds := false)).(sem := s.sem + 1)
    case Leave => With(s, c, k.(pc := Done, holds := false)).(sem := s.sem + 1)
    case _ => s
  }

  /** What a call does next; `ok` says whether a sem_wait made now succeeds. */
  function StepCall(s: Pipe, c: nat, ok: bool): Pipe
    requires c < |s.calls| && |s.buf| > 0
  {
    match s.calls[c].pc
    case Check => CheckStep(s, c)
    case Loop => LoopStep(s, c)
    case _ => GateStep(s, c, ok)
  }

  datatype Move = Begin(h: nat, op: Op) | Step(c: nat, ok: bool)

  function Moved(s: Pipe, m: Move): (s': Pipe)
    requires |s.buf| > 0
    ensures |s'.buf| == |s.buf|
  {
    match m
    case Begin(h, op) => s.(calls := s.calls + [Call(h, op, Enter, false, 0, [], 0, false)])
    case Step(c, ok) => if c < |s.calls| then StepCall(s, c, ok) else s
  }

  /** A failed sem_wait that is not noticed. */
  predicate Unnoticed(s: Pipe, m: Move) {
    m.Step? && !m.ok && m.c < |s.calls| && s.calls[m.c].pc == Wait
      && (s.calls[m.c].op.Close? || s.calls[m.c].op.IsClosed?)
  }

  function Run(size: nat, moves: seq<Move>): (s: Pipe)
    requires size > 0
    ensures |s.buf| == size
  {
    if moves == [] then Start(size) else Moved(Run(size, moves[..|moves| - 1]), moves[|moves| - 1])
  }

  /** No failed sem_wait goes unnoticed. */
  ghost predicate Noticed(size: nat, moves: seq<Move>)
    requires size > 0
  {
    moves == [] || (Noticed(size, moves[..|moves| - 1])
      && !Unnoticed(Run(size, moves[..|moves| - 1]), moves[|moves| - 1]))
  }

  /** The bytes that call c moved, in order. */
  function Of(es: seq<Entry>, c: nat): seq<int> {
    if es == [] then []
    else Of(es[..|es| - 1], c) + if es[|es| - 1].call == c then [es[|es| - 1].byte] else []
  }

  predicate Inside(pc: Pc) { pc in {Check, Loop, Yield, Leave} }

  /** At most one call is inside, and the semaphore is 1 exactly when none is. */
  ghost predicate Mutex(s: Pipe) {
    && s.sem <= 1
    && (forall c: nat {:trigger s.calls[c].holds} :: c < |s.calls| ==>
         (s.calls[c].holds <==> Inside(s.calls[c].pc)) && (s.calls[c].holds ==> s.sem == 0))
    && (forall c: nat, d: nat :: c < |s.calls| && d < |s.calls| && s.calls[c].holds && s.calls[d].holds ==> c == d)
    && (s.sem == 0 ==> exists c: nat :: c < |s.calls| && s.calls[c].holds)
  }

  /** The ring buffer holds the bytes accepted and not yet delivered. */
  ghost predicate Ring(s: Pipe) {
    && 0 <= s.wpos - s.rpos <= |s.buf| && |s.buf| > 0 && |s.accepted| == s.wpos && |s.delivered| == s.rpos
    && (forall i :: 0 <= i < s.rpos ==> s.delivered[i].byte == s.accepted[i].byte)
    && (forall i :: s.rpos <= i < s.wpos ==> s.buf[i % |s.buf|] == s.accepted[i].byte)
  }

  /** A handle is closed only after the pipe is, and by spipeclose or with nothing left to read. */
  ghost predicate Shutting(s: Pipe) {
    (forall h :: h in s.shut ==> s.closed && (s.rpos == s.wpos || h in s.byClose)) && (s.closed ==> s.shut != {})
  }

  /** What a call has done: `wrote` and `took` are the bytes it moved. A read returns nothing, and a write less
      than asked for, only when the handle or the pipe was closed, or a sem_wait failed. */
  ghost predicate CallOk(k: Call, shut: set<nat>, closed: bool, drained: bool, wrote: seq<int>, took: seq<int>) {
    match k.op
    case Read(n) =>
      && k.count <= n && |k.out| == k.count && wrote == [] && took == k.out
      && (k.pc in {Enter, Wait, Check, Yield} ==> k.count == 0)
      && (k.pc == Loop ==> k.h !in shut && (k.count == 0 ==> !drained))
      && (k.pc in {Leave, Done} && k.count == 0 && n > 0 && !k.failed ==> k.h in shut)
    case Write(data) =>
      && k.count <= |data| && wrote == data[..k.count] && took == []
      && (k.pc == Loop ==> k.h !in shut && !closed)
      && (k.pc in {Leave, Done} && k.count < |data| && !k.failed ==> closed)
    case Close => wrote == [] && took == [] && k.pc !in {Loop, Yield} && (k.pc in {Leave, Done} ==> k.h in shut)
    case IsClosed =>
      && wrote == [] && took == [] && k.pc !in {Loop, Yield}
      && (k.pc in {Leave, Done} ==> (k.code == 1 || k.code == 0) && (k.code == 1 ==> closed))
  }

  ghost predicate CallsOk(s: Pipe) {
    forall c: nat :: CallAt(s, c)
  }

  ghost predicate CallAt(s: Pipe, c: nat) {
    if c < |s.calls| then
      CallOk(s.calls[c], s.shut, s.closed, s.rpos == s.wpos, Of(s.accepted, c), Of(s.delivered, c))
    else Of(s.accepted, c) == [] && Of(s.delivered, c) == []
  }

  ghost predicate Inv(s: Pipe) { Mutex(s) && Ring(s) && Shutting(s) && CallsOk(s) }

  /** Work inside or outside, taking the semaphore, giving it back. */
  lemma MutexChange(s: Pipe, s': Pipe, c: nat, k: Call)
    requires Mutex(s) && c < |s.calls| && s'.calls == s.calls[c := k] && (k.holds <==> Inside(k.pc))
    requires
      || (s'.sem == s.sem && k.holds == s.calls[c].holds)
      || (s.sem == s'.sem + 1 && k.holds && !s.calls[c].holds)
      || (s'.sem == s.sem + 1 && !k.holds && s.calls[c].holds)
    ensures Mutex(s')
  {
    hide Inside;
    assert s.calls[c].holds ==> s.sem == 0;
    if s'.sem == 0 {
      if s.sem == 0 {
        var d: nat :| d < |s.calls| && s.calls[d].holds;
        assert s'.calls[d].holds;
      } else {
        assert s'.calls[c].holds;
      }
    }
  }

  /** Only its own call is touched by a step inside, and it stays inside. */
  ghost predicate Shaped(s: Pipe, s': Pipe, c: nat) {
    && c < |s.calls| && s'.sem == s.sem && |s'.calls| == |s.calls| && s'.calls == s.calls[c := s'.calls[c]]
    && s'.calls[c].holds == s.calls[c].holds
    && (s'.calls[c].pc == s.calls[c].pc || Inside(s'.calls[c].pc))
  }

  lemma CheckShape(s: Pipe, c: nat)
    requires c < |s.calls|
    ensures Shaped(s, CheckStep(s, c), c) && Inside(CheckStep(s, c).calls[c].pc)
  {}

  lemma LoopShape(s: Pipe, c: nat)
    requires c < |s.calls| && |s.buf| > 0
    ensures Shaped(s, LoopStep(s, c), c)
  {}

  /** What a step does to the semaphore and to its own call. */
  lemma StepShape(s: Pipe, c: nat, ok: bool)
    requires c < |s.calls| && |s.buf| > 0 && !Unnoticed(s, Step(c, ok)) && (s.calls[c].holds <==> Inside(s.calls[c].pc))
    ensures var s', k := StepCall(s, c, ok), s.calls[c];
      && |s'.calls| == |s.calls| && s'.calls == s.calls[c := s'.calls[c]]
      && (s'.calls[c].holds <==> Inside(s'.calls[c].pc))
      && (|| (s'.sem == s.sem && s'.calls[c].holds == k.holds)
          || (s.sem == s'.sem + 1 && s'.calls[c].holds && !k.holds)
          || (s'.sem == s.sem + 1 && !s'.calls[c].holds && k.holds))
  {
    CheckShape(s, c);
    LoopShape(s, c);
    if s.calls[c].pc !in {Check, Loop} { GateShape(s, c, ok); }
    hide CheckStep, LoopStep, GateStep, Unnoticed;
  }

  lemma GateShape(s: Pipe, c: nat, ok: bool)
    requires c < |s.calls| && !Unnoticed(s, Step(c, ok)) && (s.calls[c].holds <==> Inside(s.calls[c].pc))
    requires s.calls[c].pc !in {Check, Loop}
    ensures var s', k := GateStep(s, c, ok), s.calls[c];
      && |s'.calls| == |s.calls| && s'.calls == s.calls[c := s'.calls[c]]
      && (s'.calls[c].holds <==> Inside(s'.calls[c].pc))
      && (|| (s'.sem == s.sem && s'.calls[c].holds == k.holds)
          || (s.sem == s'.sem + 1 && s'.calls[c].holds && !k.holds)
          || (s'.sem == s.sem + 1 && !s'.calls[c].holds && k.holds))
  {}

  lemma MutexKept(s: Pipe, c: nat, ok: bool)
    requires Mutex(s) && c < |s.calls| && |s.buf| > 0 && !Unnoticed(s, Step(c, ok))
    ensures Mutex(StepCall(s, c, ok))
  {
    assert s.calls[c].holds <==> Inside(s.calls[c].pc);
    hide Mutex, StepCall, Inside, Unnoticed;
    StepShape(s, c, ok);
    MutexChange(s, StepCall(s, c, ok), c, StepCall(s, c, ok).calls[c]);
  }

  lemma ModApart(i: nat, j: nat, b: nat)
    requires 0 < b && i < j < i + b
    ensures i % b != j % b
  {
    if i % b == j % b {
      assert i == b * (i / b) + i % b && j == b * (j / b) + j % b;
      assert j - i == b * (j / b - i / b);
      if j / b - i / b >= 1 {
        Scale(b, j / b - i / b);
      } else {
        Scale(b, i / b - j / b + 1);
      }
    }
  }

  /** One byte put in, one byte taken out. */
  lemma RingKept(s: Pipe, c: nat)
    requires Ring(s) && c < |s.calls|
    ensures Ring(LoopStep(s, c))
  {
    var s', n := LoopStep(s, c), |s.buf|;
    forall i | s'.rpos <= i < s'.wpos ensures s'.buf[i % n] == s'.accepted[i].byte {
      if s'.wpos == s.wpos + 1 && i < s.wpos { ModApart(i, s.wpos, n); }
    }
  }

  /** Others see the flags rise and the positions move only while they are not in the loop. */
  lemma CallLater(k: Call, shut: set<nat>, shut': set<nat>, closed: bool, closed': bool, drained: bool, drained': bool,
                  wrote: seq<int>, took: seq<int>)
    requires CallOk(k, shut, closed, drained, wrote, took) && shut <= shut' && (closed ==> closed')
    requires k.pc == Loop ==> shut == shut' && closed == closed' && drained == drained'
    ensures CallOk(k, shut', closed', drained', wrote, took)
  {}

  /** A step in which the other calls see no more than CallLater allows. */
  lemma OthersKept(s: Pipe, s': Pipe, c: nat, k: Call)
    requires CallsOk(s) && c < |s.calls| && s'.calls == s.calls[c := k] && s.shut <= s'.shut && (s.closed ==> s'.closed)
    requires forall d: nat :: d < |s.calls| && d != c && s.calls[d].pc == Loop ==>
      s'.shut == s.shut && s'.closed == s.closed && s'.rpos == s.rpos && s'.wpos == s.wpos
    requires forall d: nat :: d != c ==>
      Of(s'.accepted, d) == Of(s.accepted, d) && Of(s'.delivered, d) == Of(s.delivered, d)
    requires CallAt(s', c)
    ensures CallsOk(s')
  {
    hide CallOk, Of;
    forall d: nat ensures CallAt(s', d) {
      assert CallAt(s, d);
      if d < |s.calls| && d != c {
        CallLater(s.calls[d], s.shut, s'.shut, s.closed, s'.closed, s.rpos == s.wpos, s'.rpos == s'.wpos,
          Of(s.accepted, d), Of(s.delivered, d));
      }
    }
  }

  /** While a call is inside no other call is in the loop. */
  lemma AloneInside(s: Pipe, c: nat, d: nat)
    requires Mutex(s) && c < |s.calls| && d < |s.calls| && c != d && Inside(s.calls[c].pc)
    ensures s.calls[d].pc != Loop
  {
    assert s.calls[c].holds <==> Inside(s.calls[c].pc);
    assert s.calls[d].holds <==> Inside(s.calls[d].pc);
  }

  lemma OfMore(es: seq<Entry>, e: Entry)
    ensures Of(es + [e], e.call) == Of(es, e.call) + [e.byte]
    ensures forall d: nat :: d != e.call ==> Of(es + [e], d) == Of(es, d)
  {
    assert (es + [e])[..|es|] == es;
  }

  lemma CheckOwn(s: Pipe, c: nat)
    requires Shutting(s) && s.rpos <= s.wpos && c < |s.calls| && s.calls[c].pc == Check && CallAt(s, c)
    ensures var s' := CheckStep(s, c);
      && CallAt(s', c) && Shutting(s') && s.shut <= s'.shut && (s.closed ==> s'.closed)
      && s' == s.(calls := s'.calls, shut := s'.shut, closed := s'.closed, byClose := s'.byClose)
  {
    hide Of;
  }

  lemma CheckKept(s: Pipe, c: nat)
    requires Inv(s) && c < |s.calls| && s.calls[c].pc == Check
    ensures Ring(CheckStep(s, c)) && Shutting(CheckStep(s, c)) && CallsOk(CheckStep(s, c))
  {
    var s' := CheckStep(s, c);
    assert CallAt(s, c);
    forall d: nat | d < |s.calls| && d != c ensures s.calls[d].pc != Loop { AloneInside(s, c, d); }
    assert |s.buf| > 0;
    CheckShape(s, c);
    CheckOwn(s, c);
    hide Mutex, Of, CallsOk, CallOk, CallAt, CheckStep, Shutting;
    OthersKept(s, s', c, s'.calls[c]);
  }

  /** One byte more read, or none left. */
  lemma ReadStep(s: Pipe, c: nat)
    requires Ring(s) && Shutting(s) && c < |s.calls| && s.calls[c].pc == Loop && s.calls[c].op.Read? && CallAt(s, c)
    ensures var s' := LoopStep(s, c);
      && CallAt(s', c) && Shutting(s') && s'.shut == s.shut && s'.closed == s.closed && s'.accepted == s.accepted
      && forall d: nat :: d != c ==> Of(s'.delivered, d) == Of(s.delivered, d)
  {
    assert |s.buf| > 0 && s.rpos <= s.wpos;
    hide Ring;
    var k := s.calls[c];
    assert Shutting(LoopStep(s, c)) by { hide Of, CallAt; }
    hide Shutting;
    if k.count < k.op.n && s.rpos != s.wpos {
      OfMore(s.delivered, Entry(c, s.buf[s.rpos % |s.buf|]));
      hide Of;
    } else {
      hide Of;
    }
  }

  /** One byte more written, or the ring is full, or all is written. */
  lemma WriteStep(s: Pipe, c: nat)
    requires Ring(s) && Shutting(s) && c < |s.calls| && s.calls[c].pc == Loop && s.calls[c].op.Write? && CallAt(s, c)
    ensures var s' := LoopStep(s, c);
      && CallAt(s', c) && Shutting(s') && s'.shut == s.shut && s'.closed == s.closed && s'.delivered == s.delivered
      && forall d: nat :: d != c ==> Of(s'.accepted, d) == Of(s.accepted, d)
  {
    assert |s.buf| > 0;
    hide Ring;
    var k := s.calls[c];
    assert Shutting(LoopStep(s, c)) by { hide Of; }
    hide Shutting;
    if k.count < |k.op.data| {
      OfMore(s.accepted, Entry(c, k.op.data[k.count]));
      hide Of;
      assert k.op.data[..k.count + 1] == k.op.data[..k.count] + [k.op.data[k.count]];
    } else {
      hide Of;
    }
  }

  lemma LoopKept(s: Pipe, c: nat)
    requires Inv(s) && c < |s.calls| && s.calls[c].pc == Loop
    ensures Ring(LoopStep(s, c)) && Shutting(LoopStep(s, c)) && CallsOk(LoopStep(s, c))
  {
    var s' := LoopStep(s, c);
    RingKept(s, c);
    assert CallAt(s, c);
    assert s.calls[c].op.Read? || s.calls[c].op.Write?;
    forall d: nat | d < |s.calls| && d != c ensures s.calls[d].pc != Loop { AloneInside(s, c, d); }
    LoopShape(s, c);
    hide Mutex, Of, CallsOk, CallOk, CallAt, LoopStep, Ring, Shutting;
    if s.calls[c].op.Read? { ReadStep(s, c); } else { WriteStep(s, c); }
    OthersKept(s, s', c, s'.calls[c]);
  }

  lemma OutsideStep(s: Pipe, c: nat, ok: bool)
    requires |s.buf| > 0 && c < |s.calls| && !Unnoticed(s, Step(c, ok)) && s.calls[c].pc !in {Check, Loop}
    requires CallAt(s, c) && Shutting(s)
    ensures var s' := StepCall(s, c, ok);
      && CallAt(s', c) && s' == s.(sem := s'.sem, calls := s'.calls)
      && |s'.calls| == |s.calls| && s'.calls == s.calls[c := s'.calls[c]]
  {
    hide Of, CheckStep, LoopStep;
  }

  lemma OutsideKept(s: Pipe, c: nat, ok: bool)
    requires Inv(s) && c < |s.calls| && !Unnoticed(s, Step(c, ok)) && s.calls[c].pc !in {Check, Loop}
    ensures Ring(StepCall(s, c, ok)) && Shutting(StepCall(s, c, ok)) && CallsOk(StepCall(s, c, ok))
  {
    var s' := StepCall(s, c, ok);
    assert CallAt(s, c);
    OutsideStep(s, c, ok);
    hide Mutex, Of, CallsOk, CallOk, CallAt, StepCall;
    OthersKept(s, s', c, s'.calls[c]);
  }

  lemma StepKeeps(s: Pipe, c: nat, ok: bool)
    requires Inv(s) && c < |s.calls| && !Unnoticed(s, Step(c, ok))
    ensures Inv(StepCall(s, c, ok))
  {
    assert |s.buf| > 0;
    hide Mutex, CallsOk, CheckStep, LoopStep, Ring, Shutting;
    MutexKept(s, c, ok);
    if s.calls[c].pc == Check {
      CheckKept(s, c);
    } else if s.calls[c].pc == Loop {
      LoopKept(s, c);
    } else {
      OutsideKept(s, c, ok);
    }
  }

  lemma BeginKeeps(s: Pipe, h: nat, op: Op)
    requires Inv(s)
    ensures Inv(Moved(s, Begin(h, op)))
  {
    var s' := Moved(s, Begin(h, op));
    assert Mutex(s') by {
      if s.sem == 0 {
        var d: nat :| d < |s.calls| && s.calls[d].holds;
        assert s'.calls[d].holds;
      }
    }
    hide Mutex, Of;
    forall d: nat ensures CallAt(s', d) { assert CallAt(s, d); }
  }

  lemma {:induction false} RunKeeps(size: nat, moves: seq<Move>)
    requires size > 0 && Noticed(size, moves)
    ensures Inv(Run(size, moves))
  {
    if moves != [] {
      var s, m := Run(size, moves[..|moves| - 1]), moves[|moves| - 1];
      RunKeeps(size, moves[..|moves| - 1]);
      hide Inv, StepCall;
      match m
      case Begin(h, op) => BeginKeeps(s, h, op);
      case Step(c, ok) => if c < |s.calls| { StepKeeps(s, c, ok); }
    }
  }
}
