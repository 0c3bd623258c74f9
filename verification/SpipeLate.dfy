/** Which bytes a closed pipe can still take in, in runs where waits may fail. */
module SpipeLate {
  import opened Spipe
  import opened SpipeFifo

  /** A call that is inside without holding the semaphore. */
  predicate Intruder(k: Call) { Inside(k.pc) && !k.holds }

  predicate IntruderAt(s: Pipe, d: nat) { d < |s.calls| && Intruder(s.calls[d]) }

  /** The semaphore has been given back once too often, or is about to be. */
  ghost predicate Loose(s: Pipe) { Freely(s.calls) > 0 || exists d: nat :: IntruderAt(s, d) }

  /** When a write is late on a closed pipe, the pipe was closed past the semaphore. */
  lemma {:induction false} LateIsLoose(size: nat, moves: seq<Move>, c: nat)
    requires size > 0 && Run(size, moves).closed && LateAt(Run(size, moves), c)
    ensures Loose(Run(size, moves))
  {
    var n := |moves| - 1;
    var s, m := Run(size, moves[..n]), moves[n];
    Balanced(size, moves[..n]);
    if s.closed {
      ClosedStep(s, m);
      LateIsLoose(size, moves[..n], c);
      LooseStays(s, m);
    } else {
      ClosingIsLoose(s, m, c);
    }
  }

  lemma LooseStays(s: Pipe, m: Move)
    requires Loose(s) && Balance(s) && |s.buf| > 0
    ensures Loose(Moved(s, m))
  {
    var s' := Moved(s, m);
    match m
    case Begin(_, _) =>
      assert s'.calls[..|s.calls|] == s.calls;
      if d: nat :| IntruderAt(s, d) { assert IntruderAt(s', d); }
    case Step(c, ok) =>
      if c < |s.calls| { LooseStep(s, c, ok); }
  }

  lemma LooseStep(s: Pipe, c: nat, ok: bool)
    requires Loose(s) && Balance(s) && |s.buf| > 0 && c < |s.calls|
    ensures Loose(StepCall(s, c, ok))
  {
    var s' := StepCall(s, c, ok);
    TidyStep(s, c, ok);
    GivenStays(s, c, ok);
    IntruderStays(s, c, ok);
    hide StepCall, Tidy, GaveFreely, Holding, Freely, Intruder;
    Recount(s.calls, c, s'.calls[c]);
    if Freely(s.calls) == 0 {
      var d: nat :| IntruderAt(s, d);
      assert d != c ==> IntruderAt(s', d);
      assert d == c ==> IntruderAt(s', c) || Freely(s'.calls) > 0;
    }
  }

  lemma GivenStays(s: Pipe, c: nat, ok: bool)
    requires c < |s.calls| && |s.buf| > 0
    ensures GaveFreely(s.calls[c]) ==> StepCall(s, c, ok) == s
  {}

  /** An intruder stays one until it gives back what it never took. */
  lemma IntruderStays(s: Pipe, c: nat, ok: bool)
    requires c < |s.calls| && |s.buf| > 0 && Tidy(s.calls[c])
    ensures var s' := StepCall(s, c, ok);
      |s'.calls| == |s.calls| && (Intruder(s.calls[c]) ==> Intruder(s'.calls[c]) || GaveFreely(s'.calls[c]))
  {}

  /** The step that closes the pipe while a write is late. */
  lemma ClosingIsLoose(s: Pipe, m: Move, c: nat)
    requires Balance(s) && |s.buf| > 0 && !s.closed && Moved(s, m).closed && LateAt(Moved(s, m), c)
    ensures Loose(Moved(s, m))
  {
    var s' := Moved(s, m);
    assert m.Step? && m.c < |s.calls|;
    var d := m.c;
    Closer(s, d, m.ok);
    assert c != d && s'.calls[c] == s.calls[c];
    assert Tidy(s.calls[c]) && Tidy(s.calls[d]);
    if s.calls[d].holds {
      HoldTwo(s.calls, c, d);
      hide StepCall, Tidy, Holding, Freely;
      Recount(s.calls, d, s'.calls[d]);
    } else {
      assert IntruderAt(s', d);
    }
  }

  /** Only the work of spipeclose closes an open pipe. */
  lemma Closer(s: Pipe, d: nat, ok: bool)
    requires d < |s.calls| && |s.buf| > 0 && !s.closed && StepCall(s, d, ok).closed
    ensures var s' := StepCall(s, d, ok);
      && s.calls[d].pc == Check && s'.calls == s.calls[d := s'.calls[d]] && s'.calls[d].pc == Leave
      && s'.calls[d].holds == s.calls[d].holds && s'.calls[d].op == s.calls[d].op
  {}

  lemma {:induction false} HoldTwo(calls: seq<Call>, c: nat, d: nat)
    requires c < |calls| && d < |calls| && c != d && calls[c].holds && calls[d].holds
    ensures Holding(calls) >= 2
  {
    var k := calls[c].(holds := false);
    Recount(calls, c, k);
    Recount(calls[c := k], d, calls[d].(holds := false));
  }

  lemma {:induction false} AnotherHolds(calls: seq<Call>, c: nat) returns (d: nat)
    requires c < |calls| && Holding(calls) >= 2
    ensures d < |calls| && d != c && calls[d].holds
  {
    Recount(calls, c, calls[c].(holds := false));
    d := SomeHolds(calls[c := calls[c].(holds := false)]);
  }

  lemma {:induction false} SomeHolds(calls: seq<Call>) returns (d: nat)
    requires Holding(calls) > 0
    ensures d < |calls| && calls[d].holds
  {
    d := |calls| - 1;
    if !calls[d].holds { d := SomeHolds(calls[..d]); }
  }

  /** The state after more moves. */
  function After(s: Pipe, more: seq<Move>): Pipe
    requires |s.buf| > 0
    decreases |more|
  {
    if more == [] then s else After(Moved(s, more[0]), more[1..])
  }

  lemma {:induction false} AfterRun(size: nat, moves: seq<Move>, more: seq<Move>)
    requires size > 0
    ensures Run(size, moves + more) == After(Run(size, moves), more)
    decreases |more|
  {
    if more == [] {
      assert moves + more == moves;
    } else {
      var first := moves + [more[0]];
      assert first[..|moves|] == moves && first + more[1..] == moves + more;
      AfterRun(size, first, more[1..]);
    }
  }

  /** Some continuation leaves other bytes accepted than `a`. */
  ghost predicate Can(s: Pipe, a: seq<Entry>)
    requires |s.buf| > 0
  {
    exists more: seq<Move> :: After(s, more).accepted != a
  }

  lemma CanLater(s: Pipe, m: Move, a: seq<Entry>)
    requires |s.buf| > 0 && Can(Moved(s, m), a)
    ensures Can(s, a)
  {
    var more: seq<Move> :| After(Moved(s, m), more).accepted != a;
    assert ([m] + more)[1..] == more;
    assert After(s, [m] + more).accepted != a;
  }

  /** The ring is never emptier than empty or fuller than full, whatever the waits return. */
  ghost predicate Level(s: Pipe) { 0 <= s.wpos - s.rpos <= |s.buf| }

  lemma {:induction false} LevelKept(size: nat, moves: seq<Move>)
    requires size > 0
    ensures Level(Run(size, moves))
  {
    if moves != [] {
      var s, m := Run(size, moves[..|moves| - 1]), moves[|moves| - 1];
      LevelKept(size, moves[..|moves| - 1]);
      if m.Step? && m.c < |s.calls| { StepLevels(s, m.c, m.ok); }
    }
  }

  lemma StepLevels(s: Pipe, c: nat, ok: bool)
    requires Level(s) && c < |s.calls| && |s.buf| > 0
    ensures Level(StepCall(s, c, ok))
  {
    CheckLevels(s, c);
    LoopLevels(s, c);
    GateLevels(s, c, ok);
    hide CheckStep, LoopStep, GateStep, Level;
  }

  lemma GateLevels(s: Pipe, c: nat, ok: bool)
    requires Level(s) && c < |s.calls|
    ensures Level(GateStep(s, c, ok))
  {}

  lemma CheckLevels(s: Pipe, c: nat)
    requires Level(s) && c < |s.calls|
    ensures Level(CheckStep(s, c))
  {}

  lemma LoopLevels(s: Pipe, c: nat)
    requires Level(s) && c < |s.calls| && |s.buf| > 0
    ensures Level(LoopStep(s, c))
  {}

  /** A late write and a ring that is full. */
  ghost predicate Stuck(s: Pipe, c: nat) { s.closed && LateAt(s, c) && s.wpos - s.rpos == |s.buf| > 0 }

  lemma Takes(s: Pipe, c: nat)
    requires LateAt(s, c) && s.wpos - s.rpos < |s.buf| && |s.buf| > 0
    ensures Can(s, s.accepted)
  {
    var s' := Moved(s, Step(c, true));
    assert |s'.accepted| > |s.accepted|;
    assert After(s', []).accepted != s.accepted;
    CanLater(s, Step(c, true), s.accepted);
  }

  /** With the semaphore free, a read through a new handle makes room. */
  lemma Drains(s: Pipe, c: nat)
    requires Stuck(s, c) && s.sem > 0
    ensures Can(s, s.accepted)
  {
    var h := NewHandle(s.shut);
    var n := |s.calls|;
    var k := Call(h, Read(1), Enter, false, 0, [], 0, false);
    var s1 := Moved(s, Begin(h, Read(1)));
    assert s1 == s.(calls := s.calls + [k]);
    var s2 := Moved(s1, Step(n, true));
    assert s2 == s.(calls := s.calls + [k.(pc := Wait)]);
    var s3 := Moved(s2, Step(n, true));
    assert s3 == s.(calls := s.calls + [k.(pc := Check, holds := true)], sem := s.sem - 1);
    var s4 := Moved(s3, Step(n, true));
    assert s4 == s3.(calls := s.calls + [k.(pc := Loop, holds := true)]);
    var s5 := Moved(s4, Step(n, true));
    assert s5.rpos == s.rpos + 1 && s5.wpos == s.wpos && s5.accepted == s.accepted && |s5.buf| == |s.buf|;
    assert LateAt(s5, c);
    Takes(s5, c);
    hide *;
    CanLater(s4, Step(n, true), s.accepted);
    CanLater(s3, Step(n, true), s.accepted);
    CanLater(s2, Step(n, true), s.accepted);
    CanLater(s1, Step(n, true), s.accepted);
    CanLater(s, Begin(h, Read(1)), s.accepted);
  }

  /** A number that names no handle yet. */
  lemma {:induction false} NewHandle(hs: set<nat>) returns (h: nat)
    ensures forall x :: x in hs ==> x < h
    decreases |hs|
  {
    h := 0;
    if hs != {} {
      var x :| x in hs;
      h := NewHandle(hs - {x});
      assert forall y :: y in hs && y != x ==> y in hs - {x};
      if h <= x { h := x + 1; }
    }
  }

  /** How far a call is from giving the semaphore back. */
  function Rank(pc: Pc): nat { match pc case Check => 2 case Loop => 1 case _ => 0 }

  /** Another call that is inside makes room, or frees the semaphore. */
  lemma {:induction false} Frees(s: Pipe, c: nat, d: nat)
    requires Stuck(s, c) && d < |s.calls| && d != c && Inside(s.calls[d].pc) && Tidy(s.calls[d])
    ensures Can(s, s.accepted)
    decreases Rank(s.calls[d].pc)
  {
    var s' := Moved(s, Step(d, true));
    OneStep(s, c, d);
    if s'.wpos - s'.rpos < |s'.buf| {
      Takes(s', c);
    } else if s'.sem > 0 {
      Drains(s', c);
    } else {
      Frees(s', c, d);
    }
    CanLater(s, Step(d, true), s.accepted);
  }

  lemma OneStep(s: Pipe, c: nat, d: nat)
    requires Stuck(s, c) && d < |s.calls| && d != c && Inside(s.calls[d].pc) && Tidy(s.calls[d])
    ensures var s', k := Moved(s, Step(d, true)), s.calls[d];
      && LateAt(s', c) && s'.closed && s'.accepted == s.accepted && s'.wpos == s.wpos && s'.rpos >= s.rpos
      && (s'.wpos - s'.rpos < |s'.buf| || s'.sem > 0
          || (Inside(s'.calls[d].pc) && Tidy(s'.calls[d]) && Rank(s'.calls[d].pc) < Rank(k.pc)))
  {}

  /** A closed pipe can still take in a byte exactly when some write is past the test. */
  lemma TakesInExactly(size: nat, moves: seq<Move>)
    requires size > 0 && Run(size, moves).closed
    ensures (exists more: seq<Move> :: Run(size, moves + more).accepted != Run(size, moves).accepted)
      <==> exists c: nat :: LateAt(Run(size, moves), c)
  {
    var s := Run(size, moves);
    if c: nat :| LateAt(s, c) {
      LateTakes(size, moves, c);
      var more: seq<Move> :| After(s, more).accepted != s.accepted;
      AfterRun(size, moves, more);
    }
    if more: seq<Move> :| Run(size, moves + more).accepted != s.accepted {
      LateOnly(size, moves, more);
      var s' := Run(size, moves + more);
      assert |s'.accepted| > |s.accepted|;
      assert LateAt(s, s'.accepted[|s.accepted|].call);
    }
  }

  lemma LateTakes(size: nat, moves: seq<Move>, c: nat)
    requires size > 0 && Run(size, moves).closed && LateAt(Run(size, moves), c)
    ensures Can(Run(size, moves), Run(size, moves).accepted)
  {
    var s := Run(size, moves);
    LevelKept(size, moves);
    Balanced(size, moves);
    LateIsLoose(size, moves, c);
    assert Tidy(s.calls[c]);
    hide Can, Run, Holding, Freely;
    if s.wpos - s.rpos < size {
      Takes(s, c);
    } else if s.sem > 0 {
      Drains(s, c);
    } else if d: nat :| IntruderAt(s, d) {
      Frees(s, c, d);
    } else {
      var d := AnotherHolds(s.calls, c);
      Frees(s, c, d);
    }
  }
}
