/** The prime sieve of primer.c: one process per stage, one shared slot in front of each stage. Every
    access to a slot holds the slot's lock, so that a run is a sequence of atomic accesses, in any order. */
module Primer {
  import opened Sieve

  datatype Outcome = Again | Returned(code: int)

  /** One round of the loop in read. */
  function TryRead(note: seq<int>, k: nat): (seq<int>, Outcome)
    requires k < |note|
  {
    var ret := note[k];
    (if ret > 0 then note[k := 0] else note, if ret == 0 then Again else Returned(ret))
  }

  /** One round of the loop in write. */
  function TryWrite(note: seq<int>, k: nat, val: int, force: bool): (seq<int>, Outcome)
    requires k < |note|
  {
    var ret := note[k];
    (if ret >= 0 && (ret == 0 || force) then note[k := val] else note,
     if ret > 0 && !force then Again else Returned(if ret > 0 then 0 else ret))
  }

  /** Where a process is: about to read its first number, about to read the next, about to test it, about
      to pass it on, about to close its slot, finished. */
  datatype Pc = First | Next | Test(num: int) | Pass(num: int) | Out | Done

  /** `got` records all numbers the stage has taken from its slot. */
  datatype Stage = Stage(pc: Pc, prime: int, child: bool, got: seq<int>)

  /** `put[k]` records all numbers left in slot k by a write without force. */
  datatype System = System(note: seq<int>, stages: seq<Stage>, i: int, feeding: bool, put: seq<seq<int>>)

  /** Stage k is the parent of stage k + 1. */
  ghost predicate Shaped(s: System) {
    && 1 <= |s.stages| <= |s.note| == |s.put|
    && forall k :: 0 <= k < |s.stages| ==>
         (s.stages[k].child <==> k + 1 < |s.stages|) && (s.stages[k].pc.Pass? ==> s.stages[k].child)
  }

  /** After main has filled the slots with 0 and has forked the first stage. */
  function Start(total: nat): (s: System)
    requires total > 0
  {
    System(seq(total, _ => 0), [Stage(First, 0, false, [])], 2, true, seq(total, _ => []))
  }

  /** Who moves next, and whether a fork made now succeeds. */
  datatype Move = Feed | Step(k: nat, forks: bool)

  function Put(s: System, k: nat, val: int, r: (seq<int>, Outcome)): System
    requires k < |s.put|
  {
    s.(note := r.0, put := if r.1 == Returned(0) then s.put[k := s.put[k] + [val]] else s.put)
  }

  function FeedOne(s: System): System
    requires Shaped(s)
  {
    if !s.feeding then s
    else
      var r := TryWrite(s.note, 0, s.i, false);
      match r.1
      case Again => s
      case Returned(code) => if code == 0 then Put(s, 0, s.i, r).(i := s.i + 1) else s.(feeding := false)
  }

  function At(s: System, k: nat, t: Stage): System
    requires k < |s.stages|
  {
    s.(stages := s.stages[k := t])
  }

  /** One step of stage k. A round that finds the slot busy or empty changes nothing. */
  function StepOne(s: System, k: nat, forks: bool): (s': System)
    requires Shaped(s) && k < |s.stages|
    ensures Shaped(s') && |s'.note| == |s.note| && |s.stages| <= |s'.stages|
  {
    var t := s.stages[k];
    match t.pc
    case First =>
      var (note, r) := TryRead(s.note, k);
      (match r
       case Again => s
       case Returned(n) =>
         At(s, k, t.(pc := Next, prime := n, got := if n > 0 then t.got + [n] else t.got)).(note := note))
    case Next =>
      var (note, r) := TryRead(s.note, k);
      (match r
       case Again => s
       case Returned(n) =>
         if n > 0 then At(s, k, t.(pc := Test(n), got := t.got + [n])).(note := note) else At(s, k, t.(pc := Out)))
    case Test(num) =>
      if Divides(t.prime, num) then At(s, k, t.(pc := Next))
      else if t.child then At(s, k, t.(pc := Pass(num)))
      else if k + 1 == |s.note| || !forks then At(s, k, t.(pc := Out))
      else
        var s' := At(s, k, t.(pc := Pass(num), child := true));
        s'.(stages := s'.stages + [Stage(First, 0, false, [])])
    case Pass(num) =>
      var r := TryWrite(s.note, k + 1, num, false);
      (match r.1
       case Again => s
       case Returned(code) =>
         if code == 0 then At(Put(s, k + 1, num, r), k, t.(pc := Next)) else At(s, k, t.(pc := Out)))
    case Out => At(s, k, t.(pc := Done)).(note := TryWrite(s.note, k, -1, true).0)
    case Done => s
  }

  function Moved(s: System, m: Move): (s': System)
    requires Shaped(s)
    ensures Shaped(s') && |s'.note| == |s.note| && |s.stages| <= |s'.stages|
  {
    match m
    case Feed => FeedOne(s)
    case Step(k, forks) => if k < |s.stages| then StepOne(s, k, forks) else s
  }

  /** The state after a sequence of moves. */
  function Run(total: nat, moves: seq<Move>): (s: System)
    requires total > 0
    ensures Shaped(s) && |s.note| == total
  {
    if moves == [] then Start(total) else Moved(Run(total, moves[..|moves| - 1]), moves[|moves| - 1])
  }

  /** The numbers that stage k has passed on. */
  function Sent(s: System, k: nat): seq<int> {
    if k + 1 < |s.put| then s.put[k + 1] else []
  }

  /** What the slot in front of a stage holds against what was put there and what was taken out. A negative
      slot means that its stage has finished. */
  ghost predicate SlotOk(note: int, put: seq<int>, t: Stage) {
    if note >= 0 then put == t.got + (if note > 0 then [note] else [])
    else note == -1 && t.pc.Done? && t.got <= put
  }

  /** What a stage has passed on against what it has taken. */
  ghost predicate StageOk(t: Stage, sent: seq<int>) {
    match t.pc
    case First => t.got == [] && sent == []
    case Next => Started(t) && sent == Sieved(t.prime, t.got[1..])
    case Test(num) => Holds(t, sent, num)
    case Pass(num) => Holds(t, sent, num) && !Divides(t.prime, num)
    case Out => Started(t) && sent <= Sieved(t.prime, t.got[1..])
    case Done => Started(t) && sent <= Sieved(t.prime, t.got[1..])
  }

  ghost predicate Started(t: Stage) { t.got != [] && t.prime == t.got[0] && t.prime > 0 }

  /** All but the number just taken has been dealt with. */
  ghost predicate Holds(t: Stage, sent: seq<int>, num: int) {
    Started(t) && |t.got| > 1 && num == t.got[|t.got| - 1] && num > 0 && sent == Sieved(t.prime, t.got[1..|t.got| - 1])
  }

  ghost predicate CellOk(note: int, put: seq<int>, t: Stage, sent: seq<int>) {
    SlotOk(note, put, t) && StageOk(t, sent)
  }

  ghost predicate Inv(s: System) {
    && Shaped(s) && s.i >= 2 && s.put[0] == Upto(s.i - 1)
    && (forall k: nat {:trigger Sent(s, k)} :: k < |s.stages| ==> CellOk(s.note[k], s.put[k], s.stages[k], Sent(s, k)))
    && (forall k :: |s.stages| <= k < |s.note| ==> s.note[k] == 0 && s.put[k] == [])
    && (!s.feeding ==> s.note[0] < 0)
  }

  lemma FeedKeeps(s: System)
    requires Inv(s)
    ensures Inv(FeedOne(s))
  {
    var s' := FeedOne(s);
    assert StageOk(s.stages[0], Sent(s, 0));
    assert CellOk(s'.note[0], s'.put[0], s'.stages[0], Sent(s', 0));
    hide CellOk, StageOk, SlotOk;
    forall j: nat {:trigger Sent(s', j)} | j < |s'.stages|
      ensures CellOk(s'.note[j], s'.put[j], s'.stages[j], Sent(s', j))
    {
      assert Sent(s', j) == Sent(s, j);
    }
  }

  /** A step that changes only stage k and its own slot. */
  lemma LocalKeeps(s: System, k: nat, t: Stage, n: int)
    requires Inv(s) && k < |s.stages| && t.child == s.stages[k].child && (t.pc.Pass? ==> t.child)
    requires SlotOk(n, s.put[k], t) && StageOk(t, Sent(s, k)) && (s.note[k] < 0 ==> n < 0)
    ensures Inv(At(s, k, t).(note := s.note[k := n]))
  {
    hide SlotOk, StageOk, Upto;
    var s' := At(s, k, t).(note := s.note[k := n]);
    forall j: nat {:trigger Sent(s', j)} | j < |s'.stages|
      ensures CellOk(s'.note[j], s'.put[j], s'.stages[j], Sent(s', j))
    {
      assert Sent(s', j) == Sent(s, j);
    }
  }

  /** The number just taken is dealt with: left out or passed on. */
  lemma Handled(t: Stage, sent: seq<int>, num: int)
    requires Holds(t, sent, num)
    ensures Sieved(t.prime, t.got[1..]) == sent + if Divides(t.prime, num) then [] else [num]
  {
    var r := t.got[1..];
    assert r[..|r| - 1] == t.got[1..|t.got| - 1];
  }

  lemma PassedKeeps(s: System, k: nat, t: Stage, num: int, put: seq<int>)
    requires Inv(s) && k + 1 < |s.stages| && t.child && s.note[k + 1] >= 0
    requires SlotOk(s.note[k], s.put[k], t) && StageOk(t, put) && SlotOk(num, put, s.stages[k + 1])
    ensures Inv(At(s, k, t).(note := s.note[k + 1 := num], put := s.put[k + 1 := put]))
  {
    hide SlotOk, StageOk, Upto;
    var s' := At(s, k, t).(note := s.note[k + 1 := num], put := s.put[k + 1 := put]);
    forall j: nat {:trigger Sent(s', j)} | j < |s'.stages|
      ensures CellOk(s'.note[j], s'.put[j], s'.stages[j], Sent(s', j))
    {
      if j != k { assert Sent(s', j) == Sent(s, j); }
    }
  }

  /** A number passed on arrives in the next slot and nowhere else. */
  lemma PassKeeps(s: System, k: nat, num: int)
    requires Inv(s) && k < |s.stages| && s.stages[k].pc == Pass(num) && s.note[k + 1] == 0
    ensures Inv(StepOne(s, k, false)) && StepOne(s, k, true) == StepOne(s, k, false)
  {
    var t := s.stages[k];
    assert StageOk(t, Sent(s, k));
    Handled(t, s.put[k + 1], num);
    hide Sieved, Divides, Upto;
    assert StageOk(s.stages[k + 1], Sent(s, k + 1));
    PassedKeeps(s, k, t.(pc := Next), num, s.put[k + 1] + [num]);
  }

  lemma ForkedKeeps(s: System, t: Stage)
    requires Inv(s) && |s.stages| < |s.note| && t.child
    requires var k := |s.stages| - 1; SlotOk(s.note[k], s.put[k], t) && StageOk(t, Sent(s, k))
    ensures Inv(s.(stages := s.stages[|s.stages| - 1 := t] + [Stage(First, 0, false, [])]))
  {
    var s' := s.(stages := s.stages[|s.stages| - 1 := t] + [Stage(First, 0, false, [])]);
    var n := |s.stages|;
    assert SlotOk(s'.note[n], s'.put[n], s'.stages[n]) && StageOk(s'.stages[n], Sent(s', n));
    hide SlotOk, StageOk, Upto;
    forall j: nat {:trigger Sent(s', j)} | j < |s'.stages|
      ensures CellOk(s'.note[j], s'.put[j], s'.stages[j], Sent(s', j))
    {
      assert Sent(s', j) == Sent(s, j);
    }
  }

  lemma ForkKeeps(s: System, k: nat, num: int)
    requires Inv(s) && k < |s.stages| && s.stages[k].pc == Test(num) && k + 1 < |s.note|
    requires !Divides(s.stages[k].prime, num) && !s.stages[k].child
    ensures Inv(StepOne(s, k, true))
  {
    hide Upto, Divides, Sieved;
    assert StageOk(s.stages[k], Sent(s, k));
    ForkedKeeps(s, s.stages[k].(pc := Pass(num), child := true));
  }

  /** The first number is read, and it is the stage's prime. */
  lemma FirstKeeps(s: System, k: nat)
    requires Inv(s) && k < |s.stages| && s.stages[k].pc.First? && s.note[k] > 0
    ensures Inv(StepOne(s, k, false)) && StepOne(s, k, true) == StepOne(s, k, false)
  {
    var t, n := s.stages[k], s.note[k];
    assert StageOk(t, Sent(s, k));
    LocalKeeps(s, k, t.(pc := Next, prime := n, got := t.got + [n]), 0);
  }

  lemma NextKeeps(s: System, k: nat)
    requires Inv(s) && k < |s.stages| && s.stages[k].pc.Next? && s.note[k] > 0
    ensures Inv(StepOne(s, k, false)) && StepOne(s, k, true) == StepOne(s, k, false)
  {
    var t, n := s.stages[k], s.note[k];
    assert StageOk(t, Sent(s, k));
    var t' := t.(pc := Test(n), got := t.got + [n]);
    assert t'.got[1..|t'.got| - 1] == t.got[1..];
    LocalKeeps(s, k, t', 0);
  }

  /** A number that the stage's prime divides is dropped; another one is to be passed on, unless the stage gives up. */
  lemma TestKeeps(s: System, k: nat, num: int, forks: bool)
    requires Inv(s) && k < |s.stages| && s.stages[k].pc == Test(num)
    ensures Inv(StepOne(s, k, forks))
  {
    var t := s.stages[k];
    assert StageOk(t, Sent(s, k));
    Handled(t, Sent(s, k), num);
    assert s.note[k := s.note[k]] == s.note;
    if Divides(t.prime, num) {
      LocalKeeps(s, k, t.(pc := Next), s.note[k]);
    } else if t.child {
      LocalKeeps(s, k, t.(pc := Pass(num)), s.note[k]);
    } else if k + 1 == |s.note| || !forks {
      LocalKeeps(s, k, t.(pc := Out), s.note[k]);
    } else {
      ForkKeeps(s, k, num);
    }
  }

  lemma OutKeeps(s: System, k: nat)
    requires Inv(s) && k < |s.stages| && s.stages[k].pc.Out?
    ensures Inv(StepOne(s, k, false)) && StepOne(s, k, true) == StepOne(s, k, false)
  {
    assert StageOk(s.stages[k], Sent(s, k));
    LocalKeeps(s, k, s.stages[k].(pc := Done), -1);
  }

  /** The next stage has finished, so this one gives up. */
  lemma RefusedKeeps(s: System, k: nat, num: int)
    requires Inv(s) && k < |s.stages| && s.stages[k].pc == Pass(num) && s.note[k + 1] < 0
    ensures Inv(StepOne(s, k, false))
  {
    var t := s.stages[k];
    assert StageOk(t, Sent(s, k));
    Handled(t, Sent(s, k), num);
    assert s.note[k := s.note[k]] == s.note;
    LocalKeeps(s, k, t.(pc := Out), s.note[k]);
  }

  lemma StepKeeps(s: System, k: nat, forks: bool)
    requires Inv(s) && k < |s.stages|
    ensures Inv(StepOne(s, k, forks))
  {
    assert StageOk(s.stages[k], Sent(s, k));
    match s.stages[k].pc
    case First => if s.note[k] > 0 { FirstKeeps(s, k); }
    case Next => if s.note[k] > 0 { NextKeeps(s, k); }
    case Test(num) => TestKeeps(s, k, num, forks);
    case Pass(num) =>
      if s.note[k + 1] == 0 {
        PassKeeps(s, k, num);
      } else if s.note[k + 1] < 0 {
        RefusedKeeps(s, k, num);
      }
    case Out => OutKeeps(s, k);
    case Done =>
  }

  lemma {:induction false} RunKeeps(total: nat, moves: seq<Move>)
    requires total > 0
    ensures Inv(Run(total, moves))
  {
    if moves != [] {
      var s, m := Run(total, moves[..|moves| - 1]), moves[|moves| - 1];
      RunKeeps(total, moves[..|moves| - 1]);
      match m
      case Feed => FeedKeeps(s);
      case Step(k, forks) => if k < |s.stages| { StepKeeps(s, k, forks); }
    }
  }

  /** If stage k has given up although it had a successor, then the successor has finished. */
  ghost predicate ClosedBehind(s: System, k: nat) {
    k + 1 < |s.stages| <= |s.note| && s.stages[k].pc in {Out, Done} ==> s.note[k + 1] < 0
  }

  ghost predicate Closing(s: System) { forall k: nat :: ClosedBehind(s, k) }

  lemma ClosedStep(s: System, j: nat, forks: bool, k: nat)
    requires Inv(s) && ClosedBehind(s, k) && j < |s.stages|
    ensures ClosedBehind(StepOne(s, j, forks), k)
  {
    QuitWhenClosed(s, k);
    QuitWhenClosed(s, k + 1);
    assert Shaped(s);
    hide Inv, Divides;
    if j == k || j == k + 1 { NearStep(s, j, forks, k); } else { FarStep(s, j, forks, k); }
  }

  lemma QuitWhenClosed(s: System, k: nat)
    requires Inv(s)
    ensures k < |s.stages| && s.note[k] < 0 ==> s.stages[k].pc == Done
  {
    hide Upto, Divides, Sieved, Started, Holds;
    if k < |s.stages| { assert CellOk(s.note[k], s.put[k], s.stages[k], Sent(s, k)); }
  }

  lemma NearStep(s: System, j: nat, forks: bool, k: nat)
    requires Shaped(s) && ClosedBehind(s, k) && j < |s.stages| && (j == k || j == k + 1)
    requires k < |s.stages| && s.note[k] < 0 ==> s.stages[k].pc == Done
    requires k + 1 < |s.stages| && s.note[k + 1] < 0 ==> s.stages[k + 1].pc == Done
    ensures ClosedBehind(StepOne(s, j, forks), k)
  {
    hide Divides;
  }

  lemma FarStep(s: System, j: nat, forks: bool, k: nat)
    requires Shaped(s) && ClosedBehind(s, k) && j < |s.stages| && j != k && j != k + 1
    ensures ClosedBehind(StepOne(s, j, forks), k)
  {
    hide Divides;
  }

  lemma ClosingKept(s: System, m: Move)
    requires Inv(s) && Closing(s)
    ensures Closing(Moved(s, m))
  {
    var s' := Moved(s, m);
    hide StepOne;
    forall k: nat ensures ClosedBehind(s', k) {
      assert ClosedBehind(s, k);
      if m.Step? && m.k < |s.stages| { ClosedStep(s, m.k, m.forks, k); }
    }
  }

  lemma {:induction false} RunCloses(total: nat, moves: seq<Move>)
    requires total > 0
    ensures Closing(Run(total, moves))
  {
    if moves != [] {
      RunKeeps(total, moves[..|moves| - 1]);
      RunCloses(total, moves[..|moves| - 1]);
      ClosingKept(Run(total, moves[..|moves| - 1]), moves[|moves| - 1]);
    }
  }

  /** A negative slot means that the stage reading it has finished. */
  lemma ClosedSlot(total: nat, moves: seq<Move>, k: nat)
    requires total > 0 && k < total
    ensures var s := Run(total, moves);
      s.note[k] < 0 ==> s.note[k] == -1 && k < |s.stages| && s.stages[k].pc == Done
  {
    RunKeeps(total, moves);
    var s := Run(total, moves);
    assert Sent(s, k) == Sent(s, k);
  }

  /** When the feeder has stopped all stages have finished; when a stage has finished so have all later ones. */
  lemma {:induction false} AllLaterFinished(total: nat, moves: seq<Move>, j: nat, k: nat)
    requires total > 0 && j <= k
    ensures var s := Run(total, moves);
      k < |s.stages| && (!s.feeding || s.stages[j].pc == Done) ==> s.stages[k].pc == Done
    decreases k
  {
    var s := Run(total, moves);
    RunKeeps(total, moves);
    RunCloses(total, moves);
    if k < |s.stages| && (!s.feeding || s.stages[j].pc == Done) {
      if k > j || (k > 0 && !s.feeding) {
        AllLaterFinished(total, moves, if k > j then j else 0, k - 1);
        assert ClosedBehind(s, k - 1);
      }
      ClosedSlot(total, moves, k);
    }
  }

  lemma SentIsSieved(t: Stage, sent: seq<int>, all: seq<int>)
    requires StageOk(t, sent) && t.got != [] && t.got <= all
    ensures sent <= Sieved(all[0], all[1..])
  {
    var n := |t.got|;
    assert t.got[1..] <= all[1..];
    SievedPrefix(all[0], t.got[1..], all[1..]);
    if n > 1 {
      assert t.got[1..n - 1] <= all[1..];
      SievedPrefix(all[0], t.got[1..n - 1], all[1..]);
    }
  }

  /** Each stage takes from its slot, in order and without a gap, what the sequential sieve has at that level. */
  lemma {:induction false} GotIsLevel(s: System, k: nat)
    requires Inv(s) && k < |s.stages|
    ensures s.stages[k].got <= s.put[k] <= Level(k, s.i - 1)
  {
    assert StageOk(s.stages[k], Sent(s, k));
    if k > 0 {
      GotIsLevel(s, k - 1);
      var t, before := s.stages[k - 1], Level(k - 1, s.i - 1);
      assert StageOk(t, Sent(s, k - 1));
      if t.got != [] {
        SentIsSieved(t, Sent(s, k - 1), before);
      }
    }
  }

  lemma PrefixMember(s: seq<int>, t: seq<int>, n: int)
    requires Ascending(t) && s <= t && s != []
    ensures n in s <==> n in t && n <= s[|s| - 1]
  {
    if n in t && n <= s[|s| - 1] {
      var i :| 0 <= i < |t| && t[i] == n;
      assert i < |s|;
    }
  }

  /** In every run, the number that stage k reads first, and prints, is the prime with exactly k primes below
      it, and what it has read so far are the numbers up to the last one that none of those k primes divides. */
  lemma StagePrime(total: nat, moves: seq<Move>, k: nat, n: int)
    requires total > 0
    ensures var s := Run(total, moves);
      k < |s.stages| && s.stages[k].pc != First ==>
        var t := s.stages[k];
        && t.got != [] && t.prime == t.got[0] && IsPrime(t.prime) && |PrimesBelow(t.prime)| == k && Ascending(t.got)
        && (n in t.got <==> 2 <= n <= t.got[|t.got| - 1] && forall p :: p in PrimesBelow(t.prime) ==> !Divides(p, n))
  {
    hide *;
    var s := Run(total, moves);
    if k < |s.stages| && s.stages[k].pc != First {
      RunKeeps(total, moves);
      StageReads(s, k);
      LevelPrefix(s.stages[k].got, k, s.i - 1, n);
    }
  }

  lemma StageReads(s: System, k: nat)
    requires Inv(s) && k < |s.stages| && s.stages[k].pc != First
    ensures var t := s.stages[k]; t.got != [] && t.prime == t.got[0] && t.got <= Level(k, s.i - 1)
  {
    assert StageOk(s.stages[k], Sent(s, k));
    GotIsLevel(s, k);
    hide Inv, Level, Sent;
  }

  /** What a first part of a level consists of. */
  lemma LevelPrefix(got: seq<int>, k: nat, b: int, n: int)
    requires got != [] && got <= Level(k, b)
    ensures IsPrime(got[0]) && |PrimesBelow(got[0])| == k && Ascending(got)
    ensures n in got <==> 2 <= n <= got[|got| - 1] && forall p :: p in PrimesBelow(got[0]) ==> !Divides(p, n)
  {
    assert got[0] == Level(k, b)[0];
    HeadIsPrime(k, b);
    LevelMembers(k, b);
    LevelByPrimes(k, b, n);
    hide Level, IsPrime, PrimesBelow, Divides, Left;
    PrefixMember(got, Level(k, b), n);
    LeftBounded(k, b, got[|got| - 1]);
  }

  lemma LeftBounded(k: nat, b: int, n: int)
    requires n in Level(k, b)
    ensures 2 <= n <= b
  {
    LevelMembers(k, b);
    assert Left(k, b, n);
  }

  /** In every run, the numbers printed so far by stages 0 to k are the first k + 1 primes in order. */
  lemma PrintedPrimes(total: nat, moves: seq<Move>, k: nat)
    requires total > 0
    ensures var s := Run(total, moves);
      k < |s.stages| && s.stages[k].pc != First ==> Primes(s, k + 1) == PrimesBelow(s.stages[k].prime + 1)
  {
    hide *;
    RunKeeps(total, moves);
    var s := Run(total, moves);
    if k < |s.stages| && s.stages[k].pc != First { Printed(s, k); }
  }

  lemma Printed(s: System, k: nat)
    requires Inv(s) && k < |s.stages| && s.stages[k].pc != First
    ensures Primes(s, k + 1) == PrimesBelow(s.stages[k].prime + 1)
  {
    hide *;
    var b, ps := s.i - 1, Primes(s, k + 1);
    PrimeIsHead(s, k);
    HeadsArePrimes(k, b);
    forall j | 0 <= j < |ps| ensures ps[j] == Heads(k + 1, b)[j] {
      AllStarted(s, j, k);
      PrimeIsHead(s, j);
      HeadsAt(k + 1, b, j);
    }
    assert ps == Heads(k + 1, b);
  }

  lemma PrimeIsHead(s: System, k: nat)
    requires Inv(s) && k < |s.stages| && s.stages[k].pc != First
    ensures Level(k, s.i - 1) != [] && Level(k, s.i - 1)[0] == s.stages[k].prime
  {
    assert StageOk(s.stages[k], Sent(s, k));
    GotIsLevel(s, k);
  }

  function Primes(s: System, n: nat): (ps: seq<int>)
    requires n <= |s.stages|
    ensures |ps| == n && forall j :: 0 <= j < n ==> ps[j] == s.stages[j].prime
  {
    if n == 0 then [] else Primes(s, n - 1) + [s.stages[n - 1].prime]
  }

  lemma {:induction false} AllStarted(s: System, j: nat, k: nat)
    requires Inv(s) && j <= k < |s.stages| && s.stages[k].pc != First
    ensures s.stages[j].pc != First
    decreases k
  {
    if j < k {
      assert StageOk(s.stages[k], Sent(s, k)) && StageOk(s.stages[k - 1], Sent(s, k - 1));
      AllStarted(s, j, k - 1);
    }
  }

  // ----- why stages stop -----

  /** A fork for the next stage that fails. */
  ghost predicate ForkFails(s: System, m: Move) {
    && m.Step? && !m.forks && m.k < |s.stages| && !s.stages[m.k].child && m.k + 1 < |s.note|
    && s.stages[m.k].pc.Test? && !Divides(s.stages[m.k].prime, s.stages[m.k].pc.num)
  }

  ghost predicate SomeForkFailed(total: nat, moves: seq<Move>)
    requires total > 0
  {
    exists n: nat :: n < |moves| && ForkFails(Run(total, moves[..n]), moves[n])
  }

  predicate Quit(t: Stage) { t.pc == Out || t.pc == Done }

  ghost predicate SomeQuit(s: System) { exists k: nat :: k < |s.stages| && Quit(s.stages[k]) }

  /** Nobody stops before all stages are there, unless a fork fails. */
  lemma QuitStep(s: System, m: Move)
    requires Inv(s) && (SomeQuit(s) ==> |s.stages| == |s.note|) && !ForkFails(s, m)
    ensures var s' := Moved(s, m); SomeQuit(s') ==> |s'.stages| == |s'.note|
  {
    var s' := Moved(s, m);
    if SomeQuit(s') && !SomeQuit(s) {
      var k: nat :| k < |s'.stages| && Quit(s'.stages[k]);
      assert k < |s.stages| ==> !Quit(s.stages[k]);
      QuitWhenClosed(s, k);
      QuitWhenClosed(s, k + 1);
      assert k + 1 < |s.stages| ==> !Quit(s.stages[k + 1]);
      assert Shaped(s);
      hide Inv, Divides;
      NewQuit(s, m, k);
    }
  }

  lemma NewQuit(s: System, m: Move, k: nat)
    requires Shaped(s) && !ForkFails(s, m) && k < |Moved(s, m).stages| && Quit(Moved(s, m).stages[k])
    requires k < |s.stages| ==> !Quit(s.stages[k]) && s.note[k] >= 0
    requires k + 1 < |s.stages| ==> s.note[k + 1] >= 0
    ensures |s.stages| == |s.note| && |Moved(s, m).stages| == |s.note|
  {
    if m.Step? && m.k == k && k < |s.stages| {
      hide Moved, Divides, Shaped;
      StepQuits(s, k, m.forks);
    } else {
      OtherStage(s, m, k);
    }
  }

  lemma OtherStage(s: System, m: Move, k: nat)
    requires Shaped(s) && k < |Moved(s, m).stages| && (m.Step? && k < |s.stages| ==> m.k != k)
    ensures if k < |s.stages| then Moved(s, m).stages[k] == s.stages[k] else Moved(s, m).stages[k].pc == First
  {
    hide Divides, TryRead, TryWrite;
  }

  lemma StepQuits(s: System, k: nat, forks: bool)
    requires Shaped(s) && !ForkFails(s, Step(k, forks)) && k < |s.stages| && Quit(StepOne(s, k, forks).stages[k])
    requires !Quit(s.stages[k]) && s.note[k] >= 0 && (k + 1 < |s.stages| ==> s.note[k + 1] >= 0)
    ensures |s.stages| == |s.note| == |StepOne(s, k, forks).stages|
  {
    hide Divides;
  }

  lemma DoneIsQuit(s: System, k: nat)
    requires k < |s.stages| && s.stages[k].pc == Done
    ensures SomeQuit(s)
  {
    assert Quit(s.stages[k]);
  }

  lemma {:induction false} QuitWhenFull(total: nat, moves: seq<Move>)
    requires total > 0 && !SomeForkFailed(total, moves)
    ensures var s := Run(total, moves); SomeQuit(s) ==> |s.stages| == total
  {
    if moves != [] {
      var n := |moves| - 1;
      assert !ForkFails(Run(total, moves[..n]), moves[n]);
      forall j: nat | j < n ensures !ForkFails(Run(total, moves[..n][..j]), moves[..n][j]) {
        assert moves[..n][..j] == moves[..j];
      }
      QuitWhenFull(total, moves[..n]);
      RunKeeps(total, moves[..n]);
      hide Inv, SomeQuit, ForkFails, Moved;
      QuitStep(Run(total, moves[..n]), moves[n]);
    }
  }

  /** In every run in which no fork fails: a stage stops only when all stages are there, and once the feeder has stopped
      the first `total` primes have been printed, one by each stage. */
  lemma {:induction false} StopsWhenFull(total: nat, moves: seq<Move>)
    requires total > 0 && !SomeForkFailed(total, moves)
    ensures var s := Run(total, moves);
      && (SomeQuit(s) ==> |s.stages| == total)
      && (!s.feeding ==> |s.stages| == total && Primes(s, total) == PrimesBelow(s.stages[total - 1].prime + 1))
      && (!s.feeding ==> |PrimesBelow(s.stages[total - 1].prime)| == total - 1)
  {
    hide *;
    QuitWhenFull(total, moves);
    if !Run(total, moves).feeding {
      AllStopped(total, moves);
      LastStage(total, moves);
    }
  }

  lemma {:induction false} AllStopped(total: nat, moves: seq<Move>)
    requires total > 0 && !Run(total, moves).feeding
    ensures SomeQuit(Run(total, moves))
  {
    var s := Run(total, moves);
    assert |s.stages| >= 1;
    hide *;
    AllLaterFinished(total, moves, 0, 0);
    DoneIsQuit(s, 0);
  }

  lemma {:induction false} LastStage(total: nat, moves: seq<Move>)
    requires total > 0 && !Run(total, moves).feeding && |Run(total, moves).stages| == total
    ensures var s := Run(total, moves);
      && Primes(s, total) == PrimesBelow(s.stages[total - 1].prime + 1)
      && |PrimesBelow(s.stages[total - 1].prime)| == total - 1
  {
    hide *;
    AllLaterFinished(total, moves, 0, total - 1);
    PrintedPrimes(total, moves, total - 1);
    StagePrime(total, moves, total - 1, 2);
  }
}
