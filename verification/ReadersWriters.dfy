/** The readers and writers of sem_rf.c: any number of processes, in any interleaving of their single accesses to
    the two semaphores and the shared counter. */
module ReadersWriters {

  /** Where a process is. A reader arrives, holds sem_count to test the counter, may wait for sem_write, loads and
      stores the counter, gives sem_count back, reads, takes sem_count again, loads and stores the counter, tests
      it, may give sem_write back, and gives sem_count back. A writer waits for sem_write, writes, gives it back. */
  datatype Pc =
    | Arrive | TestFirst | AwaitWrite | LoadIn | StoreIn(seen: int) | ReleaseIn | Reading
    | Depart | LoadOut | StoreOut(seen: int) | TestLast | GiveWrite | ReleaseOut
    | AwaitTurn | Writing | Gone

  datatype Room = Room(semCount: nat, semWrite: nat, count: int, procs: seq<Pc>)

  function Start(): Room { Room(1, 1, 0, []) }

  datatype Move = Reader | Writer | Step(i: nat)

  function Set(s: Room, i: nat, pc: Pc): Room
    requires i < |s.procs|
  {
    s.(procs := s.procs[i := pc])
  }

  /** One step of process i; a wait for a semaphore that is 0 changes nothing. */
  function StepOne(s: Room, i: nat): Room
    requires i < |s.procs|
  {
    match s.procs[i]
    case Arrive => if s.semCount == 0 then s else Set(s, i, TestFirst).(semCount := s.semCount - 1)
    case TestFirst => Set(s, i, if s.count == 0 then AwaitWrite else LoadIn)
    case AwaitWrite => if s.semWrite == 0 then s else Set(s, i, LoadIn).(semWrite := s.semWrite - 1)
    case LoadIn => Set(s, i, StoreIn(s.count))
    case StoreIn(seen) => Set(s, i, ReleaseIn).(count := seen + 1)
    case ReleaseIn => Set(s, i, Reading).(semCount := s.semCount + 1)
    case Reading => Set(s, i, Depart)
    case Depart => if s.semCount == 0 then s else Set(s, i, LoadOut).(semCount := s.semCount - 1)
    case LoadOut => Set(s, i, StoreOut(s.count))
    case StoreOut(seen) => Set(s, i, TestLast).(count := seen - 1)
    case TestLast => Set(s, i, if s.count == 0 then GiveWrite else ReleaseOut)
    case GiveWrite => Set(s, i, ReleaseOut).(semWrite := s.semWrite + 1)
    case ReleaseOut => Set(s, i, Gone).(semCount := s.semCount + 1)
    case AwaitTurn => if s.semWrite == 0 then s else Set(s, i, Writing).(semWrite := s.semWrite - 1)
    case Writing => Set(s, i, Gone).(semWrite := s.semWrite + 1)
    case Gone => s
  }

  function Moved(s: Room, m: Move): Room {
    match m
    case Reader => s.(procs := s.procs + [Arrive])
    case Writer => s.(procs := s.procs + [AwaitTurn])
    case Step(i) => if i < |s.procs| then StepOne(s, i) else s
  }

  function Run(moves: seq<Move>): Room {
    if moves == [] then Start() else Moved(Run(moves[..|moves| - 1]), moves[|moves| - 1])
  }

  /** Holding sem_count. */
  function Critical(pc: Pc): nat {
    match pc
    case TestFirst | AwaitWrite | LoadIn | StoreIn(_) | ReleaseIn | LoadOut | StoreOut(_) | TestLast | GiveWrite
      | ReleaseOut => 1
    case _ => 0
  }

  /** Between the increment and the decrement of the counter. */
  function Inside(pc: Pc): nat {
    match pc
    case ReleaseIn | Reading | Depart | LoadOut | StoreOut(_) => 1
    case _ => 0
  }

  function IsWriting(pc: Pc): nat { if pc == Writing then 1 else 0 }

  /** Holding sem_write for all readers while the counter does not show it. */
  function Keeper(pc: Pc): nat {
    match pc
    case LoadIn | StoreIn(_) | TestLast | GiveWrite => 1
    case _ => 0
  }

  function Sum(procs: seq<Pc>, w: Pc -> nat): nat {
    if procs == [] then 0 else Sum(procs[..|procs| - 1], w) + w(procs[|procs| - 1])
  }

  /** What a process knows about the counter. */
  ghost predicate Knows(pc: Pc, count: int) {
    match pc
    case AwaitWrite => count == 0
    case StoreIn(seen) => seen == count
    case StoreOut(seen) => seen == count
    case GiveWrite => count == 0
    case _ => true
  }

  ghost predicate Balanced(s: Room) {
    && s.semCount + Sum(s.procs, Critical) == 1
    && s.count == Sum(s.procs, Inside)
    && s.semWrite + Sum(s.procs, IsWriting) + (if s.count > 0 || Sum(s.procs, Keeper) > 0 then 1 else 0) == 1
  }

  ghost predicate Inv(s: Room) {
    Balanced(s) && forall i :: 0 <= i < |s.procs| ==> Knows(s.procs[i], s.count)
  }

  lemma {:induction false} SumSet(procs: seq<Pc>, w: Pc -> nat, i: nat, pc: Pc)
    requires i < |procs|
    ensures Sum(procs[i := pc], w) == Sum(procs, w) - w(procs[i]) + w(pc) && Sum(procs, w) >= w(procs[i])
  {
    var n := |procs| - 1;
    if i == n {
      assert procs[i := pc][..n] == procs[..n];
    } else {
      SumSet(procs[..n], w, i, pc);
      assert procs[i := pc][..n] == procs[..n][i := pc];
    }
  }

  lemma {:induction false} SumTwo(procs: seq<Pc>, w: Pc -> nat, i: nat, j: nat)
    requires i < j < |procs|
    ensures Sum(procs, w) >= w(procs[i]) + w(procs[j])
  {
    var n := |procs| - 1;
    if j == n {
      SumSet(procs[..n], w, i, Gone);
    } else {
      SumTwo(procs[..n], w, i, j);
    }
  }

  /** Only the holder of sem_count relies on the counter. */
  lemma OthersKnow(s: Room, i: nat, j: nat, count: int)
    requires Inv(s) && i < |s.procs| && j < |s.procs| && i != j && Critical(s.procs[i]) == 1
    ensures Knows(s.procs[j], count)
  {
    if i < j { SumTwo(s.procs, Critical, i, j); } else { SumTwo(s.procs, Critical, j, i); }
  }

  lemma StepBalances(s: Room, i: nat)
    requires Balanced(s) && i < |s.procs| && Knows(s.procs[i], s.count)
    ensures Balanced(StepOne(s, i))
  {
    CountBalances(s, i);
    WriteBalances(s, i);
    hide StepOne, Sum;
  }

  /** sem_count is held by the process inside, and the counter counts the readers. */
  lemma CountBalances(s: Room, i: nat)
    requires Balanced(s) && i < |s.procs| && Knows(s.procs[i], s.count)
    ensures var s' := StepOne(s, i);
      s'.semCount + Sum(s'.procs, Critical) == 1 && s'.count == Sum(s'.procs, Inside)
  {
    hide *;
    BalancedParts(s);
    StepProcs(s, i);
    var pc := StepOne(s, i).procs[i];
    SumAt(s.procs, Critical, i, pc, Critical(s.procs[i]), Critical(pc));
    SumAt(s.procs, Inside, i, pc, Inside(s.procs[i]), Inside(pc));
    CountChange(s, i, Sum(s.procs, Critical), Sum(s.procs, Inside));
  }

  lemma BalancedParts(s: Room)
    requires Balanced(s)
    ensures s.semCount + Sum(s.procs, Critical) == 1 && s.count == Sum(s.procs, Inside)
    ensures s.semWrite + Sum(s.procs, IsWriting) + (if s.count > 0 || Sum(s.procs, Keeper) > 0 then 1 else 0) == 1
  {}

  lemma StepProcs(s: Room, i: nat)
    requires i < |s.procs|
    ensures var s' := StepOne(s, i); |s'.procs| == |s.procs| && s'.procs == s.procs[i := s'.procs[i]]
  {}

  lemma SumAt(procs: seq<Pc>, w: Pc -> nat, i: nat, pc: Pc, before: nat, after: nat)
    requires i < |procs| && w(procs[i]) == before && w(pc) == after
    ensures Sum(procs[i := pc], w) == Sum(procs, w) - before + after && Sum(procs, w) >= before
  {
    SumSet(procs, w, i, pc);
  }

  lemma CountChange(s: Room, i: nat, critical: nat, inside: nat)
    requires i < |s.procs| && Knows(s.procs[i], s.count) && s.semCount + critical == 1 && s.count == inside
    requires critical >= Critical(s.procs[i])
    ensures var s', pc := StepOne(s, i), s.procs[i];
      && |s'.procs| == |s.procs| && s'.semCount + critical - Critical(pc) + Critical(s'.procs[i]) == 1
      && s'.count == inside - Inside(pc) + Inside(s'.procs[i])
  {}

  /** sem_write is held by a writer or for the readers. */
  lemma WriteBalances(s: Room, i: nat)
    requires Balanced(s) && i < |s.procs| && Knows(s.procs[i], s.count)
    ensures var s' := StepOne(s, i);
      s'.semWrite + Sum(s'.procs, IsWriting) + (if s'.count > 0 || Sum(s'.procs, Keeper) > 0 then 1 else 0) == 1
  {
    hide *;
    BalancedParts(s);
    StepProcs(s, i);
    var pc := StepOne(s, i).procs[i];
    SumAt(s.procs, IsWriting, i, pc, IsWriting(s.procs[i]), IsWriting(pc));
    SumAt(s.procs, Keeper, i, pc, Keeper(s.procs[i]), Keeper(pc));
    SumAt(s.procs, Inside, i, pc, Inside(s.procs[i]), Inside(pc));
    SumAt(s.procs, Critical, i, pc, Critical(s.procs[i]), Critical(pc));
    KeepersCritical(s.procs);
    WriteChange(s, i, Sum(s.procs, IsWriting), Sum(s.procs, Keeper), Sum(s.procs, Critical));
  }

  lemma WriteChange(s: Room, i: nat, writing: nat, keepers: nat, critical: nat)
    requires i < |s.procs| && Knows(s.procs[i], s.count) && s.semCount + critical == 1 && s.count >= Inside(s.procs[i])
    requires s.semWrite + writing + (if s.count > 0 || keepers > 0 then 1 else 0) == 1 && keepers <= critical
    requires writing >= IsWriting(s.procs[i]) && keepers >= Keeper(s.procs[i]) && critical >= Critical(s.procs[i])
    ensures var s', pc := StepOne(s, i), s.procs[i];
      var writing', keepers' := writing - IsWriting(pc) + IsWriting(s'.procs[i]),
        keepers - Keeper(pc) + Keeper(s'.procs[i]);
      |s'.procs| == |s.procs| && s'.semWrite + writing' + (if s'.count > 0 || keepers' > 0 then 1 else 0) == 1
  {}

  lemma StepKeeps(s: Room, i: nat)
    requires Inv(s) && i < |s.procs|
    ensures Inv(StepOne(s, i))
  {
    StepBalances(s, i);
    hide Balanced;
    var s' := StepOne(s, i);
    forall j | 0 <= j < |s.procs| ensures Knows(s'.procs[j], s'.count) {
      assert Knows(s.procs[i], s.count) && Knows(s.procs[j], s.count);
      if j != i && Critical(s.procs[i]) == 1 { OthersKnow(s, i, j, s'.count); }
    }
  }

  lemma ArrivalKeeps(s: Room, m: Move)
    requires Inv(s) && !m.Step?
    ensures Inv(Moved(s, m))
  {
    var pc := if m.Reader? then Arrive else AwaitTurn;
    SumPush(s.procs, Critical, pc);
    SumPush(s.procs, Inside, pc);
    SumPush(s.procs, IsWriting, pc);
    SumPush(s.procs, Keeper, pc);
    hide Sum;
  }

  lemma SumPush(procs: seq<Pc>, w: Pc -> nat, pc: Pc)
    ensures Sum(procs + [pc], w) == Sum(procs, w) + w(pc)
  {
    assert (procs + [pc])[..|procs|] == procs;
  }

  lemma {:induction false} KeepersCritical(procs: seq<Pc>)
    ensures Sum(procs, Keeper) <= Sum(procs, Critical)
  {
    if procs != [] { KeepersCritical(procs[..|procs| - 1]); }
  }

  lemma {:induction false} RunKeeps(moves: seq<Move>)
    ensures Inv(Run(moves))
  {
    if moves != [] {
      var s, m := Run(moves[..|moves| - 1]), moves[|moves| - 1];
      RunKeeps(moves[..|moves| - 1]);
      hide Inv, StepOne;
      if !m.Step? {
        ArrivalKeeps(s, m);
      } else if m.i < |s.procs| {
        StepKeeps(s, m.i);
      }
    }
  }

  /** In every run a writer excludes all other writers and all readers, from the moment a reader has sem_write or
      relies on another reader having it until the last reader has given it back. */
  lemma Exclusion(moves: seq<Move>, i: nat, j: nat)
    requires var s := Run(moves); i < |s.procs| && j < |s.procs| && i != j && s.procs[i] == Writing
    ensures var pc := Run(moves).procs[j]; pc != Writing && Inside(pc) == 0 && Keeper(pc) == 0
  {
    var s := Run(moves);
    RunKeeps(moves);
    SumSet(s.procs, IsWriting, i, Gone);
    if i < j { SumTwo(s.procs, IsWriting, i, j); } else { SumTwo(s.procs, IsWriting, j, i); }
    SumSet(s.procs, Inside, j, Gone);
    SumSet(s.procs, Keeper, j, Gone);
  }

  /** In every run the counter is the number of readers between increment and decrement. */
  lemma Counted(moves: seq<Move>)
    ensures Run(moves).count == Sum(Run(moves).procs, Inside)
  {
    RunKeeps(moves);
  }

  predicate Outside(pc: Pc) { pc in {Arrive, AwaitTurn, Gone} }

  lemma {:induction false} NoneInside(procs: seq<Pc>)
    requires forall i :: 0 <= i < |procs| ==> Outside(procs[i])
    ensures Sum(procs, Critical) == 0 && Sum(procs, Inside) == 0 && Sum(procs, IsWriting) == 0
    ensures Sum(procs, Keeper) == 0
  {
    if procs != [] { NoneInside(procs[..|procs| - 1]); }
  }

  /** Whenever nobody is inside, both semaphores are 1 and the counter is 0, as check_sem_value demands. */
  lemma Rest(moves: seq<Move>)
    requires forall i :: 0 <= i < |Run(moves).procs| ==> Outside(Run(moves).procs[i])
    ensures var s := Run(moves); s.semCount == 1 && s.semWrite == 1 && s.count == 0
  {
    RunKeeps(moves);
    NoneInside(Run(moves).procs);
  }

  /** A process can be found wherever a sum is positive. */
  lemma {:induction false} SomeOne(procs: seq<Pc>, w: Pc -> nat) returns (i: nat)
    requires Sum(procs, w) > 0
    ensures i < |procs| && w(procs[i]) > 0
  {
    var n := |procs| - 1;
    if w(procs[n]) > 0 {
      i := n;
    } else {
      i := SomeOne(procs[..n], w);
    }
  }

  /** There is no deadlock: as long as some process has not gone, some process can take a step. */
  lemma NoDeadlock(moves: seq<Move>, i: nat) returns (j: nat)
    requires i < |Run(moves).procs| && Run(moves).procs[i] != Gone
    ensures var s := Run(moves); j < |s.procs| && StepOne(s, j) != s
  {
    var s := Run(moves);
    RunKeeps(moves);
    j := i;
    if StepOne(s, i) == s {
      if s.semCount == 0 {
        j := SomeOne(s.procs, Critical);
        if s.procs[j] == AwaitWrite && s.semWrite == 0 {
          assert Knows(s.procs[j], s.count);
          AloneCritical(s, j);
          j := SomeOne(s.procs, IsWriting);
        }
      } else {
        KeepersCritical(s.procs);
        if s.count > 0 {
          j := SomeOne(s.procs, Inside);
        } else {
          j := SomeOne(s.procs, IsWriting);
        }
      }
    }
    StepMoves(s, j);
  }

  lemma AloneCritical(s: Room, j: nat)
    requires Inv(s) && j < |s.procs| && s.procs[j] == AwaitWrite
    ensures Sum(s.procs, Keeper) == 0
  {
    SumSet(s.procs, Critical, j, Gone);
    SumSet(s.procs, Keeper, j, Gone);
    KeepersCritical(s.procs[j := Gone]);
  }

  /** Every step but a wait for a semaphore that is 0 changes where the process is. */
  lemma StepMoves(s: Room, j: nat)
    requires j < |s.procs| && s.procs[j] != Gone
    requires s.procs[j] in {Arrive, Depart} ==> s.semCount > 0
    requires s.procs[j] in {AwaitWrite, AwaitTurn} ==> s.semWrite > 0
    ensures StepOne(s, j) != s
  {
    assert StepOne(s, j).procs[j] != s.procs[j];
  }

  lemma RunOn(moves: seq<Move>, m: Move)
    ensures Run(moves + [m]) == Moved(Run(moves), m)
  {
    assert (moves + [m])[..|moves|] == moves;
  }

  lemma {:induction false} NoneWrites(procs: seq<Pc>)
    requires forall i :: 0 <= i < |procs| ==> procs[i] != Writing
    ensures Sum(procs, IsWriting) == 0
  {
    if procs != [] { NoneWrites(procs[..|procs| - 1]); }
  }

  /** A newcomer that has taken n steps on its way to reading, in a room that is otherwise as it was in s. */
  function Entering(s: Room, n: nat): Room
    requires n <= 5
  {
    var pc := match n case 0 => Arrive case 1 => TestFirst case 2 => LoadIn case 3 => StoreIn(s.count)
      case 4 => ReleaseIn case _ => Reading;
    Room(if n == 0 || n == 5 then 1 else 0, if n < 2 then s.semWrite else 0,
      if n < 4 then s.count else s.count + 1, s.procs + [pc])
  }

  lemma EnterStep(s: Room, n: nat, moves: seq<Move>) returns (more: seq<Move>)
    requires n < 5 && s.semCount == 1 && s.count >= 0 && s.semWrite == (if s.count > 0 then 0 else 1)
    requires Run(moves) == Entering(s, n)
    ensures Run(moves + more) == Entering(s, n + 1)
  {
    var i := |s.procs|;
    more := [Step(i)];
    RunOn(moves, Step(i));
    if n == 1 && s.count == 0 {
      more := [Step(i), Step(i)];
      RunOn(moves + [Step(i)], Step(i));
      assert moves + more == moves + [Step(i)] + [Step(i)];
    }
    assert forall pc, pc' :: (s.procs + [pc])[i := pc'] == s.procs + [pc'];
  }

  /** Readers do not keep each other out: whenever sem_count is free and nobody writes, one more reader can come in to
      read, and nobody else has to move for it. */
  lemma MayJoin(moves: seq<Move>) returns (more: seq<Move>)
    requires var s := Run(moves);
      s.semCount == 1 && forall i :: 0 <= i < |s.procs| ==> s.procs[i] != Writing
    ensures var s := Run(moves);
      Run(moves + more).procs == s.procs + [Reading] && Run(moves + more).semCount == 1
  {
    var s := Run(moves);
    RunKeeps(moves);
    KeepersCritical(s.procs);
    NoneWrites(s.procs);
    RunOn(moves, Reader);
    more := [Reader];
    for n := 0 to 5
      invariant Run(moves + more) == Entering(s, n)
    {
      hide *;
      var next := EnterStep(s, n, moves + more);
      assert moves + more + next == moves + (more + next);
      more := more + next;
    }
  }

  /** So any number of readers can read at the same time. */
  lemma {:induction false} Together(n: nat) returns (moves: seq<Move>)
    ensures Run(moves).semCount == 1 && Run(moves).procs == seq(n, _ => Reading)
  {
    moves := [];
    for k := 0 to n
      invariant Run(moves).semCount == 1 && Run(moves).procs == seq(k, _ => Reading)
    {
      var more := MayJoin(moves);
      moves := moves + more;
      assert seq(k, _ => Reading) + [Reading] == seq(k + 1, _ => Reading);
    }
  }
}
