/** What spipeclose and spipeisclosed answer, in every run, whatever the waits return. */
module SpipeCodes {
  import opened Spipe

  /** The call has its answer. */
  predicate Answered(k: Call) { k.pc == Leave || k.pc == Done }

  /** A spipeclose on handle h that answers 0. */
  predicate Closes(k: Call, h: nat) { k.op.Close? && k.h == h && Answered(k) && k.code == 0 }

  ghost predicate CodeOk(s: Pipe, k: Call) {
    && (k.op.Close? && Answered(k) ==> (k.code == 0 && k.h in s.byClose) || (k.code == -1 && k.h in s.shut))
    && (k.op.IsClosed? && Answered(k) ==> k.code == 0 || (k.code == 1 && s.closed))
  }

  /** A handle is closed by at most one spipeclose, and that one answers 0. */
  ghost predicate Codes(s: Pipe) {
    && s.byClose <= s.shut && (s.shut != {} ==> s.closed)
    && (forall c: nat :: c < |s.calls| ==> CodeOk(s, s.calls[c]))
    && (forall c: nat, d: nat, h ::
         c < |s.calls| && d < |s.calls| && Closes(s.calls[c], h) && Closes(s.calls[d], h) ==> c == d)
    && (forall h :: h in s.byClose ==> exists c: nat :: c < |s.calls| && Closes(s.calls[c], h))
  }

  /** What a step of call c may change: its own answer comes with the flags it has found or set. */
  ghost predicate CodeStep(s: Pipe, s': Pipe, c: nat) {
    && c < |s.calls| == |s'.calls| && s'.calls == s.calls[c := s'.calls[c]] && s'.calls[c].h == s.calls[c].h
    && s'.calls[c].op == s.calls[c].op && s.shut <= s'.shut && (s.closed ==> s'.closed)
    && s'.byClose <= s'.shut && (s'.shut != {} ==> s'.closed) && CodeOk(s', s'.calls[c])
    && (Answered(s.calls[c]) ==> Answered(s'.calls[c]) && s'.calls[c].code == s.calls[c].code)
    && (if Closes(s'.calls[c], s.calls[c].h) && !Closes(s.calls[c], s.calls[c].h) then
          s.calls[c].h !in s.byClose && s'.byClose == s.byClose + {s.calls[c].h}
        else s'.byClose == s.byClose)
  }

  lemma CheckCodes(s: Pipe, c: nat)
    requires Codes(s) && c < |s.calls| && s.calls[c].pc == Check
    ensures CodeStep(s, CheckStep(s, c), c)
  {
    assert CodeOk(s, s.calls[c]);
  }

  lemma LoopCodes(s: Pipe, c: nat)
    requires Codes(s) && |s.buf| > 0 && c < |s.calls| && s.calls[c].pc == Loop
    ensures CodeStep(s, LoopStep(s, c), c)
  {
    assert CodeOk(s, s.calls[c]);
  }

  lemma GateCodes(s: Pipe, c: nat, ok: bool)
    requires Codes(s) && c < |s.calls|
    ensures CodeStep(s, GateStep(s, c, ok), c)
  {
    assert CodeOk(s, s.calls[c]);
  }

  lemma CodesStep(s: Pipe, s': Pipe, c: nat)
    requires Codes(s) && CodeStep(s, s', c)
    ensures Codes(s')
  {
    var k, k' := s.calls[c], s'.calls[c];
    forall d: nat | d < |s'.calls| ensures CodeOk(s', s'.calls[d]) {
      if d != c { assert CodeOk(s, s.calls[d]); }
    }
    forall d: nat, h | d < |s.calls| && Closes(s.calls[d], h) ensures Closes(s'.calls[d], h) && h in s.byClose {
      assert CodeOk(s, s.calls[d]);
    }
    forall h | h in s'.byClose ensures exists d: nat :: d < |s'.calls| && Closes(s'.calls[d], h) {
      if h in s.byClose {
        var d: nat :| d < |s.calls| && Closes(s.calls[d], h);
        assert Closes(s'.calls[d], h);
      } else {
        assert Closes(s'.calls[c], h);
      }
    }
  }

  lemma CodesMove(s: Pipe, m: Move)
    requires Codes(s) && |s.buf| > 0
    ensures Codes(Moved(s, m))
  {
    match m
    case Begin(h, op) =>
      var s' := Moved(s, m);
      forall d: nat | d < |s'.calls| ensures CodeOk(s', s'.calls[d]) {
        if d < |s.calls| { assert CodeOk(s, s.calls[d]); }
      }
      forall h | h in s'.byClose ensures exists d: nat :: d < |s'.calls| && Closes(s'.calls[d], h) {
        var d: nat :| d < |s.calls| && Closes(s.calls[d], h);
        assert Closes(s'.calls[d], h);
      }
    case Step(c, ok) =>
      if c < |s.calls| {
        var pc := s.calls[c].pc;
        if pc == Check { CheckCodes(s, c); } else if pc == Loop { LoopCodes(s, c); } else { GateCodes(s, c, ok); }
        hide Codes, CodeStep, CheckStep, LoopStep, GateStep;
        CodesStep(s, StepCall(s, c, ok), c);
      }
  }

  /** In every run: of all calls of spipeclose on a handle at most one answers 0, and one does exactly when the handle
      was closed that way; the others answer -1, on a handle that is closed. Whoever is told that the pipe is closed
      is told the truth. */
  lemma {:induction false} CloseAnswers(size: nat, moves: seq<Move>)
    requires size > 0
    ensures Codes(Run(size, moves))
  {
    if moves != [] {
      CloseAnswers(size, moves[..|moves| - 1]);
      CodesMove(Run(size, moves[..|moves| - 1]), moves[|moves| - 1]);
    }
  }

  /** What a call that has its answer says of a closed pipe. */
  predicate SaysSo(k: Call) { k.op.IsClosed? && Answered(k) ==> k.code == 1 }

  /** Every spipeisclosed from call n on that has its answer says that the pipe is closed. */
  ghost predicate Tells(s: Pipe, n: nat) {
    s.closed && forall c: nat :: n <= c < |s.calls| ==> SaysSo(s.calls[c])
  }

  ghost predicate TellStep(s: Pipe, s': Pipe, c: nat) {
    && s'.closed && c < |s.calls| == |s'.calls| && s'.calls == s.calls[c := s'.calls[c]]
    && (SaysSo(s.calls[c]) ==> SaysSo(s'.calls[c]))
  }

  lemma CheckTells(s: Pipe, c: nat)
    requires s.closed && c < |s.calls|
    ensures TellStep(s, CheckStep(s, c), c)
  {}

  lemma LoopTells(s: Pipe, c: nat)
    requires s.closed && |s.buf| > 0 && c < |s.calls|
    ensures TellStep(s, LoopStep(s, c), c)
  {}

  lemma GateTells(s: Pipe, c: nat, ok: bool)
    requires s.closed && c < |s.calls|
    ensures TellStep(s, GateStep(s, c, ok), c)
  {}

  lemma TellsMove(s: Pipe, m: Move, n: nat)
    requires Tells(s, n) && |s.buf| > 0 && n <= |s.calls|
    ensures Tells(Moved(s, m), n) && n <= |Moved(s, m).calls|
  {
    if m.Step? && m.c < |s.calls| {
      CheckTells(s, m.c);
      LoopTells(s, m.c);
      GateTells(s, m.c, m.ok);
      hide CheckStep, LoopStep, GateStep;
    }
  }

  /** A spipeisclosed that begins on a closed pipe answers 1. */
  lemma {:induction false} ClosedIsTold(size: nat, moves: seq<Move>, more: seq<Move>)
    requires size > 0 && Run(size, moves).closed
    ensures Tells(Run(size, moves + more), |Run(size, moves).calls|)
    ensures |Run(size, moves).calls| <= |Run(size, moves + more).calls|
    decreases |more|
  {
    hide Moved;
    if more == [] {
      assert moves + more == moves;
    } else {
      var k := |more| - 1;
      assert (moves + more)[..|moves + more| - 1] == moves + more[..k];
      ClosedIsTold(size, moves, more[..k]);
      TellsMove(Run(size, moves + more[..k]), more[k], |Run(size, moves).calls|);
    }
  }
}
