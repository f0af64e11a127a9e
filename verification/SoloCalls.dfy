/**
 The two models of the remote agent status object agree: a call whose atomic steps
 nothing interrupts (AgentStatus) does what the call does in sequence (Readiness).
 */
module SoloCalls {
  import opened Options
  import opened Sequences
  import opened AgentStatus
  import opened Readiness

  /** `n` steps of one thread. */
  function Steps(t: nat, n: nat, now: int, stale: int, ok: bool): seq<Step> {
    seq(n, i requires 0 <= i < n => Move(t, now, stale, ok))
  }

  lemma {:induction false} StepsAppend(t: nat, m: nat, n: nat, now: int, stale: int, ok: bool)
    ensures Steps(t, m, now, stale, ok) + Steps(t, n, now, stale, ok) == Steps(t, m + n, now, stale, ok)
  {
  }

  lemma {:induction false} NoStep(s: State, t: nat, now: int, stale: int, ok: bool)
    ensures Run(s, Steps(t, 0, now, stale, ok)) == s
  {
    assert Steps(t, 0, now, stale, ok) == [];
  }

  /** One step, then `n` more. */
  lemma {:induction false} StepThen(s: State, t: nat, n: nat, now: int, stale: int, ok: bool)
    ensures Run(s, Steps(t, n + 1, now, stale, ok)) ==
      Run(Next(s, Move(t, now, stale, ok)), Steps(t, n, now, stale, ok))
  {
    hide Next;
    var steps := Steps(t, n + 1, now, stale, ok);
    assert steps[0] == Move(t, now, stale, ok) && steps[1..] == Steps(t, n, now, stale, ok);
  }

  /** `m` steps, then `n` more. */
  lemma {:induction false} StepsThen(s: State, t: nat, m: nat, n: nat, now: int, stale: int, ok: bool)
    ensures Run(s, Steps(t, m + n, now, stale, ok)) ==
      Run(Run(s, Steps(t, m, now, stale, ok)), Steps(t, n, now, stale, ok))
  {
    hide Next, Run;
    StepsAppend(t, m, n, now, stale, ok);
    RunAppend(s, Steps(t, m, now, stale, ok), Steps(t, n, now, stale, ok));
  }

  // ------------------------------------------------------------------ the stores of a call

  /** The state after the code of a call: waiting for the mutex, or returned without a publish. */
  function AfterCode(s: State, t: nat, call: Call, outcome: Outcome): State {
    if outcome.publishes then s.(atomics := outcome.atomics, tasks := s.tasks[t := Preparing(call, [])])
    else Finish(s.(atomics := outcome.atomics), t, Returned(call, false))
  }

  lemma {:induction false} AfterCodeLocal(s: State, t: nat, call: Call, a: Atomics, code: seq<Instr>, outcome: Outcome)
    ensures AfterCode(s.(atomics := a, tasks := s.tasks[t := Preparing(call, code)]), t, call, outcome) ==
      AfterCode(s, t, call, outcome)
  {
    OverwriteKey(s.tasks, t, Preparing(call, code), Preparing(call, []));
    assert s.tasks[t := Preparing(call, code)] - {t} == s.tasks - {t};
  }

  lemma {:induction false} CodeAlone(s: State, t: nat, call: Call, code: seq<Instr>, now: int, stale: int, ok: bool)
    returns (n: nat)
    requires t in s.tasks && s.tasks[t] == Preparing(call, code)
    ensures Run(s, Steps(t, n, now, stale, ok)) == AfterCode(s, t, call, Exec(s.atomics, code))
    decreases |code|
  {
    hide Run, Steps;
    if code == [] {
      n := 0;
      NoStep(s, t, now, stale, ok);
      assert s.tasks[t := Preparing(call, [])] == s.tasks;
    } else {
      var next := Next(s, Move(t, now, stale, ok));
      assert next == Prepare(s, t, call, code);
      if Quits(s.atomics, code[0]) {
        n := 1;
        StepThen(s, t, 0, now, stale, ok);
        NoStep(next, t, now, stale, ok);
      } else {
        var rest := Remaining(s.atomics, code);
        var m := CodeAlone(next, t, call, rest, now, stale, ok);
        n := m + 1;
        StepThen(s, t, m, now, stale, ok);
        AfterCodeLocal(s, t, call, next.atomics, rest, Exec(s.atomics, code));
      }
    }
  }

  // ------------------------------------------------------------------ the publish

  /** What the loads of a publish leave in the registers, from load `pc` on. */
  function Loaded(regs: Regs, a: Atomics, pc: nat): Regs
    decreases |PUBLISH| - pc
  {
    if pc >= |PUBLISH| then regs
    else
      var regs' := LoadInto(regs, a, PUBLISH[pc]);
      if PUBLISH[pc].Connected? && !RawConnected(regs') then regs' else Loaded(regs', a, pc + 1)
  }

  lemma {:induction false} LoadNext(s: State, t: nat, call: Call, pc: nat, regs: Regs, now: int, stale: int, ok: bool)
    requires t in s.tasks && s.tasks[t] == Publishing(call, pc, regs) && pc < |PUBLISH|
    ensures Next(s, Move(t, now, stale, ok)) ==
      var regs' := LoadInto(regs, s.atomics, PUBLISH[pc]);
      var pc' := if PUBLISH[pc].Connected? && !RawConnected(regs') then |PUBLISH| else pc + 1;
      s.(tasks := s.tasks[t := Publishing(call, pc', regs')])
  {
    hide LoadInto, RawConnected;
  }

  lemma {:induction false} LoadsAlone(s: State, t: nat, call: Call, pc: nat, regs: Regs, now: int, stale: int, ok: bool)
    returns (n: nat)
    requires t in s.tasks && s.tasks[t] == Publishing(call, pc, regs) && pc <= |PUBLISH|
    ensures Run(s, Steps(t, n, now, stale, ok)) ==
      s.(tasks := s.tasks[t := Publishing(call, |PUBLISH|, Loaded(regs, s.atomics, pc))])
    decreases |PUBLISH| - pc
  {
    hide Run, Steps, LoadInto, RawConnected, Next;
    if pc == |PUBLISH| {
      n := 0;
      NoStep(s, t, now, stale, ok);
      assert s.tasks[t := Publishing(call, pc, regs)] == s.tasks;
    } else {
      var regs' := LoadInto(regs, s.atomics, PUBLISH[pc]);
      var pc' := if PUBLISH[pc].Connected? && !RawConnected(regs') then |PUBLISH| else pc + 1;
      var next := Next(s, Move(t, now, stale, ok));
      LoadNext(s, t, call, pc, regs, now, stale, ok);
      var m := LoadsAlone(next, t, call, pc', regs', now, stale, ok);
      n := m + 1;
      StepThen(s, t, m, now, stale, ok);
      OverwriteKey(s.tasks, t, Publishing(call, pc', regs'), Publishing(call, |PUBLISH|, Loaded(regs, s.atomics, pc)));
    }
  }

  /** The first six loads. */
  lemma {:induction false} FirstLoads(a: Atomics, now: int, stale: int)
    ensures var regs := Regs(now, stale, a.draining, a.shuttingDown, a.generation, a.connectedGeneration, a.lastRx,
                             a.connected, 0, 0, 0);
      Loaded(NewRegs(now, stale), a, 0) == if RawConnected(regs) then Loaded(regs, a, 6) else regs
  {
    var r0 := NewRegs(now, stale);
    var r1 := r0.(draining := a.draining);
    var r2 := r1.(shuttingDown := a.shuttingDown);
    var r3 := r2.(generation := a.generation);
    var r4 := r3.(connectedGeneration := a.connectedGeneration);
    var r5 := r4.(lastRx := a.lastRx);
    assert Loaded(r0, a, 0) == Loaded(r1, a, 1);
    assert Loaded(r1, a, 1) == Loaded(r2, a, 2);
    assert Loaded(r2, a, 2) == Loaded(r3, a, 3);
    assert Loaded(r3, a, 3) == Loaded(r4, a, 4);
    assert Loaded(r4, a, 4) == Loaded(r5, a, 5);
  }

  lemma {:induction false} LastLoads(a: Atomics, regs: Regs)
    ensures Loaded(regs, a, 6) == regs.(freshGeneration := a.generation,
        freshConnectedGeneration := a.connectedGeneration,
                                        freshLastRx := a.lastRx)
  {
    var r6 := regs.(freshGeneration := a.generation);
    var r7 := r6.(freshConnectedGeneration := a.connectedGeneration);
    assert Loaded(regs, a, 6) == Loaded(r6, a, 7);
    assert Loaded(r6, a, 7) == Loaded(r7, a, 8);
    assert Loaded(r7, a, 8) == Loaded(r7.(freshLastRx := a.lastRx), a, 9);
  }

  /** Loads that nothing interrupts read the snapshot. */
  lemma {:induction false} LoadedIsSnapshot(a: Atomics, now: int, stale: int)
    ensures RecordOf(Loaded(NewRegs(now, stale), a, 0)) == Snapshot(a, now, stale)
  {
    hide Loaded;
    FirstLoads(a, now, stale);
    LastLoads(a, Regs(now, stale, a.draining, a.shuttingDown, a.generation, a.connectedGeneration, a.lastRx,
                      a.connected, 0, 0, 0));
  }

  /** The state after a publish that nothing interrupts. */
  function AfterPublish(s: State, t: nat, call: Call, now: int, stale: int, ok: bool): State {
    var record := Snapshot(s.atomics, now, stale);
    var locked := s.(lockDraining := s.atomics.draining, lockShuttingDown := s.atomics.shuttingDown);
    var written :=
      if ok then
        locked.(file := Some(record), log := s.log + [Wrote(record)], quiet := s.quiet || Sealed(locked),
                drained := s.drained || locked.lockDraining)
      else locked;
    Finish(written, t, Returned(call, ok))
  }

  lemma {:induction false} WriteAlone(s: State, t: nat, call: Call, regs: Regs, now: int, stale: int, ok: bool)
    requires t in s.tasks && s.tasks[t] == Publishing(call, |PUBLISH|, regs)
    ensures Run(s, Steps(t, 2, now, stale, ok)) ==
      var written :=
        if ok then
          s.(file := Some(RecordOf(regs)), log := s.log + [Wrote(RecordOf(regs))], quiet := s.quiet || Sealed(s),
             drained := s.drained || s.lockDraining)
        else s;
      Finish(written.(holder := None), t, Returned(call, ok))
  {
    hide Run, Steps, RecordOf;
    var s1 := Next(s, Move(t, now, stale, ok));
    var s2 := Next(s1, Move(t, now, stale, ok));
    assert s1 == Publish(s, t, call, |PUBLISH|, regs, ok);
    assert s1.tasks[t] == Releasing(call, ok);
    StepThen(s, t, 1, now, stale, ok);
    StepThen(s1, t, 0, now, stale, ok);
    NoStep(s2, t, now, stale, ok);
    assert s.tasks[t := Releasing(call, ok)] - {t} == s.tasks - {t};
  }

  lemma {:induction false} PublishAlone(s: State, t: nat, call: Call, now: int, stale: int, ok: bool) returns (n: nat)
    requires t in s.tasks && s.tasks[t] == Preparing(call, []) && s.holder.None? && s.publisher
    ensures Run(s, Steps(t, n, now, stale, ok)) == AfterPublish(s, t, call, now, stale, ok)
  {
    hide Run, Steps, RecordOf, Snapshot, Loaded;
    var regs := NewRegs(now, stale);
    var s1 := Next(s, Move(t, now, stale, ok));
    assert s1 == Lock(s, t, call, now, stale);
    var m := LoadsAlone(s1, t, call, 0, regs, now, stale, ok);
    var s2 := Run(s1, Steps(t, m, now, stale, ok));
    WriteAlone(s2, t, call, Loaded(regs, s.atomics, 0), now, stale, ok);
    LoadedIsSnapshot(s.atomics, now, stale);
    StepThen(s, t, m + 2, now, stale, ok);
    StepsThen(s1, t, m, 2, now, stale, ok);
    n := m + 3;
    assert s2.tasks - {t} == s.tasks - {t};
  }

  // ------------------------------------------------------------------ whole calls

  /**
   A call that nothing interrupts: the atomics, the record on disk and what it
   returns are those of the call in sequence, and no other thread is touched.
   */
  lemma {:induction false} CallAlone(s: State, t: nat, call: Call, now: int, stale: int, ok: bool) returns (n: nat)
    requires t !in s.tasks && s.holder.None? && s.publisher
    ensures var s' := Run(s, [Begin(t, call)] + Steps(t, n, now, stale, ok));
      var outcome := Exec(s.atomics, Code(call));
      var record := Snapshot(outcome.atomics, now, stale);
      && s'.atomics == outcome.atomics && s'.tasks == s.tasks && s'.holder == None && s'.publisher
      && s'.file == (if outcome.publishes && ok then Some(record) else s.file)
      && s'.log == s.log + (if outcome.publishes && ok then [Wrote(record)] else [])
                         + [Returned(call, outcome.publishes && ok)]
  {
    hide Run, Steps, Exec, Code, Snapshot, Next;
    var outcome := Exec(s.atomics, Code(call));
    var begun := Next(s, Begin(t, call));
    Begun(s, t, call);
    var m := CodeAlone(begun, t, call, Code(call), now, stale, ok);
    n := m;
    var coded := Run(begun, Steps(t, m, now, stale, ok));
    assert s.tasks[t := Preparing(call, Code(call))] - {t} == s.tasks;
    if outcome.publishes {
      var k := PublishAlone(coded, t, call, now, stale, ok);
      n := m + k;
      StepsThen(begun, t, m, k, now, stale, ok);
      assert coded.tasks - {t} == s.tasks;
    }
    AppendEmpty(s.log);
    BeginThen(s, t, call, Steps(t, n, now, stale, ok));
  }

  lemma {:induction false} Begun(s: State, t: nat, call: Call)
    requires t !in s.tasks
    ensures Next(s, Begin(t, call)) == s.(tasks := s.tasks[t := Preparing(call, Code(call))])
  {
  }

  lemma {:induction false} BeginThen(s: State, t: nat, call: Call, steps: seq<Step>)
    ensures Run(s, [Begin(t, call)] + steps) == Run(Next(s, Begin(t, call)), steps)
  {
    hide Next;
    var all := [Begin(t, call)] + steps;
    assert all[0] == Begin(t, call) && all[1..] == steps;
  }

  // ------------------------------------------------------------------ whole queries

  /** The rest of a query that nothing interrupts: its answer. */
  function Answer(regs: Regs, a: Atomics, pc: nat): bool
    decreases |QUERY| - pc
  {
    if pc >= |QUERY| then FreshRegs(regs)
    else
      var regs' := LoadInto(regs, a, QUERY[pc]);
      !Denies(regs', QUERY[pc]) && Answer(regs', a, pc + 1)
  }

  /** One step of a query: its answer, or one load further. */
  lemma {:induction false} AskNext(s: State, t: nat, pc: nat, regs: Regs, draining: bool, shuttingDown: bool,
      now: int, stale: int, ok: bool)
    requires t in s.tasks && s.tasks[t] == Asking(pc, regs, draining, shuttingDown) && pc <= |QUERY|
    ensures Next(s, Move(t, now, stale, ok)) ==
      if pc == |QUERY| then Finish(s, t, Answered(draining || shuttingDown, FreshRegs(regs)))
      else
        var regs' := LoadInto(regs, s.atomics, QUERY[pc]);
        if Denies(regs', QUERY[pc]) then Finish(s, t, Answered(draining || shuttingDown, false))
        else s.(tasks := s.tasks[t := Asking(pc + 1, regs', draining, shuttingDown)])
  {
    hide LoadInto, Denies, FreshRegs;
  }

  /** A task that ends leaves nothing behind. */
  lemma {:induction false} FinishForgets(s: State, t: nat, task: Task, event: Event)
    ensures Finish(s.(tasks := s.tasks[t := task]), t, event) == Finish(s, t, event)
  {
    assert s.tasks[t := task] - {t} == s.tasks - {t};
  }

  lemma {:induction false} FinishNew(s: State, t: nat, task: Task, event: Event)
    requires t !in s.tasks
    ensures Finish(s.(tasks := s.tasks[t := task]), t, event) == s.(log := s.log + [event])
  {
    assert s.tasks[t := task] - {t} == s.tasks;
  }

  lemma {:induction false} AskAlone(s: State, t: nat, pc: nat, regs: Regs, draining: bool, shuttingDown: bool,
      now: int, stale: int, ok: bool) returns (n: nat)
    requires t in s.tasks && s.tasks[t] == Asking(pc, regs, draining, shuttingDown) && pc <= |QUERY|
    ensures Run(s, Steps(t, n, now, stale, ok)) ==
      Finish(s, t, Answered(draining || shuttingDown, Answer(regs, s.atomics, pc)))
    decreases |QUERY| - pc
  {
    hide Run, Steps, LoadInto, Denies, FreshRegs, Next, Finish;
    AskNext(s, t, pc, regs, draining, shuttingDown, now, stale, ok);
    var next := Next(s, Move(t, now, stale, ok));
    if pc == |QUERY| {
      n := 1;
      StepThen(s, t, 0, now, stale, ok);
      NoStep(next, t, now, stale, ok);
    } else {
      var regs' := LoadInto(regs, s.atomics, QUERY[pc]);
      if Denies(regs', QUERY[pc]) {
        n := 1;
        StepThen(s, t, 0, now, stale, ok);
        NoStep(next, t, now, stale, ok);
      } else {
        var m := AskAlone(next, t, pc + 1, regs', draining, shuttingDown, now, stale, ok);
        n := m + 1;
        StepThen(s, t, m, now, stale, ok);
        FinishForgets(s, t, next.tasks[t], Answered(draining || shuttingDown, Answer(regs, s.atomics, pc)));
      }
    }
  }

  lemma {:induction false} AnswerIsReady(a: Atomics, now: int, stale: int)
    ensures Answer(NewRegs(now, stale), a, 0) == Snapshot(a, now, stale).ready
  {
    var r0 := NewRegs(now, stale);
    var r1 := r0.(connected := a.connected);
    var r2 := r1.(draining := a.draining);
    var r3 := r2.(shuttingDown := a.shuttingDown);
    var r4 := r3.(freshGeneration := a.generation);
    var r5 := r4.(freshConnectedGeneration := a.connectedGeneration);
    var r6 := r5.(freshLastRx := a.lastRx);
    assert Answer(r0, a, 0) == (a.connected && Answer(r1, a, 1));
    assert Answer(r1, a, 1) == (!a.draining && Answer(r2, a, 2));
    assert Answer(r2, a, 2) == (!a.shuttingDown && Answer(r3, a, 3));
    assert Answer(r3, a, 3) == Answer(r4, a, 4);
    assert Answer(r4, a, 4) == Answer(r5, a, 5);
    assert Answer(r5, a, 5) == Answer(r6, a, 6);
  }

  /** A query that nothing interrupts answers yes exactly when a record published at that moment would be ready. */
  lemma {:induction false} QueryAlone(s: State, t: nat, now: int, stale: int) returns (n: nat)
    requires t !in s.tasks
    ensures var s' := Run(s, [BeginQuery(t, now, stale)] + Steps(t, n, now, stale, true));
      s' == s.(log := s.log + [Answered(s.atomics.draining
        || s.atomics.shuttingDown, Snapshot(s.atomics, now, stale).ready)])
  {
    hide Run, Steps, Snapshot, Answer, Next, Finish, NewRegs;
    QueryBegun(s, t, now, stale);
    var a, regs := s.atomics, NewRegs(now, stale);
    var begun := Next(s, BeginQuery(t, now, stale));
    n := AskAlone(begun, t, 0, regs, a.draining, a.shuttingDown, now, stale, true);
    AnswerIsReady(a, now, stale);
    QueryThen(s, t, now, stale, Steps(t, n, now, stale, true));
    FinishNew(s, t, Asking(0, regs, a.draining, a.shuttingDown),
      Answered(a.draining || a.shuttingDown, Answer(regs, a, 0)));
  }

  lemma {:induction false} QueryBegun(s: State, t: nat, now: int, stale: int)
    requires t !in s.tasks
    ensures Next(s, BeginQuery(t, now, stale)) ==
      s.(tasks := s.tasks[t := Asking(0, NewRegs(now, stale), s.atomics.draining, s.atomics.shuttingDown)])
  {
  }

  lemma {:induction false} QueryThen(s: State, t: nat, now: int, stale: int, steps: seq<Step>)
    ensures Run(s, [BeginQuery(t, now, stale)] + steps) == Run(Next(s, BeginQuery(t, now, stale)), steps)
  {
    hide Next;
    var all := [BeginQuery(t, now, stale)] + steps;
    assert all[0] == BeginQuery(t, now, stale) && all[1..] == steps;
  }
}
