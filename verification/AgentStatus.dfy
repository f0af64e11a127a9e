/**
 The remote agent's status object (crates/cdr-remote-agent/src/status.rs): six
 atomics, a publisher mutex and the status record written to disk. Each operation
 is a short program of atomic loads and stores.
 */
module AgentStatus {
  import opened Options
  import opened Sequences

  /** The fields of the status record that change while a process runs. */
  datatype Record = Record(
    helloAck: bool, ready: bool, draining: bool, generation: nat,
    updatedAt: int, heartbeatAt: int, verifiedAt: Option<int>)

  /** `publish_with_timestamps`: a draining record is never ready. */
  function MakeRecord(helloAck: bool, ready: bool, draining: bool, generation: nat,
                      updatedAt: int, heartbeatAt: int, verifiedAt: Option<int>): (record: Record)
    ensures record.ready <==> ready && record.helloAck
    ensures record.helloAck <==> helloAck && !record.draining
    ensures record.draining == draining && record.generation == generation
    ensures record.updatedAt == updatedAt && record.heartbeatAt == heartbeatAt && record.verifiedAt == verifiedAt
  {
    Record(
      helloAck && !draining, ready && helloAck && !draining, draining, generation,
      updatedAt, heartbeatAt, verifiedAt)
  }

  datatype Atomics = Atomics(
    connected: bool, draining: bool, shuttingDown: bool,
    generation: nat, connectedGeneration: nat, lastRx: int)

  const INITIAL: Atomics := Atomics(false, false, false, 0, 0, 0)

  /** The test of `has_fresh_bridge_liveness` on the loaded values. */
  predicate Fresh(generation: nat, connectedGeneration: nat, lastRx: int, now: int, stale: int) {
    generation > 0 && connectedGeneration == generation && lastRx > 0 && lastRx <= now + 2_000 && now - lastRx <= stale
  }

  // ------------------------------------------------------------------ operations as programs

  datatype Call =
    | SetConnected(generation: nat, now: int)
    | SetDisconnected
    | MarkDraining
    | MarkShuttingDown
    | RecordHeartbeat
    | RecordInbound(generation: nat, now: int)

  datatype Instr =
    | StoreDraining
    | StoreShuttingDown
    | StoreConnected(value: bool)
    | StoreGeneration(generation: nat)
    | StoreConnectedGeneration(generation: nat)
    | StoreLastRx(time: int)
    | SkipIfDraining(count: nat)
    | SkipIfShuttingDown(count: nat)
    | QuitIfDraining
    | QuitIfShuttingDown
    | QuitUnlessConnected
    | QuitUnlessGeneration(generation: nat)
    | Quit

  const CLEAR: seq<Instr> := [StoreConnected(false), StoreConnectedGeneration(0), StoreLastRx(0)]

  /** What a call does before it publishes a snapshot. */
  function Code(call: Call): seq<Instr> {
    match call
    case SetConnected(g, now) =>
      [StoreGeneration(g), SkipIfDraining(4), SkipIfShuttingDown(3),
       StoreConnectedGeneration(g), StoreLastRx(now), StoreConnected(true)]
    case SetDisconnected => CLEAR
    case MarkDraining => [StoreDraining] + CLEAR
    case MarkShuttingDown => [StoreShuttingDown] + CLEAR
    case RecordHeartbeat => []
    case RecordInbound(g, now) =>
      if g == 0 then [Quit]
      else [QuitIfDraining, QuitIfShuttingDown, QuitUnlessConnected, QuitUnlessGeneration(g),
            StoreConnectedGeneration(g), StoreLastRx(now)]
  }

  predicate Closes(call: Call) { call.MarkDraining? || call.MarkShuttingDown? }

  function Store(a: Atomics, instr: Instr): Atomics {
    match instr
    case StoreDraining => a.(draining := true)
    case StoreShuttingDown => a.(shuttingDown := true)
    case StoreConnected(value) => a.(connected := value)
    case StoreGeneration(g) => a.(generation := g)
    case StoreConnectedGeneration(g) => a.(connectedGeneration := g)
    case StoreLastRx(time) => a.(lastRx := time)
    case _ => a
  }

  predicate Quits(a: Atomics, instr: Instr) {
    match instr
    case QuitIfDraining => a.draining
    case QuitIfShuttingDown => a.shuttingDown
    case QuitUnlessConnected => !a.connected
    case QuitUnlessGeneration(g) => a.generation != g
    case Quit => true
    case _ => false
  }

  function Skips(a: Atomics, instr: Instr): nat {
    match instr
    case SkipIfDraining(count) => if a.draining then count else 0
    case SkipIfShuttingDown(count) => if a.shuttingDown then count else 0
    case _ => 0
  }

  /** The instructions after the first one, given what it loaded. */
  function Remaining(a: Atomics, code: seq<Instr>): (rest: seq<Instr>)
    requires code != []
    ensures |rest| < |code|
  {
    var next := 1 + Skips(a, code[0]);
    if next <= |code| then code[next..] else []
  }

  // ------------------------------------------------------------------ interleavings

  datatype Load =
    | Draining | ShuttingDown | Generation | ConnectedGeneration | LastRx | Connected
    | FreshGeneration | FreshConnectedGeneration | FreshLastRx

  /** Loads of `publish_snapshot`, in order; the last three only when the connection looks raw-connected. */
  const PUBLISH: seq<Load> :=
    [Draining, ShuttingDown, Generation, ConnectedGeneration, LastRx, Connected,
     FreshGeneration, FreshConnectedGeneration, FreshLastRx]

  /** Loads of `is_connected`, in order; the first that decides against ends the call. */
  const QUERY: seq<Load> :=
    [Connected, Draining, ShuttingDown, FreshGeneration, FreshConnectedGeneration, FreshLastRx]

  datatype Regs = Regs(
    now: int, stale: int, draining: bool, shuttingDown: bool, generation: nat, connectedGeneration: nat, lastRx: int,
    connected: bool, freshGeneration: nat, freshConnectedGeneration: nat, freshLastRx: int)

  function NewRegs(now: int, stale: int): Regs {
    Regs(now, stale, false, false, 0, 0, 0, false, 0, 0, 0)
  }

  function LoadInto(r: Regs, a: Atomics, load: Load): Regs {
    match load
    case Draining => r.(draining := a.draining)
    case ShuttingDown => r.(shuttingDown := a.shuttingDown)
    case Generation => r.(generation := a.generation)
    case ConnectedGeneration => r.(connectedGeneration := a.connectedGeneration)
    case LastRx => r.(lastRx := a.lastRx)
    case Connected => r.(connected := a.connected)
    case FreshGeneration => r.(freshGeneration := a.generation)
    case FreshConnectedGeneration => r.(freshConnectedGeneration := a.connectedGeneration)
    case FreshLastRx => r.(freshLastRx := a.lastRx)
  }

  predicate RawConnected(r: Regs) { r.connected && !r.draining && !r.shuttingDown }

  predicate FreshRegs(r: Regs) {
    Fresh(r.freshGeneration, r.freshConnectedGeneration, r.freshLastRx, r.now, r.stale)
  }

  /** The record that `publish_snapshot` writes from what it loaded. */
  function RecordOf(r: Regs): Record {
    var live := RawConnected(r) && FreshRegs(r);
    var verified :=
      if RawConnected(r) && r.generation > 0 && r.connectedGeneration == r.generation && r.lastRx > 0
      then Some(r.lastRx) else None;
    MakeRecord(live, live, r.draining, r.generation, if verified.Some? then verified.value else r.now, r.now, verified)
  }

  /**
   A running operation: before its publish (waiting for the mutex once its code
   is empty), inside it, about to release the mutex, or a query. A query keeps
   which flags were set when it began.
   */
  datatype Task =
    | Preparing(call: Call, code: seq<Instr>)
    | Publishing(call: Call, pc: nat, regs: Regs)
    | Releasing(call: Call, wrote: bool)
    | Asking(pc: nat, regs: Regs, begunDraining: bool, begunShuttingDown: bool)

  datatype Event =
    | Wrote(record: Record)
    | Returned(call: Call, wrote: bool)
    | Answered(begunClosing: bool, connected: bool)

  /**
   `lockDraining`, `lockShuttingDown` remember the flags at the last acquisition of
   the mutex, `quiet` that a record was written under such an acquisition,
   `drained` that one was with the drain flag set, and
   `log` everything observable.
   */
  datatype State = State(
    atomics: Atomics, holder: Option<nat>, publisher: bool, file: Option<Record>, tasks: map<nat, Task>,
    lockDraining: bool, lockShuttingDown: bool, quiet: bool, drained: bool, log: seq<Event>)

  const START: State := State(INITIAL, None, false, None, map[], false, false, false, false, [])

  datatype Step =
    | Begin(thread: nat, call: Call)
    | BeginQuery(thread: nat, now: int, stale: int)
    | AttachPublisher
    | Move(thread: nat, now: int, stale: int, writeSucceeds: bool)

  function Finish(s: State, t: nat, event: Event): State {
    s.(tasks := s.tasks - {t}, log := s.log + [event])
  }

  function Prepare(s: State, t: nat, call: Call, code: seq<Instr>): State
    requires code != []
  {
    if Quits(s.atomics, code[0]) then Finish(s, t, Returned(call, false))
    else
      s.(atomics := Store(s.atomics, code[0]), tasks := s.tasks[t := Preparing(call, Remaining(s.atomics, code))])
  }

  function Lock(s: State, t: nat, call: Call, now: int, stale: int): State {
    if s.holder.Some? then s
    else
      s.(holder := Some(t), lockDraining := s.atomics.draining, lockShuttingDown := s.atomics.shuttingDown,
         tasks := s.tasks[
           t := if s.publisher then Publishing(call, 0, NewRegs(now, stale)) else Releasing(call, false)])
  }

  predicate Sealed(s: State) { s.lockDraining || s.lockShuttingDown }

  function Publish(s: State, t: nat, call: Call, pc: nat, regs: Regs, writeSucceeds: bool): State {
    if pc < |PUBLISH| then
      var regs' := LoadInto(regs, s.atomics, PUBLISH[pc]);
      var pc' := if PUBLISH[pc].Connected? && !RawConnected(regs') then |PUBLISH| else pc + 1;
      s.(tasks := s.tasks[t := Publishing(call, pc', regs')])
    else
      var s' := s.(tasks := s.tasks[t := Releasing(call, writeSucceeds)]);
      if writeSucceeds then
        s'.(file := Some(RecordOf(regs)), log := s.log + [Wrote(RecordOf(regs))],
            quiet := s.quiet || Sealed(s), drained := s.drained || s.lockDraining)
      else s'
  }

  /** The loaded value already decides that the query answers no. */
  predicate Denies(r: Regs, load: Load) {
    match load
    case Connected => !r.connected
    case Draining => r.draining
    case ShuttingDown => r.shuttingDown
    case _ => false
  }

  function Ask(s: State, t: nat, task: Task): State
    requires task.Asking?
  {
    var closing := task.begunDraining || task.begunShuttingDown;
    if task.pc < |QUERY| then
      var regs := LoadInto(task.regs, s.atomics, QUERY[task.pc]);
      if Denies(regs, QUERY[task.pc]) then Finish(s, t, Answered(closing, false))
      else s.(tasks := s.tasks[t := task.(pc := task.pc + 1, regs := regs)])
    else Finish(s, t, Answered(closing, FreshRegs(task.regs)))
  }

  function Advance(s: State, t: nat, now: int, stale: int, writeSucceeds: bool): State
    requires t in s.tasks
  {
    match s.tasks[t]
    case Preparing(call, code) => if code != [] then Prepare(s, t, call, code) else Lock(s, t, call, now, stale)
    case Publishing(call, pc, regs) => Publish(s, t, call, pc, regs, writeSucceeds)
    case Releasing(call, wrote) => Finish(s.(holder := None), t, Returned(call, wrote))
    case Asking(_, _, _, _) => Ask(s, t, s.tasks[t])
  }

  /** One atomic step of one thread; a step that is not possible leaves the state as it is. */
  function Next(s: State, step: Step): State {
    match step
    case Begin(t, call) => if t in s.tasks then s else s.(tasks := s.tasks[t := Preparing(call, Code(call))])
    case BeginQuery(t, now, stale) =>
      if t in s.tasks then s
      else s.(tasks := s.tasks[t := Asking(0, NewRegs(now, stale), s.atomics.draining, s.atomics.shuttingDown)])
    case AttachPublisher => if s.holder.Some? then s else s.(publisher := true)
    case Move(t, now, stale, ok) => if t in s.tasks then Advance(s, t, now, stale, ok) else s
  }

  function Run(s: State, steps: seq<Step>): State
    decreases |steps|
  {
    if steps == [] then s else Run(Next(s, steps[0]), steps[1..])
  }

  // ------------------------------------------------------------------ the invariant

  /** A closing call has stored its flag once it has left its first instruction. */
  predicate FlagStored(a: Atomics, call: Call) {
    (call.MarkDraining? ==> a.draining) && (call.MarkShuttingDown? ==> a.shuttingDown)
  }

  predicate FlagLocked(s: State, call: Call) {
    (call.MarkDraining? ==> s.lockDraining) && (call.MarkShuttingDown? ==> s.lockShuttingDown)
  }

  predicate MayQuit(instr: Instr) {
    instr.QuitIfDraining? || instr.QuitIfShuttingDown? || instr.QuitUnlessConnected?
      || instr.QuitUnlessGeneration? || instr.Quit?
  }

  predicate TaskInv(s: State, t: nat, task: Task) {
    match task
    case Preparing(call, code) =>
      && s.holder != Some(t) && (code == Code(call) || FlagStored(s.atomics, call))
      && (Closes(call) ==> forall i | 0 <= i < |code| :: !MayQuit(code[i]))
    case Publishing(call, pc, regs) =>
      && s.holder == Some(t) && FlagLocked(s, call) && pc <= |PUBLISH|
      && (pc > 0 && s.lockDraining ==> regs.draining)
      && (pc > 1 && s.lockShuttingDown ==> regs.shuttingDown)
    case Releasing(call, wrote) =>
      && s.holder == Some(t) && FlagLocked(s, call)
      && (Closes(call) && wrote ==> s.quiet) && (call.MarkDraining? && wrote ==> s.drained)
    case Asking(pc, regs, begunDraining, begunShuttingDown) =>
      && s.holder != Some(t) && pc <= |QUERY|
      && (begunDraining ==> s.atomics.draining && pc <= 1)
      && (begunShuttingDown ==> s.atomics.shuttingDown && pc <= 2)
  }

  /**
   What was promised so far: the mutex was taken while closing, a record not ready
   was written, a draining one was.
   */
  datatype Seal = Seal(closed: bool, quiet: bool, drained: bool)

  function SealOf(s: State): Seal { Seal(Sealed(s), s.quiet, s.drained) }

  predicate Holds(before: Seal, after: Seal) {
    (before.closed ==> after.closed) && (before.quiet ==> after.quiet) && (before.drained ==> after.drained)
  }

  predicate LogInv(log: seq<Event>, seal: Seal) {
    && (forall i | 0 <= i < |log| ::
          && (log[i].Returned? && Closes(log[i].call) ==> seal.closed && (log[i].wrote ==> seal.quiet))
          && (log[i].Returned? && log[i].call.MarkDraining? && log[i].wrote ==> seal.drained)
          && (log[i].Answered? && log[i].begunClosing ==> !log[i].connected))
    && (forall i, j | 0 <= i < j < |log| ::
          log[i].Returned? && Closes(log[i].call) && log[j].Wrote? ==> !log[j].record.ready)
  }

  predicate Inv(s: State) {
    && (forall t | t in s.tasks :: TaskInv(s, t, s.tasks[t]))
    && (s.holder.Some? ==> s.holder.value in s.tasks)
    && (s.lockDraining ==> s.atomics.draining)
    && (s.lockShuttingDown ==> s.atomics.shuttingDown)
    && (s.quiet ==> s.file.Some? && !s.file.value.ready && Sealed(s))
    && (s.drained ==> s.file.Some? && s.file.value.draining && s.lockDraining)
    && LogInv(s.log, SealOf(s))
  }

  lemma {:induction false} LogAppend(log: seq<Event>, seal: Seal, seal': Seal, event: Event)
    requires LogInv(log, seal) && Holds(seal, seal')
    requires event.Wrote? && seal.closed ==> !event.record.ready
    requires event.Returned? && Closes(event.call) ==> seal'.closed && (event.wrote ==> seal'.quiet)
    requires event.Returned? && event.call.MarkDraining? && event.wrote ==> seal'.drained
    requires event.Answered? && event.begunClosing ==> !event.connected
    ensures LogInv(log + [event], seal')
  {
    var log' := log + [event];
    forall i, j | 0 <= i < j < |log'| && log'[i].Returned? && Closes(log'[i].call) && log'[j].Wrote?
      ensures !log'[j].record.ready
    {
      assert log'[i] == log[i];
    }
  }

  /** The shared state moved only forward, and not under the mutex. */
  predicate Forward(s: State, s': State) {
    && s'.holder == s.holder && s'.lockDraining == s.lockDraining && s'.lockShuttingDown == s.lockShuttingDown
    && (s.atomics.draining ==> s'.atomics.draining) && (s.atomics.shuttingDown ==> s'.atomics.shuttingDown)
    && (s.quiet ==> s'.quiet) && (s.drained ==> s'.drained)
  }

  lemma {:induction false} ForwardKeeps(s: State, s': State, t: nat)
    requires Inv(s) && t in s.tasks && Forward(s, s') && (t in s'.tasks || s.holder != Some(t))
    requires forall u | u in s.tasks && u != t :: u in s'.tasks
    requires forall u | u in s'.tasks :: u == t || (u in s.tasks && s'.tasks[u] == s.tasks[u])
    requires t in s'.tasks ==> TaskInv(s', t, s'.tasks[t])
    requires s'.quiet ==> s'.file.Some? && !s'.file.value.ready && Sealed(s)
    requires s'.drained ==> s'.file.Some? && s'.file.value.draining && s.lockDraining
    requires LogInv(s'.log, SealOf(s'))
    ensures Inv(s')
  {
    hide LogInv;
    forall u | u in s'.tasks && u != t ensures TaskInv(s', u, s'.tasks[u]) {
      assert TaskInv(s, u, s.tasks[u]);
    }
  }

  lemma {:induction false} TaskOf(s: State, t: nat)
    requires Inv(s) && t in s.tasks
    ensures TaskInv(s, t, s.tasks[t])
  {
    hide TaskInv, LogInv;
  }

  /** A task that moves on alone. */
  lemma {:induction false} TaskMoves(s: State, t: nat, task: Task)
    requires Inv(s) && t in s.tasks && TaskInv(s, t, task)
    ensures Inv(s.(tasks := s.tasks[t := task]))
  {
    hide LogInv;
    var s' := s.(tasks := s.tasks[t := task]);
    TaskInvLocal(s, s', t, task);
    ForwardKeeps(s, s', t);
  }

  /** The task invariant looks at no other task, and not at the log. */
  lemma {:induction false} TaskInvLocal(s: State, s': State, t: nat, task: Task)
    requires TaskInv(s, t, task) && Forward(s, s') && s'.atomics == s.atomics
    ensures TaskInv(s', t, task)
  {
  }

  /** A task without the mutex that ends, with an event that keeps the promises of the log. */
  lemma {:induction false} TaskEnds(s: State, t: nat, event: Event)
    requires Inv(s) && t in s.tasks && s.holder != Some(t) && !event.Wrote?
    requires event.Returned? ==> !Closes(event.call)
    requires event.Answered? && event.begunClosing ==> !event.connected
    ensures Inv(Finish(s, t, event))
  {
    hide LogInv, TaskInv;
    LogAppend(s.log, SealOf(s), SealOf(s), event);
    ForwardKeeps(s, Finish(s, t, event), t);
  }

  lemma {:induction false} StoreForward(a: Atomics, instr: Instr)
    ensures a.draining ==> Store(a, instr).draining
    ensures a.shuttingDown ==> Store(a, instr).shuttingDown
  {
  }

  lemma {:induction false} PrepareKeeps(s: State, t: nat, call: Call, code: seq<Instr>)
    requires Inv(s) && t in s.tasks && s.tasks[t] == Preparing(call, code) && code != []
    ensures Inv(Prepare(s, t, call, code))
  {
    var s' := Prepare(s, t, call, code);
    assert TaskInv(s, t, s.tasks[t]);
    if Quits(s.atomics, code[0]) {
      LogAppend(s.log, SealOf(s), SealOf(s), Returned(call, false));
    } else {
      StoreForward(s.atomics, code[0]);
      if Closes(call) {
        assert code == Code(call) ==> code[0] == if call.MarkDraining? then StoreDraining else StoreShuttingDown;
        assert FlagStored(s'.atomics, call);
      }
    }
    ForwardKeeps(s, s', t);
  }

  lemma {:induction false} LockKeeps(s: State, t: nat, call: Call, now: int, stale: int)
    requires Inv(s) && t in s.tasks && s.tasks[t] == Preparing(call, [])
    ensures Inv(Lock(s, t, call, now, stale))
  {
    assert Closes(call) ==> Code(call) != [];
    var s' := Lock(s, t, call, now, stale);
    assert LogInv(s.log, SealOf(s'));
  }

  lemma {:induction false} ClosedRegsNotReady(regs: Regs)
    ensures regs.draining || regs.shuttingDown ==> !RecordOf(regs).ready
    ensures regs.draining ==> RecordOf(regs).draining
  {
  }

  /** A publish loads the drain flag first and the shutdown flag second, and keeps both. */
  lemma {:induction false} PublishLoadsFlags(a: Atomics, regs: Regs, pc: nat)
    requires pc < |PUBLISH|
    ensures var regs' := LoadInto(regs, a, PUBLISH[pc]);
      && regs'.draining == (if pc == 0 then a.draining else regs.draining)
      && regs'.shuttingDown == (if pc == 1 then a.shuttingDown else regs.shuttingDown)
      && (PUBLISH[pc].Connected? ==> pc == 5)
  {
  }

  lemma {:induction false} WriteKeeps(s: State, t: nat, call: Call, regs: Regs)
    requires Inv(s) && t in s.tasks && s.tasks[t] == Publishing(call, |PUBLISH|, regs)
    ensures Inv(Publish(s, t, call, |PUBLISH|, regs, true))
  {
    hide LogInv, RecordOf;
    var s' := Publish(s, t, call, |PUBLISH|, regs, true);
    TaskOf(s, t);
    ClosedRegsNotReady(regs);
    LogAppend(s.log, SealOf(s), SealOf(s'), Wrote(RecordOf(regs)));
    ForwardKeeps(s, s', t);
  }

  lemma {:induction false} PublishKeeps(s: State, t: nat, call: Call, pc: nat, regs: Regs, ok: bool)
    requires Inv(s) && t in s.tasks && s.tasks[t] == Publishing(call, pc, regs)
    ensures Inv(Publish(s, t, call, pc, regs, ok))
  {
    hide Inv, LoadInto, RawConnected, RecordOf;
    TaskOf(s, t);
    if pc < |PUBLISH| {
      var regs' := LoadInto(regs, s.atomics, PUBLISH[pc]);
      PublishLoadsFlags(s.atomics, regs, pc);
      LocksHeld(s);
      var pc' := if PUBLISH[pc].Connected? && !RawConnected(regs') then |PUBLISH| else pc + 1;
      TaskMoves(s, t, Publishing(call, pc', regs'));
    } else if ok {
      WriteKeeps(s, t, call, regs);
    } else {
      TaskMoves(s, t, Releasing(call, false));
    }
  }

  lemma {:induction false} LocksHeld(s: State)
    requires Inv(s)
    ensures (s.lockDraining ==> s.atomics.draining) && (s.lockShuttingDown ==> s.atomics.shuttingDown)
  {
    hide TaskInv, LogInv;
  }

  lemma {:induction false} ReleaseKeeps(s: State, t: nat, call: Call, wrote: bool)
    requires Inv(s) && t in s.tasks && s.tasks[t] == Releasing(call, wrote)
    ensures Inv(Finish(s.(holder := None), t, Returned(call, wrote)))
  {
    LogAppend(s.log, SealOf(s), SealOf(s), Returned(call, wrote));
  }

  /** A query meets the drain flag second and the shutdown flag third. */
  lemma {:induction false} QueryMeetsFlags(a: Atomics, regs: Regs, pc: nat)
    requires pc < |QUERY|
    ensures (pc == 1 && a.draining) || (pc == 2 && a.shuttingDown) ==> Denies(LoadInto(regs, a, QUERY[pc]), QUERY[pc])
  {
  }

  lemma {:induction false} AskKeeps(s: State, t: nat)
    requires Inv(s) && t in s.tasks && s.tasks[t].Asking?
    ensures Inv(Ask(s, t, s.tasks[t]))
  {
    hide Inv, LoadInto, Denies, FreshRegs;
    var task := s.tasks[t];
    var closing := task.begunDraining || task.begunShuttingDown;
    TaskOf(s, t);
    if task.pc == |QUERY| {
      TaskEnds(s, t, Answered(closing, FreshRegs(task.regs)));
    } else {
      var regs := LoadInto(task.regs, s.atomics, QUERY[task.pc]);
      QueryMeetsFlags(s.atomics, task.regs, task.pc);
      if Denies(regs, QUERY[task.pc]) {
        TaskEnds(s, t, Answered(closing, false));
      } else {
        TaskMoves(s, t, Asking(task.pc + 1, regs, task.begunDraining, task.begunShuttingDown));
      }
    }
  }

  lemma {:induction false} AdvanceKeeps(s: State, t: nat, now: int, stale: int, ok: bool)
    requires Inv(s) && t in s.tasks
    ensures Inv(Advance(s, t, now, stale, ok))
  {
    match s.tasks[t]
    case Preparing(call, code) =>
      if code != [] { PrepareKeeps(s, t, call, code); } else { LockKeeps(s, t, call, now, stale); }
    case Publishing(call, pc, regs) => PublishKeeps(s, t, call, pc, regs, ok);
    case Releasing(call, wrote) => ReleaseKeeps(s, t, call, wrote);
    case Asking(_, _, _, _) => AskKeeps(s, t);
  }

  lemma {:induction false} BeginKeeps(s: State, t: nat, task: Task)
    requires Inv(s) && t !in s.tasks && TaskInv(s, t, task)
    ensures Inv(s.(tasks := s.tasks[t := task]))
  {
    var s' := s.(tasks := s.tasks[t := task]);
    forall u | u in s'.tasks && u != t ensures TaskInv(s', u, s'.tasks[u]) {
      assert TaskInv(s, u, s.tasks[u]);
    }
  }

  /** Every atomic step of every thread keeps the invariant. */
  lemma {:induction false} NextKeeps(s: State, step: Step)
    requires Inv(s)
    ensures Inv(Next(s, step))
  {
    match step
    case Begin(t, call) =>
      if t !in s.tasks { BeginKeeps(s, t, Preparing(call, Code(call))); }
    case BeginQuery(t, now, stale) =>
      if t !in s.tasks {
        BeginKeeps(s, t, Asking(0, NewRegs(now, stale), s.atomics.draining, s.atomics.shuttingDown));
      }
    case AttachPublisher =>
      var s' := Next(s, step);
      forall u | u in s'.tasks ensures TaskInv(s', u, s'.tasks[u]) {
        assert TaskInv(s, u, s.tasks[u]);
      }
    case Move(t, now, stale, ok) =>
      if t in s.tasks { AdvanceKeeps(s, t, now, stale, ok); }
  }

  lemma {:induction false} RunKeeps(s: State, steps: seq<Step>)
    requires Inv(s)
    ensures Inv(Run(s, steps))
    decreases |steps|
  {
    if steps == [] {
    } else {
      NextKeeps(s, steps[0]);
      RunKeeps(Next(s, steps[0]), steps[1..]);
    }
  }

  /**
   Drain and shutdown are final, in every interleaving and whatever writes fail:
   once a closing call has returned no ready record is ever written, and no query
   begun after a flag was stored answers yes.
   */
  lemma {:induction false} ClosingIsFinal(steps: seq<Step>, i: nat, j: nat)
    requires var log := Run(START, steps).log; i < j < |log| && log[i].Returned? && Closes(log[i].call)
    ensures var log := Run(START, steps).log; log[j].Wrote? ==> !log[j].record.ready
  {
    RunKeeps(START, steps);
  }

  lemma {:induction false} NoConnectedAnswerWhileClosing(steps: seq<Step>, i: nat)
    requires var log := Run(START, steps).log; i < |log| && log[i].Answered? && log[i].begunClosing
    ensures !Run(START, steps).log[i].connected
  {
    RunKeeps(START, steps);
  }

  /** If the closing call's own write succeeded, the record on disk is not ready, then and ever after. */
  lemma {:induction false} ClosedRecordOnDisk(steps: seq<Step>, i: nat)
    requires var log := Run(START, steps).log; i < |log| && log[i].Returned? && Closes(log[i].call) && log[i].wrote
    ensures var s := Run(START, steps); s.file.Some? && !s.file.value.ready
  {
    RunKeeps(START, steps);
  }

  /** If a drain's own write succeeded, the record on disk is draining, then and ever after. */
  lemma {:induction false} DrainedRecordOnDisk(steps: seq<Step>, i: nat)
    requires var log := Run(START, steps).log;
      i < |log| && log[i].Returned? && log[i].call.MarkDraining? && log[i].wrote
    ensures var s := Run(START, steps); s.file.Some? && s.file.value.draining && !s.file.value.ready
  {
    RunKeeps(START, steps);
  }

  lemma {:induction false} RunAppend(s: State, a: seq<Step>, b: seq<Step>)
    ensures Run(s, a + b) == Run(Run(s, a), b)
    decreases |a|
  {
    hide Next;
    if a == [] {
      AppendEmpty(b);
    } else {
      TailAppend(a, b);
      RunAppend(Next(s, a[0]), a[1..], b);
    }
  }

  function Moves(t: nat, n: nat): seq<Step> {
    if n == 0 then [] else [Move(t, 0, 0, true)] + Moves(t, n - 1)
  }

  /** A thread inside its own stores runs on alone to the end of a piece of straight code. */
  lemma {:induction false} RunStores(s: State, t: nat, call: Call, code: seq<Instr>, rest: seq<Instr>)
    requires t in s.tasks && s.tasks[t] == Preparing(call, code + rest)
    requires forall i | 0 <= i < |code| :: !MayQuit(code[i]) && !code[i].SkipIfDraining? && !code[i].SkipIfShuttingDown?
    ensures Run(s, Moves(t, |code|)) ==
            s.(atomics := StoreAll(s.atomics, code), tasks := s.tasks[t := Preparing(call, rest)])
    decreases |code|
  {
    if code == [] {
      assert code + rest == rest && s.tasks[t := Preparing(call, rest)] == s.tasks;
    } else {
      var s' := Next(s, Move(t, 0, 0, true));
      assert (code + rest)[0] == code[0] && (code + rest)[1..] == code[1..] + rest;
      assert Moves(t, |code|)[1..] == Moves(t, |code| - 1);
      RunStores(s', t, call, code[1..], rest);
      assert s'.tasks[t := Preparing(call, rest)] == s.tasks[t := Preparing(call, rest)];
    }
  }

  function StoreAll(a: Atomics, code: seq<Instr>): Atomics
    decreases |code|
  {
    if code == [] then a else StoreAll(Store(a, code[0]), code[1..])
  }

  lemma {:induction false} TwoCallsBegin(c: Call, d: Call)
    ensures Run(START, [Begin(1, c), Begin(2, d)]) ==
      START.(tasks := map[1 := Preparing(c, Code(c)), 2 := Preparing(d, Code(d))])
  {
    var s := Next(START, Begin(1, c));
    assert [Begin(1, c), Begin(2, d)][1..] == [Begin(2, d)] && [Begin(2, d)][1..] == [];
    assert Run(s, [Begin(2, d)]) == Run(Next(s, Begin(2, d)), []);
  }

  /** One instruction that neither quits nor skips. */
  lemma {:induction false} OneMove(s: State, t: nat, call: Call, instr: Instr, rest: seq<Instr>)
    requires t in s.tasks && s.tasks[t] == Preparing(call, [instr] + rest)
    requires !Quits(s.atomics, instr) && Skips(s.atomics, instr) == 0
    ensures Run(s, Moves(t, 1)) == s.(atomics := Store(s.atomics, instr), tasks := s.tasks[t := Preparing(call, rest)])
  {
    var step := Move(t, 0, 0, true);
    assert Moves(t, 1) == [step] + Moves(t, 0) && Moves(t, 1)[1..] == [];
    var code := [instr] + rest;
    assert code[0] == instr && code[1..] == rest;
    assert Next(s, step) == Prepare(s, t, call, code);
    assert Run(s, Moves(t, 1)) == Run(Next(s, step), []);
  }

  function ConnectStores(g: nat, now: int): seq<Instr> {
    [StoreConnectedGeneration(g), StoreLastRx(now), StoreConnected(true)]
  }

  lemma {:induction false} ConnectPassesChecks(s: State, t: nat, g: nat, now: int)
    requires var c := SetConnected(g, now); t in s.tasks && s.tasks[t] == Preparing(c, Code(c))
    requires !s.atomics.draining && !s.atomics.shuttingDown
    ensures Run(s, Moves(t, 1) + Moves(t, 1) + Moves(t, 1)) ==
      s.(atomics := s.atomics.(generation := g),
         tasks := s.tasks[t := Preparing(SetConnected(g, now), ConnectStores(g, now))])
  {
    hide Run;
    var c, one := SetConnected(g, now), Moves(t, 1);
    var rest2 := [SkipIfShuttingDown(3)] + ConnectStores(g, now);
    var rest1 := [SkipIfDraining(4)] + rest2;
    assert Code(c) == [StoreGeneration(g)] + rest1;
    OneMove(s, t, c, StoreGeneration(g), rest1);
    var s1 := Run(s, one);
    OneMove(s1, t, c, SkipIfDraining(4), rest2);
    var s2 := Run(s1, one);
    OneMove(s2, t, c, SkipIfShuttingDown(3), ConnectStores(g, now));
    RunAppend(s, one, one);
    RunAppend(s, one + one, one);
    OverwriteKey(s.tasks, t, Preparing(c, rest1), Preparing(c, rest2));
    OverwriteKey(s.tasks, t, Preparing(c, rest2), Preparing(c, ConnectStores(g, now)));
  }

  lemma {:induction false} OverwriteKey(tasks: map<nat, Task>, t: nat, before: Task, after: Task)
    ensures tasks[t := before][t := after] == tasks[t := after]
  {
  }

  /**
   Two calls interleaved so that the connect passes its checks, the drain runs its
   stores, then the connect its own.
   */
  lemma {:induction false} RaceRun(s: State, g: nat, now: int)
    requires var c := SetConnected(g, now); 1 in s.tasks && s.tasks[1] == Preparing(c, Code(c))
    requires 2 in s.tasks && s.tasks[2] == Preparing(MarkDraining, Code(MarkDraining))
    requires !s.atomics.draining && !s.atomics.shuttingDown
    ensures var a := Run(s, Moves(1, 1) + Moves(1, 1) + Moves(1, 1) + Moves(2, 4) + Moves(1, 3)).atomics;
      a.draining && a.connected
  {
    hide Run, Moves, StoreAll;
    var c, checks := SetConnected(g, now), Moves(1, 1) + Moves(1, 1) + Moves(1, 1);
    ConnectPassesChecks(s, 1, g, now);
    var s1 := Run(s, checks);
    AppendEmpty(Code(MarkDraining));
    RunStores(s1, 2, MarkDraining, Code(MarkDraining), []);
    var s2 := Run(s1, Moves(2, 4));
    AppendEmpty(ConnectStores(g, now));
    RunStores(s2, 1, c, ConnectStores(g, now), []);
    RunAppend(s, checks, Moves(2, 4));
    RunAppend(s, checks + Moves(2, 4), Moves(1, 3));
    StoreAllDrains(s1.atomics);
    StoreAllConnects(s2.atomics, g, now);
  }

  lemma {:induction false} StoreAllDrains(a: Atomics)
    ensures StoreAll(a, Code(MarkDraining)).draining
  {
    var code := Code(MarkDraining);
    assert code == [StoreDraining, StoreConnected(false), StoreConnectedGeneration(0), StoreLastRx(0)];
    assert code[1..] == CLEAR && CLEAR[1..] == [StoreConnectedGeneration(0), StoreLastRx(0)]
      && CLEAR[1..][1..] == [StoreLastRx(0)];
    var b := StoreAll(a.(draining := true), CLEAR);
    assert b == StoreAll(a.(draining := true, connected := false), CLEAR[1..]);
    assert b == StoreAll(a.(draining := true, connected := false, connectedGeneration := 0), [StoreLastRx(0)]);
    assert [StoreLastRx(0)][1..] == [];
  }

  lemma {:induction false} StoreAllConnects(a: Atomics, g: nat, now: int)
    ensures var b := StoreAll(a, ConnectStores(g, now)); b.connected && b.draining == a.draining
  {
    var code := ConnectStores(g, now);
    assert code[1..] == [StoreLastRx(now), StoreConnected(true)] && code[1..][1..] == [StoreConnected(true)];
    var b := StoreAll(a.(connectedGeneration := g), code[1..]);
    assert b == StoreAll(a.(connectedGeneration := g, lastRx := now), [StoreConnected(true)]);
    assert [StoreConnected(true)][1..] == [];
  }

  /**
   The finality above is not for lack of a race: a connect that checked the flags
   before a drain stores its fields after it, leaving `connected` true.
   */
  lemma {:induction false} RacingConnectLeavesConnected(g: nat, now: int)
    ensures exists steps: seq<Step> :: Run(START, steps).atomics.draining && Run(START, steps).atomics.connected
  {
    var c := SetConnected(g, now);
    var begin := [Begin(1, c), Begin(2, MarkDraining)];
    var race := Moves(1, 1) + Moves(1, 1) + Moves(1, 1) + Moves(2, 4) + Moves(1, 3);
    TwoCallsBegin(c, MarkDraining);
    RaceRun(Run(START, begin), g, now);
    RunAppend(START, begin, race);
    assert Run(START, begin + race).atomics.draining && Run(START, begin + race).atomics.connected;
  }
}
