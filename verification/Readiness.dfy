/**
 Readiness evidence, from the writer of the status record
 (crates/cdr-remote-agent/src/status.rs) to its reader
 (crates/cdr-runtime/src/pro_runtime.rs), for calls that run one after another.
 */
module Readiness {
  import opened Options
  import opened AgentStatus
  import opened Sequences

  // ------------------------------------------------------------------ one call at a time

  /** The state after a piece of code runs alone, and whether it goes on to publish. */
  datatype Outcome = Outcome(atomics: Atomics, publishes: bool)

  function Exec(a: Atomics, code: seq<Instr>): Outcome
    decreases |code|
  {
    if code == [] then Outcome(a, true)
    else if Quits(a, code[0]) then Outcome(a, false)
    else Exec(Store(a, code[0]), Remaining(a, code))
  }

  /** What `publish_snapshot` writes when nothing interleaves with its loads. */
  function Snapshot(a: Atomics, now: int, stale: int): Record {
    RecordOf(Regs(now, stale, a.draining, a.shuttingDown, a.generation, a.connectedGeneration, a.lastRx, a.connected,
                  a.generation, a.connectedGeneration, a.lastRx))
  }

  /**
   The status object. `file` is the record on disk; a failed write leaves it as it
   was. The ghost `run` lists every call, with the fate of its publish; attaching
   the publisher counts as a heartbeat.
   */
  class RemoteAgentStatus {
    var connected: bool
    var draining: bool
    var shuttingDown: bool
    var generation: nat
    var connectedGeneration: nat
    var lastRx: int
    var publisher: bool
    var file: Option<Record>
    ghost var run: seq<Publication>

    /** Fields and file are what the history of calls makes them. */
    ghost predicate Valid()
      reads this
    {
      View() == After(Calls(run)) && file == OnDisk(run)
    }

    function View(): Atomics
      reads this
    {
      Atomics(connected, draining, shuttingDown, generation, connectedGeneration, lastRx)
    }

    constructor ()
      ensures View() == INITIAL && !publisher && file == None && run == [] && Valid()
    {
      connected, draining, shuttingDown := false, false, false;
      generation, connectedGeneration, lastRx := 0, 0, 0;
      publisher, file, run := false, None, [];
    }

    ghost predicate Published(before: Option<Record>, now: int, stale: int, writeSucceeds: bool)
      reads this
    {
      file == if publisher && writeSucceeds then Some(Snapshot(View(), now, stale)) else before
    }

    method PublishSnapshot(now: int, stale: int, writeSucceeds: bool)
      modifies this`file
      ensures Published(old(file), now, stale, writeSucceeds)
      ensures publisher && writeSucceeds ==>
        && file.Some? && file.value.draining == draining && file.value.generation == generation
        && file.value.heartbeatAt == now
        && (file.value.ready <==> connected && !draining && !shuttingDown && HasFreshLiveness(now, stale))
        && file.value.verifiedAt == (if connected && !draining && !shuttingDown && generation > 0
                                        && connectedGeneration == generation && lastRx > 0
                                     then Some(lastRx) else None)
    {
      if publisher {
        var rawConnected := connected && !draining && !shuttingDown;
        var live := rawConnected && HasFreshLiveness(now, stale);
        var verified :=
          if rawConnected && generation > 0 && connectedGeneration == generation && lastRx > 0
          then Some(lastRx) else None;
        var updatedAt := if verified.Some? then verified.value else now;
        var record := MakeRecord(live, live, draining, generation, updatedAt, now, verified);
        if writeSucceeds {
          file := Some(record);
        }
      }
    }

    predicate HasFreshLiveness(now: int, stale: int)
      reads this
    {
      Fresh(generation, connectedGeneration, lastRx, now, stale)
    }

    /** `is_connected` is yes exactly when the calls made so far carry evidence of a connection that is still fresh. */
    method IsConnected(now: int, stale: int) returns (answer: bool)
      requires Valid()
      ensures answer == Snapshot(View(), now, stale).ready
      ensures answer <==> exists g: nat, t: int :: FreshEvidence(Calls(run), g, t, now, stale)
    {
      hide FreshEvidence;
      answer := connected && !draining && !shuttingDown && HasFreshLiveness(now, stale);
      ReadyIffEvident(Calls(run), now, stale);
    }

    method AttachPublisher(now: int, stale: int, writeSucceeds: bool)
      requires Valid()
      modifies this`publisher, this`file, this`run
      ensures Valid() && run == old(run) + [Publication(RecordHeartbeat, now, stale, writeSucceeds)]
      ensures publisher && Published(old(file), now, stale, writeSucceeds)
    {
      hide After, OnDisk, Snapshot;
      publisher := true;
      PublishSnapshot(now, stale, writeSucceeds);
      run := run + [Publication(RecordHeartbeat, now, stale, writeSucceeds)];
      OneMorePublication(old(run), Publication(RecordHeartbeat, now, stale, writeSucceeds));
    }

    method Heartbeat(now: int, stale: int, writeSucceeds: bool)
      requires Valid()
      modifies this`file, this`run
      ensures Valid() && run == old(run) + [Publication(RecordHeartbeat, now, stale, publisher && writeSucceeds)]
      ensures Published(old(file), now, stale, writeSucceeds)
    {
      hide After, OnDisk, Snapshot;
      PublishSnapshot(now, stale, writeSucceeds);
      run := run + [Publication(RecordHeartbeat, now, stale, publisher && writeSucceeds)];
      OneMorePublication(old(run), Publication(RecordHeartbeat, now, stale, publisher && writeSucceeds));
    }

    method Clear()
      modifies this`connected, this`connectedGeneration, this`lastRx
      ensures View() == Exec(old(View()), CLEAR).atomics
    {
      connected := false;
      connectedGeneration := 0;
      lastRx := 0;
      ExecClear(old(View()));
    }

    method MarkDrain(now: int, stale: int, writeSucceeds: bool)
      requires Valid()
      modifies this
      ensures Valid() && run == old(run) + [Publication(MarkDraining, now, stale, publisher && writeSucceeds)]
      ensures publisher == old(publisher) && View() == Exec(old(View()), Code(MarkDraining)).atomics
      ensures Published(old(file), now, stale, writeSucceeds)
      ensures publisher && writeSucceeds ==> file.Some? && file.value.draining && !file.value.ready
    {
      hide After, OnDisk, Snapshot, Exec, Code;
      draining := true;
      ExecMark(old(View()));
      ExecClear(View());
      Clear();
      PublishSnapshot(now, stale, writeSucceeds);
      run := run + [Publication(MarkDraining, now, stale, publisher && writeSucceeds)];
      OneMorePublication(old(run), Publication(MarkDraining, now, stale, publisher && writeSucceeds));
    }

    method MarkShutdown(now: int, stale: int, writeSucceeds: bool)
      requires Valid()
      modifies this
      ensures Valid() && run == old(run) + [Publication(MarkShuttingDown, now, stale, publisher && writeSucceeds)]
      ensures publisher == old(publisher) && View() == Exec(old(View()), Code(MarkShuttingDown)).atomics
      ensures Published(old(file), now, stale, writeSucceeds)
      ensures publisher && writeSucceeds ==> file.Some? && !file.value.ready
    {
      hide After, OnDisk, Snapshot, Exec, Code;
      shuttingDown := true;
      ExecMark(old(View()));
      ExecClear(View());
      Clear();
      PublishSnapshot(now, stale, writeSucceeds);
      run := run + [Publication(MarkShuttingDown, now, stale, publisher && writeSucceeds)];
      OneMorePublication(old(run), Publication(MarkShuttingDown, now, stale, publisher && writeSucceeds));
    }

    method Disconnect(now: int, stale: int, writeSucceeds: bool)
      requires Valid()
      modifies this
      ensures Valid() && run == old(run) + [Publication(SetDisconnected, now, stale, publisher && writeSucceeds)]
      ensures publisher == old(publisher) && View() == Exec(old(View()), Code(SetDisconnected)).atomics
      ensures Published(old(file), now, stale, writeSucceeds)
    {
      hide After, OnDisk, Snapshot, Exec;
      ExecClear(View());
      Clear();
      PublishSnapshot(now, stale, writeSucceeds);
      run := run + [Publication(SetDisconnected, now, stale, publisher && writeSucceeds)];
      OneMorePublication(old(run), Publication(SetDisconnected, now, stale, publisher && writeSucceeds));
    }

    method Connect(g: nat, time: int, now: int, stale: int, writeSucceeds: bool)
      requires Valid()
      modifies this
      ensures Valid() && run == old(run) + [Publication(SetConnected(g, time), now, stale, publisher && writeSucceeds)]
      ensures publisher == old(publisher) && View() == Exec(old(View()), Code(SetConnected(g, time))).atomics
      ensures Published(old(file), now, stale, writeSucceeds)
    {
      hide After, OnDisk, Snapshot, Exec, Code;
      ExecConnect(View(), g, time);
      generation := g;
      if !draining && !shuttingDown {
        connectedGeneration := g;
        lastRx := time;
        connected := true;
      }
      PublishSnapshot(now, stale, writeSucceeds);
      run := run + [Publication(SetConnected(g, time), now, stale, publisher && writeSucceeds)];
      OneMorePublication(old(run), Publication(SetConnected(g, time), now, stale, publisher && writeSucceeds));
    }

    method Inbound(g: nat, time: int, now: int, stale: int, writeSucceeds: bool)
      requires Valid()
      modifies this
      ensures Valid() && run == old(run) + [Publication(RecordInbound(g, time), now, stale, publisher && writeSucceeds)]
      ensures var outcome := Exec(old(View()), Code(RecordInbound(g, time)));
        && publisher == old(publisher) && View() == outcome.atomics
        && (if outcome.publishes then Published(old(file), now, stale, writeSucceeds) else file == old(file))
    {
      hide After, OnDisk, Snapshot, Exec, Code;
      ExecInbound(View(), g, time);
      if g > 0 && !draining && !shuttingDown && connected && generation == g {
        connectedGeneration := g;
        lastRx := time;
        PublishSnapshot(now, stale, writeSucceeds);
      }
      run := run + [Publication(RecordInbound(g, time), now, stale, publisher && writeSucceeds)];
      OneMorePublication(old(run), Publication(RecordInbound(g, time), now, stale, publisher && writeSucceeds));
    }
  }

  lemma {:induction false} ExecHead(a: Atomics, head: Instr, rest: seq<Instr>)
    ensures Exec(a, [head] + rest) ==
      if Quits(a, head) then Outcome(a, false)
      else Exec(Store(a, head), if Skips(a, head) <= |rest| then rest[Skips(a, head)..] else [])
  {
    var code, skip := [head] + rest, Skips(a, head);
    assert code[0] == head && (skip <= |rest| ==> code[1 + skip..] == rest[skip..]);
  }

  lemma {:induction false} ExecClear(a: Atomics)
    ensures Exec(a, CLEAR) == Outcome(a.(connected := false, connectedGeneration := 0, lastRx := 0), true)
  {
    assert CLEAR[1..] == [StoreConnectedGeneration(0), StoreLastRx(0)] && CLEAR[1..][1..] == [StoreLastRx(0)];
    var b := a.(connected := false);
    assert Exec(a, CLEAR) == Exec(b, CLEAR[1..]);
    assert Exec(b, CLEAR[1..]) == Exec(b.(connectedGeneration := 0), [StoreLastRx(0)]);
    assert [StoreLastRx(0)][1..] == [];
  }

  lemma {:induction false} ExecMark(a: Atomics)
    ensures Exec(a, Code(MarkDraining)) == Exec(a.(draining := true), CLEAR)
    ensures Exec(a, Code(MarkShuttingDown)) == Exec(a.(shuttingDown := true), CLEAR)
  {
    assert ([StoreDraining] + CLEAR)[1..] == CLEAR && ([StoreShuttingDown] + CLEAR)[1..] == CLEAR;
  }

  lemma {:induction false} ExecStores(a: Atomics, g: nat, time: int)
    ensures Exec(a, [StoreConnectedGeneration(g), StoreLastRx(time)]) ==
      Outcome(a.(connectedGeneration := g, lastRx := time), true)
    ensures Exec(a, ConnectStores(g, time)) ==
      Outcome(a.(connectedGeneration := g, lastRx := time, connected := true), true)
  {
    var b := a.(connectedGeneration := g);
    assert [StoreLastRx(time)] + [] == [StoreLastRx(time)];
    ExecHead(a, StoreConnectedGeneration(g), [StoreLastRx(time)]);
    ExecHead(b, StoreLastRx(time), []);
    assert [StoreConnectedGeneration(g)] + [StoreLastRx(time)] == [StoreConnectedGeneration(g), StoreLastRx(time)];
    assert ConnectStores(g, time) == [StoreConnectedGeneration(g)] + ([StoreLastRx(time)] + [StoreConnected(true)]);
    ExecHead(a, StoreConnectedGeneration(g), [StoreLastRx(time)] + [StoreConnected(true)]);
    ExecHead(b, StoreLastRx(time), [StoreConnected(true)]);
    ExecHead(b.(lastRx := time), StoreConnected(true), []);
    assert [StoreConnected(true)] + [] == [StoreConnected(true)];
  }

  lemma {:induction false} ExecChecks(a: Atomics, g: nat, time: int)
    ensures Exec(a, [SkipIfDraining(4)] + ([SkipIfShuttingDown(3)] + ConnectStores(g, time))) == Outcome(
      if a.draining || a.shuttingDown then a else a.(connectedGeneration := g, lastRx := time, connected := true), true)
  {
    var stores := ConnectStores(g, time);
    var c := [SkipIfShuttingDown(3)] + stores;
    ExecHead(a, SkipIfDraining(4), c);
    if a.draining {
      assert c[4..] == [];
    } else {
      assert c[0..] == c;
      ExecHead(a, SkipIfShuttingDown(3), stores);
      assert stores[3..] == [] && stores[0..] == stores;
      ExecStores(a, g, time);
    }
  }

  lemma {:induction false} ExecConnect(a: Atomics, g: nat, time: int)
    ensures Exec(a, Code(SetConnected(g, time))) == Outcome(
      if a.draining || a.shuttingDown then a.(generation := g)
      else a.(generation := g, connectedGeneration := g, lastRx := time, connected := true), true)
  {
    hide Exec;
    var code := [SkipIfDraining(4)] + ([SkipIfShuttingDown(3)] + ConnectStores(g, time));
    assert Code(SetConnected(g, time)) == [StoreGeneration(g)] + code;
    assert code[0..] == code;
    ExecHead(a, StoreGeneration(g), code);
    ExecChecks(a.(generation := g), g, time);
  }

  /** A list of guards either stops the call or falls through without a trace. */
  lemma {:induction false} ExecGuards(a: Atomics, guards: seq<Instr>, rest: seq<Instr>)
    requires forall i | 0 <= i < |guards| :: MayQuit(guards[i])
    ensures Exec(a, guards + rest) ==
      if exists i :: 0 <= i < |guards| && Quits(a, guards[i]) then Outcome(a, false) else Exec(a, rest)
    decreases |guards|
  {
    if guards == [] {
      assert guards + rest == rest;
    } else {
      var others := guards[1..] + rest;
      assert guards + rest == [guards[0]] + others && others[0..] == others;
      ExecHead(a, guards[0], others);
      ExecGuards(a, guards[1..], rest);
      assert forall i | 0 < i < |guards| :: guards[i] == guards[1..][i - 1];
    }
  }

  lemma {:induction false} ExecInbound(a: Atomics, g: nat, time: int)
    ensures var effective := g > 0 && !a.draining && !a.shuttingDown && a.connected && a.generation == g;
      Exec(a, Code(RecordInbound(g, time))) ==
        Outcome(if effective then a.(connectedGeneration := g, lastRx := time) else a, effective)
  {
    hide Exec;
    if g == 0 {
      ExecHead(a, Quit, []);
      assert [Quit] + [] == [Quit];
    } else {
      var guards := [QuitIfDraining, QuitIfShuttingDown, QuitUnlessConnected, QuitUnlessGeneration(g)];
      var stores := [StoreConnectedGeneration(g), StoreLastRx(time)];
      assert Code(RecordInbound(g, time)) == guards + stores;
      ExecGuards(a, guards, stores);
      ExecStores(a, g, time);
      assert a.draining <==> Quits(a, guards[0]);
      assert a.shuttingDown <==> Quits(a, guards[1]);
      assert a.connected <==> !Quits(a, guards[2]);
      assert a.generation == g <==> !Quits(a, guards[3]);
    }
  }

  // ------------------------------------------------------------------ evidence in the history of calls

  function After(history: seq<Call>): Atomics {
    if history == [] then INITIAL else Exec(After(history[..|history| - 1]), Code(history[|history| - 1])).atomics
  }

  predicate InboundOf(call: Call, g: nat) {
    call.RecordInbound? && call.generation == g && g > 0
  }

  /**
   The connect at `i` is the last one, nothing has disconnected or closed since,
   no close ever came before it, and the latest frame of its generation, or the
   connect itself, is at `k` and carries the time `t`.
   */
  ghost predicate Evidence(h: seq<Call>, i: nat, k: nat, g: nat, t: int) {
    && i <= k < |h|
    && h[i].SetConnected? && h[i].generation == g
    && (forall j | 0 <= j < |h| :: !Closes(h[j]))
    && (forall j | i < j < |h| :: !h[j].SetConnected? && !h[j].SetDisconnected?)
    && (if k == i then h[i].now == t else InboundOf(h[k], g) && h[k].now == t)
    && (forall j | k < j < |h| :: !InboundOf(h[j], g))
  }

  ghost predicate Evident(h: seq<Call>, g: nat, t: int) {
    exists i: nat, k: nat :: Evidence(h, i, k, g, t)
  }

  ghost predicate EverClosed(h: seq<Call>) {
    exists j :: 0 <= j < |h| && Closes(h[j])
  }

  /** The atomics between calls are coherent and say whether a closing call was made. */
  ghost predicate Coherent(h: seq<Call>, a: Atomics) {
    && (a.connected ==> a.connectedGeneration == a.generation)
    && (!a.connected ==> a.connectedGeneration == 0 && a.lastRx == 0)
    && (EverClosed(h) <==> a.draining || a.shuttingDown)
    && (EverClosed(h) ==> !a.connected)
  }

  lemma {:induction false} AlwaysCoherent(h: seq<Call>)
    ensures Coherent(h, After(h))
  {
    if h == [] {
    } else {
      var n := |h| - 1;
      var prior := h[..n];
      AlwaysCoherent(prior);
      var a, call := After(prior), h[n];
      assert forall j | 0 <= j < n :: h[j] == prior[j];
      assert EverClosed(h) <==> EverClosed(prior) || Closes(call) by {
        if EverClosed(prior) { var j :| 0 <= j < n && Closes(prior[j]); assert Closes(h[j]); }
        if Closes(call) { assert Closes(h[n]); }
      }
      StepOf(a, call);
    }
  }

  /** The effect of one call, branch by branch. */
  lemma {:induction false} StepOf(a: Atomics, call: Call)
    ensures var b := Exec(a, Code(call)).atomics;
      match call
      case SetConnected(g, now) =>
        b == if a.draining || a.shuttingDown then a.(generation := g)
             else a.(generation := g, connectedGeneration := g, lastRx := now, connected := true)
      case SetDisconnected => b == a.(connected := false, connectedGeneration := 0, lastRx := 0)
      case MarkDraining => b == a.(draining := true, connected := false, connectedGeneration := 0, lastRx := 0)
      case MarkShuttingDown => b == a.(shuttingDown := true, connected := false, connectedGeneration := 0, lastRx := 0)
      case RecordHeartbeat => b == a
      case RecordInbound(g, now) =>
        b == if g > 0 && !a.draining && !a.shuttingDown && a.connected && a.generation == g
             then a.(connectedGeneration := g, lastRx := now) else a
  {
    match call
    case SetConnected(g, now) => ExecConnect(a, g, now);
    case SetDisconnected => ExecClear(a);
    case MarkDraining => ExecMark(a); ExecClear(a.(draining := true));
    case MarkShuttingDown => ExecMark(a); ExecClear(a.(shuttingDown := true));
    case RecordHeartbeat =>
    case RecordInbound(g, now) => ExecInbound(a, g, now);
  }

  /** Evidence carried over, renewed or ended by one more call. */
  lemma {:induction false} EvidenceStep(h: seq<Call>, call: Call, g: nat, t: int)
    ensures var h' := h + [call];
      Evident(h', g, t) <==>
        match call
        case SetConnected(g', now) => g' == g && now == t && !EverClosed(h)
        case SetDisconnected => false
        case MarkDraining => false
        case MarkShuttingDown => false
        case RecordHeartbeat => Evident(h, g, t)
        case RecordInbound(g', now) =>
          if g' == g && g > 0 then now == t && exists u :: Evident(h, g, u) else Evident(h, g, t)
  {
    var h', n := h + [call], |h|;
    assert h'[n] == call && forall j | 0 <= j < n :: h'[j] == h[j];
    if Evident(h', g, t) {
      var i: nat, k: nat :| Evidence(h', i, k, g, t);
      if i < n {
        if k < n { assert Evidence(h, i, k, g, t); }
        else { EvidenceExists(h, i, g); }
      }
    }
    if call.SetConnected? && call.generation == g && call.now == t && !EverClosed(h) {
      assert Evidence(h', n, n, g, t);
    }
    if call.RecordHeartbeat? || (call.RecordInbound? && !InboundOf(call, g)) {
      if Evident(h, g, t) {
        var i: nat, k: nat :| Evidence(h, i, k, g, t);
        assert Evidence(h', i, k, g, t);
      }
    }
    if InboundOf(call, g) && call.now == t && exists u :: Evident(h, g, u) {
      var u :| Evident(h, g, u);
      var i: nat, k: nat :| Evidence(h, i, k, g, u);
      assert Evidence(h', i, n, g, t);
    }
  }

  /** A standing connect always has a latest frame. */
  lemma {:induction false} EvidenceExists(h: seq<Call>, i: nat, g: nat)
    requires i < |h| && h[i].SetConnected? && h[i].generation == g
    requires forall j | 0 <= j < |h| :: !Closes(h[j])
    requires forall j | i < j < |h| :: !h[j].SetConnected? && !h[j].SetDisconnected?
    ensures exists t :: Evident(h, g, t)
  {
    var k := |h| - 1;
    while k > i && !InboundOf(h[k], g)
      invariant i <= k < |h|
      invariant forall j | k < j < |h| :: !InboundOf(h[j], g)
    {
      k := k - 1;
    }
    assert Evidence(h, i, k, g, h[k].now);
    assert Evident(h, g, h[k].now);
  }

  /**
   In every sequential run the object is connected, of generation `g` and with
   last frame time `t`, exactly when the history carries that evidence.
   */
  lemma {:induction false} ConnectedIffEvident(h: seq<Call>, g: nat, t: int)
    ensures var a := After(h); a.connected && a.generation == g && a.lastRx == t <==> Evident(h, g, t)
  {
    if h == [] {
    } else {
      var n := |h| - 1;
      var prior, call := h[..n], h[n];
      assert h == prior + [call];
      var a := After(prior);
      ConnectedIffEvident(prior, g, t);
      AlwaysCoherent(prior);
      StepOf(a, call);
      EvidenceStep(prior, call, g, t);
      if InboundOf(call, g) {
        ConnectedIffEvident(prior, g, a.lastRx);
        forall u ensures Evident(prior, g, u) ==> a.connected && a.generation == g {
          ConnectedIffEvident(prior, g, u);
        }
      }
    }
  }

  // ------------------------------------------------------------------ the reader

  /** The reader's timestamp and readiness checks of `verify_external_mcp_ready`. */
  predicate Accepts(record: Record, now: int, stale: int) {
    && record.updatedAt > 0 && record.heartbeatAt > 0
    && record.updatedAt <= now + 2_000 && record.heartbeatAt <= now + 2_000
    && record.updatedAt <= record.heartbeatAt + 2_000
    && now - record.updatedAt <= stale && now - record.heartbeatAt <= stale
    && record.verifiedAt.Some?
    && record.verifiedAt.value > 0 && record.verifiedAt.value <= now + 2_000
    && record.verifiedAt.value <= record.heartbeatAt + 2_000 && now - record.verifiedAt.value <= stale
    && record.helloAck && record.ready && !record.draining && record.generation != 0
  }

  datatype Refusal = StaleRecord | NoEvidence | StaleEvidence | NotReady

  /** Why the reader refuses a record, in the order of its checks. */
  function Refuses(record: Record, now: int, stale: int): Option<Refusal> {
    if || record.updatedAt <= 0 || record.heartbeatAt <= 0
       || record.updatedAt > now + 2_000 || record.heartbeatAt > now + 2_000
       || record.updatedAt > record.heartbeatAt + 2_000
       || now - record.updatedAt > stale || now - record.heartbeatAt > stale
    then Some(StaleRecord)
    else if record.verifiedAt.None? then Some(NoEvidence)
    else if || record.verifiedAt.value <= 0 || record.verifiedAt.value > now + 2_000
            || record.verifiedAt.value > record.heartbeatAt + 2_000 || now - record.verifiedAt.value > stale
    then Some(StaleEvidence)
    else if !record.helloAck || !record.ready || record.draining || record.generation == 0 then Some(NotReady)
    else None
  }

  /** Any record, published or not: it is accepted exactly when no check refuses it. */
  lemma {:induction false} AcceptsExactly(record: Record, now: int, stale: int)
    ensures Accepts(record, now, stale) <==> Refuses(record, now, stale) == None
    ensures record.draining || !record.ready || !record.helloAck ==> Refuses(record, now, stale) != None
    ensures record.generation == 0 || record.verifiedAt == None ==> Refuses(record, now, stale) != None
  {
  }

  /** A time not too far in the future and not too old. */
  predicate Recent(t: int, now: int, stale: int) {
    t <= now + 2_000 && now - t <= stale
  }

  /** The history carries evidence that is fresh at `now`. */
  ghost predicate FreshEvidence(h: seq<Call>, g: nat, t: int, now: int, stale: int) {
    Evident(h, g, t) && g > 0 && t > 0 && Recent(t, now, stale)
  }

  /** The published record is ready exactly on current, fresh evidence. */
  lemma {:induction false} ReadyIffEvident(h: seq<Call>, written: int, stale: int)
    ensures Snapshot(After(h), written, stale).ready <==>
      exists g: nat, t: int :: FreshEvidence(h, g, t, written, stale)
  {
    hide After, Evident;
    var a := After(h);
    AlwaysCoherent(h);
    ConnectedIffEvident(h, a.generation, a.lastRx);
    assert Snapshot(a, written, stale).ready ==> FreshEvidence(h, a.generation, a.lastRx, written, stale);
    forall g: nat, t: int | FreshEvidence(h, g, t, written, stale) ensures Snapshot(a, written, stale).ready {
      ConnectedIffEvident(h, g, t);
    }
  }

  /** The record reports evidence that was fresh when it was written and is fresh when it is read. */
  ghost predicate Vouched(record: Record, h: seq<Call>, written: int, writerStale: int, read: int, readerStale: int) {
    exists g: nat, t: int :: FreshEvidence(h, g, t, written, writerStale) && FreshEvidence(h, g, t, read, readerStale)
      && record.generation == g && record.verifiedAt == Some(t)
  }

  /**
   Across writer and reader: a record published after the calls `h` passes the
   reader's checks exactly when `h` carries evidence of a connection that was
   fresh when the record was written and is still fresh when it is read, and the
   record itself is young. The record then reports that generation and time.
   */
  lemma {:induction false} AcceptedIffEvident(h: seq<Call>, written: int, writerStale: int, read: int, readerStale: int)
    ensures var record := Snapshot(After(h), written, writerStale);
      Accepts(record, read, readerStale) <==>
        0 < written && Recent(written, read, readerStale) && Vouched(record, h, written, writerStale, read, readerStale)
  {
    hide After, Evident;
    var a, record := After(h), Snapshot(After(h), written, writerStale);
    AlwaysCoherent(h);
    ConnectedIffEvident(h, a.generation, a.lastRx);
    if Accepts(record, read, readerStale) {
      assert FreshEvidence(h, a.generation, a.lastRx, written, writerStale);
      assert FreshEvidence(h, a.generation, a.lastRx, read, readerStale);
    }
    forall g: nat, t: int | FreshEvidence(h, g, t, written, writerStale) && Recent(t, read, readerStale)
      ensures 0 < written && Recent(written, read, readerStale) ==> Accepts(record, read, readerStale)
    {
      ConnectedIffEvident(h, g, t);
    }
  }

  // ------------------------------------------------------------------ the record on disk

  /** One call together with the clock, bound and fate of the publish it ends with. */
  datatype Publication = Publication(call: Call, now: int, stale: int, writeSucceeds: bool)

  function Calls(run: seq<Publication>): seq<Call> {
    seq(|run|, i requires 0 <= i < |run| => run[i].call)
  }

  /** The record on disk after a run with the publisher attached. */
  function OnDisk(run: seq<Publication>): Option<Record> {
    if run == [] then None
    else
      var n := |run| - 1;
      var outcome := Exec(After(Calls(run[..n])), Code(run[n].call));
      if outcome.publishes && run[n].writeSucceeds then Some(Snapshot(outcome.atomics, run[n].now, run[n].stale))
      else OnDisk(run[..n])
  }

  predicate AllWritten(run: seq<Publication>) {
    forall i | 0 <= i < |run| :: run[i].writeSucceeds
  }

  /** The record on disk is the snapshot after `n` calls, taken by publication `p`. */
  ghost predicate ShowsPrefix(run: seq<Publication>, n: nat, p: nat) {
    && p < n <= |run|
    && OnDisk(run) == Some(Snapshot(After(Calls(run)[..n]), run[p].now, run[p].stale))
    && (AllWritten(run) ==> n == |run|)
  }

  /** One more publication: the calls, the state and the record on disk. */
  lemma {:induction false} OneMorePublication(prior: seq<Publication>, last: Publication)
    ensures var run := prior + [last];
      var outcome := Exec(After(Calls(prior)), Code(last.call));
      && Calls(run) == Calls(prior) + [last.call]
      && After(Calls(run)) == outcome.atomics
      && OnDisk(run) == (if outcome.publishes && last.writeSucceeds
                         then Some(Snapshot(outcome.atomics, last.now, last.stale)) else OnDisk(prior))
  {
    hide Exec, Snapshot, Code;
    InitAppend(prior, [last]);
    AppendEmpty(prior);
    assert Calls(prior + [last]) == Calls(prior) + [last.call];
    InitAppend(Calls(prior), [last.call]);
    AppendEmpty(Calls(prior));
  }

  /** A publication that writes shows the whole run. */
  lemma {:induction false} WrittenShows(prior: seq<Publication>, last: Publication)
    requires Exec(After(Calls(prior)), Code(last.call)).publishes && last.writeSucceeds
    ensures ShowsPrefix(prior + [last], |prior| + 1, |prior|)
  {
    hide Exec, Snapshot, Code, After, OnDisk;
    OneMorePublication(prior, last);
    DropZero(Calls(prior + [last]));
  }

  /** A publication that does not write leaves what was shown. */
  lemma {:induction false} KeptShows(prior: seq<Publication>, last: Publication, m: nat, p: nat) returns (n: nat)
    requires !(Exec(After(Calls(prior)), Code(last.call)).publishes && last.writeSucceeds) && ShowsPrefix(prior, m, p)
    ensures ShowsPrefix(prior + [last], n, p)
  {
    hide Exec, Snapshot, Code, After, OnDisk;
    var run := prior + [last];
    OneMorePublication(prior, last);
    assert run[p] == prior[p];
    if AllWritten(run) {
      assert run[|prior|] == last && forall i | 0 <= i < |prior| :: run[i] == prior[i];
      QuietCallKeepsState(After(Calls(prior)), last.call);
      DropZero(Calls(prior));
      DropZero(Calls(run));
      n := |run|;
    } else {
      assert Calls(run)[..m] == Calls(prior)[..m];
      n := m;
    }
  }

  /**
   The record on disk is the snapshot of some prefix of the run, and of the
   present state when no write failed.
   */
  lemma {:induction false} DiskShowsAPrefix(run: seq<Publication>) returns (n: nat, p: nat)
    requires OnDisk(run).Some?
    ensures ShowsPrefix(run, n, p)
  {
    hide Exec, Snapshot, Code, After, ShowsPrefix;
    var prior, last := run[..|run| - 1], run[|run| - 1];
    Snoc(run);
    if Exec(After(Calls(prior)), Code(last.call)).publishes && last.writeSucceeds {
      WrittenShows(prior, last);
      n, p := |run|, |run| - 1;
    } else {
      var m, q := DiskShowsAPrefix(prior);
      n := KeptShows(prior, last, m, q);
      p := q;
    }
  }

  /** The record on disk shows the first `n` calls, which carry the evidence that it reports. */
  ghost predicate VouchedOnDisk(run: seq<Publication>, n: nat, p: nat, read: int, stale: int)
    requires OnDisk(run).Some?
  {
    && ShowsPrefix(run, n, p) && 0 < run[p].now && Recent(run[p].now, read, stale)
    && Vouched(OnDisk(run).value, Calls(run)[..n], run[p].now, run[p].stale, read, stale)
  }

  /**
   From the calls to the reader's verdict, for every run and whatever writes
   failed: the record on disk passes the checks exactly when it shows a prefix of
   the calls that carries the evidence it reports, fresh at the write and at the
   read. With no failed write that prefix is the whole run.
   */
  lemma {:induction false} DiskAcceptedExactly(run: seq<Publication>, read: int, stale: int)
    requires OnDisk(run).Some?
    ensures Accepts(OnDisk(run).value, read, stale) <==> exists n: nat, p: nat :: VouchedOnDisk(run, n, p, read, stale)
  {
    hide Accepts, Vouched, OnDisk, Snapshot, After;
    if Accepts(OnDisk(run).value, read, stale) {
      var n, p := DiskShowsAPrefix(run);
      AcceptedIffEvident(Calls(run)[..n], run[p].now, run[p].stale, read, stale);
      assert VouchedOnDisk(run, n, p, read, stale);
    }
    forall n: nat, p: nat | VouchedOnDisk(run, n, p, read, stale) ensures Accepts(OnDisk(run).value, read, stale) {
      AcceptedIffEvident(Calls(run)[..n], run[p].now, run[p].stale, read, stale);
    }
  }

  /** A ready record on disk is accepted exactly while its writing and the connection it reports are recent. */
  lemma {:induction false} ReadyRecordAcceptedExactly(run: seq<Publication>, read: int, stale: int) returns (p: nat)
    requires OnDisk(run).Some? && OnDisk(run).value.ready
    ensures p < |run| && OnDisk(run).value.heartbeatAt == run[p].now
    ensures Accepts(OnDisk(run).value, read, stale) <==>
      0 < run[p].now && Recent(run[p].now, read, stale) && Recent(OnDisk(run).value.updatedAt, read, stale)
  {
    hide After, OnDisk;
    var n, q := DiskShowsAPrefix(run);
    p := q;
  }

  lemma {:induction false} QuietCallKeepsState(a: Atomics, call: Call)
    requires !Exec(a, Code(call)).publishes
    ensures Exec(a, Code(call)).atomics == a
  {
    match call
    case SetConnected(g, now) => ExecConnect(a, g, now);
    case SetDisconnected => ExecClear(a);
    case MarkDraining => ExecMark(a); ExecClear(a.(draining := true));
    case MarkShuttingDown => ExecMark(a); ExecClear(a.(shuttingDown := true));
    case RecordHeartbeat =>
    case RecordInbound(g, now) => ExecInbound(a, g, now);
  }

  // ------------------------------------------------------------------ what the record on disk reports

  ghost predicate EverDrained(h: seq<Call>) {
    exists j | 0 <= j < |h| :: h[j].MarkDraining?
  }

  ghost predicate LastConnect(h: seq<Call>, j: nat) {
    j < |h| && h[j].SetConnected? && forall k | j < k < |h| :: !h[k].SetConnected?
  }

  ghost predicate NeverConnected(h: seq<Call>) {
    forall j | 0 <= j < |h| :: !h[j].SetConnected?
  }

  /** The generation is that of the last connect, effective or not, and zero before the first. */
  ghost predicate GenerationOf(h: seq<Call>, g: nat) {
    && (NeverConnected(h) ==> g == 0)
    && (forall j: nat | LastConnect(h, j) :: g == h[j].generation)
  }

  lemma {:induction false} AfterDraining(h: seq<Call>)
    ensures After(h).draining <==> EverDrained(h)
  {
    hide Exec, Code;
    if h == [] {
    } else {
      var n := |h| - 1;
      AfterDraining(h[..n]);
      StepOf(After(h[..n]), h[n]);
      assert forall j | 0 <= j < n :: h[..n][j] == h[j];
      assert EverDrained(h) <==> EverDrained(h[..n]) || h[n].MarkDraining? by {
        if EverDrained(h[..n]) {
          var j :| 0 <= j < n && h[..n][j].MarkDraining?;
          assert h[j].MarkDraining?;
        }
      }
    }
  }

  lemma {:induction false} AfterGeneration(h: seq<Call>)
    ensures GenerationOf(h, After(h).generation)
  {
    hide Exec, Code;
    if h == [] {
    } else {
      var n := |h| - 1;
      AfterGeneration(h[..n]);
      StepOf(After(h[..n]), h[n]);
      assert forall j | 0 <= j < n :: h[..n][j] == h[j];
      forall j: nat | LastConnect(h, j) ensures After(h).generation == h[j].generation {
        assert j < n ==> !h[n].SetConnected? && LastConnect(h[..n], j);
      }
      assert NeverConnected(h) ==> NeverConnected(h[..n]) && !h[n].SetConnected?;
    }
  }

  /** Every field of a published record, by the calls made before it and the clock. */
  ghost predicate Reports(record: Record, h: seq<Call>, now: int, stale: int) {
    && (record.draining <==> EverDrained(h))
    && GenerationOf(h, record.generation)
    && record.heartbeatAt == now
    && (forall t: int :: record.verifiedAt == Some(t) <==>
      Evident(h, record.generation, t) && record.generation > 0 && t > 0)
    && record.updatedAt == (if record.verifiedAt.Some? then record.verifiedAt.value else now)
    && (record.ready <==> exists g: nat, t: int :: FreshEvidence(h, g, t, now, stale))
    && record.helloAck == record.ready
  }

  lemma {:induction false} SnapshotReports(h: seq<Call>, now: int, stale: int)
    ensures Reports(Snapshot(After(h), now, stale), h, now, stale)
  {
    hide After, Evident, EverDrained, GenerationOf, FreshEvidence;
    var a, record := After(h), Snapshot(After(h), now, stale);
    AfterDraining(h);
    AfterGeneration(h);
    AlwaysCoherent(h);
    ReadyIffEvident(h, now, stale);
    forall t: int ensures record.verifiedAt == Some(t) <==>
      Evident(h, record.generation, t) && record.generation > 0 && t > 0 {
      ConnectedIffEvident(h, record.generation, t);
    }
  }

  /** In every run the record on disk reports, field by field, the prefix of the calls that it shows. */
  lemma {:induction false} DiskReports(run: seq<Publication>, n: nat, p: nat)
    requires ShowsPrefix(run, n, p)
    ensures Reports(OnDisk(run).value, Calls(run)[..n], run[p].now, run[p].stale)
  {
    hide Reports, After, Snapshot, OnDisk;
    SnapshotReports(Calls(run)[..n], run[p].now, run[p].stale);
  }
}
