/**
 The per-target lock registry of the queue coordinator
 (crates/cdr-runtime/src/queue_runner.rs): a map of weak references, pruned and
 searched under a mutex while strong handles are cloned and dropped at will.
 */
module TargetLocks {
  /** A strong reference to a lock, obtained for a target. */
  datatype Handle = Handle(target: string, lock: nat)

  /** Progress of the one `target_lock` call that holds the registry mutex. */
  datatype Call =
    | Idle
    | Retaining(target: string, pending: set<string>, died: set<nat>)
    | LookingUp(target: string, died: set<nat>)
    | Inserting(target: string, handle: nat)

  /**
   `registry` maps targets to weak references, `handles` are the live strong
   references, `guards` the handles through which a lock is currently held, and
   the counters name fresh allocations. `died`, kept in the call, records the
   locks whose last handle was dropped since the call began.
   */
  datatype State = State(
    registry: map<string, nat>, handles: map<nat, Handle>, guards: set<nat>,
    nextLock: nat, nextHandle: nat, call: Call)

  datatype Step =
    | BeginCall(target: string)
    | RetainOne(target: string)
    | FinishRetain
    | Upgrade
    | Insert
    | Clone(handle: nat)
    | Drop(handle: nat)
    | Acquire(handle: nat)
    | Release(handle: nat)

  /** The strong count of a lock is not zero. */
  predicate Live(handles: map<nat, Handle>, lock: nat) {
    exists h | h in handles :: handles[h].lock == lock
  }

  /** The handle the caller can already use: not the one a call still keeps to itself. */
  predicate Public(s: State, h: nat) {
    h in s.handles && !(s.call.Inserting? && s.call.handle == h)
  }

  predicate Locked(s: State, lock: nat) {
    exists g | g in s.guards :: g in s.handles && s.handles[g].lock == lock
  }

  function NoteDeath(call: Call, lock: nat): Call {
    match call
    case Retaining(t, pending, died) => Retaining(t, pending, died + {lock})
    case LookingUp(t, died) => LookingUp(t, died + {lock})
    case _ => call
  }

  function AddHandle(s: State, handle: Handle): State {
    s.(handles := s.handles[s.nextHandle := handle], nextHandle := s.nextHandle + 1)
  }

  function DropHandle(s: State, h: nat): State
    requires h in s.handles
  {
    var handles := s.handles - {h};
    var lock := s.handles[h].lock;
    s.(handles := handles, call := if Live(handles, lock) then s.call else NoteDeath(s.call, lock))
  }

  /** Weak upgrade, or a new lock when there is nothing to upgrade. */
  function UpgradeOrCreate(s: State, target: string): State {
    if target in s.registry && Live(s.handles, s.registry[target]) then
      AddHandle(s, Handle(target, s.registry[target])).(call := Idle)
    else
      AddHandle(s, Handle(target, s.nextLock)).(nextLock := s.nextLock + 1, call := Inserting(target, s.nextHandle))
  }

  /** One atomic step; a step that is not possible leaves the state as it is. */
  function Next(s: State, step: Step): State {
    match step
    case BeginCall(target) =>
      if s.call.Idle? then s.(call := Retaining(target, s.registry.Keys, {})) else s
    case RetainOne(t) =>
      if s.call.Retaining? && t in s.call.pending && t in s.registry then
        var call := s.call.(pending := s.call.pending - {t});
        if Live(s.handles, s.registry[t]) then s.(call := call)
        else s.(registry := s.registry - {t}, call := call)
      else s
    case FinishRetain =>
      if s.call.Retaining? && s.call.pending == {} then s.(call := LookingUp(s.call.target, s.call.died)) else s
    case Upgrade =>
      if s.call.LookingUp? then UpgradeOrCreate(s, s.call.target) else s
    case Insert =>
      if s.call.Inserting? && s.call.handle in s.handles then
        s.(registry := s.registry[s.call.target := s.handles[s.call.handle].lock], call := Idle)
      else s
    case Clone(h) =>
      if Public(s, h) then AddHandle(s, s.handles[h]) else s
    case Drop(h) =>
      if Public(s, h) && h !in s.guards then DropHandle(s, h) else s
    case Acquire(h) =>
      if Public(s, h) && !Locked(s, s.handles[h].lock) then s.(guards := s.guards + {h}) else s
    case Release(h) => s.(guards := s.guards - {h})
  }

  function Run(s: State, steps: seq<Step>): State
    decreases |steps|
  {
    if steps == [] then s else Run(Next(s, steps[0]), steps[1..])
  }

  const EMPTY: State := State(map[], map[], {}, 0, 0, Idle)

  /**
   Every usable handle of a target is the one the registry points to; a handle
   being inserted is the target's only one.
   */
  ghost predicate Registered(s: State) {
    forall h | h in s.handles ::
      if Public(s, h) then
        && s.handles[h].target in s.registry && s.registry[s.handles[h].target] == s.handles[h].lock
        && !(s.call.Inserting? && s.call.target == s.handles[h].target)
      else s.handles[h].target == s.call.target
  }

  /** Locks belong to one target each. */
  ghost predicate OwnedLocks(s: State) {
    && (forall t, u | t in s.registry && u in s.registry && s.registry[t] == s.registry[u] :: t == u)
    && (forall t | t in s.registry :: s.registry[t] < s.nextLock)
    && (forall h | h in s.handles :: s.handles[h].lock < s.nextLock && h < s.nextHandle)
    && (s.call.Inserting? ==>
          && s.call.handle in s.handles
          && forall t | t in s.registry :: s.registry[t] != s.handles[s.call.handle].lock)
  }

  ghost predicate Guarded(s: State) {
    && s.guards <= s.handles.Keys
    && (s.call.Inserting? ==> s.call.handle !in s.guards)
    && forall g, k | g in s.guards && k in s.guards && s.handles[g].lock == s.handles[k].lock :: g == k
  }

  /** Whatever retain has already looked at is alive, or died after the call began. */
  ghost predicate Pruned(s: State) {
    && (s.call.Retaining? ==>
          forall t | t in s.registry && t !in s.call.pending ::
            Live(s.handles, s.registry[t]) || s.registry[t] in s.call.died)
    && (s.call.LookingUp? ==>
          forall t | t in s.registry :: Live(s.handles, s.registry[t]) || s.registry[t] in s.call.died)
  }

  ghost predicate Inv(s: State) {
    Registered(s) && OwnedLocks(s) && Guarded(s) && Pruned(s)
  }

  lemma {:induction false} AddHandleLive(s: State, handle: Handle, lock: nat)
    requires s.nextHandle !in s.handles
    ensures Live(AddHandle(s, handle).handles, lock) <==> Live(s.handles, lock) || handle.lock == lock
  {
    var handles := AddHandle(s, handle).handles;
    assert handles[s.nextHandle] == handle;
    assert forall h | h in s.handles :: h in handles && handles[h] == s.handles[h];
  }

  lemma {:induction false} DropLive(s: State, h: nat, lock: nat)
    requires h in s.handles
    ensures Live(s.handles - {h}, lock) ==> Live(s.handles, lock)
    ensures Live(s.handles, lock) && s.handles[h].lock != lock ==> Live(s.handles - {h}, lock)
  {
    var handles := s.handles - {h};
    assert forall k | k in handles :: k in s.handles && handles[k] == s.handles[k];
    assert forall k | k in s.handles && k != h :: k in handles && handles[k] == s.handles[k];
  }

  /** Forgetting a dead lock leaves every live handle registered. */
  lemma {:induction false} RetainKeeps(s: State, t: string)
    requires Inv(s) && s.call.Retaining? && t in s.call.pending && t in s.registry
    ensures Inv(Next(s, RetainOne(t)))
  {
    hide Registered, OwnedLocks, Guarded, Pruned;
    RetainKeepsRegistered(s, t);
    RetainKeepsTheRest(s, t);
  }

  lemma {:induction false} RetainKeepsRegistered(s: State, t: string)
    requires Registered(s) && s.call.Retaining? && t in s.call.pending && t in s.registry
    ensures Registered(Next(s, RetainOne(t)))
  {
    assert forall h | h in s.handles && s.handles[h].lock == s.registry[t] :: Live(s.handles, s.registry[t]);
  }

  lemma {:induction false} RetainKeepsTheRest(s: State, t: string)
    requires OwnedLocks(s) && Guarded(s) && Pruned(s) && s.call.Retaining? && t in s.call.pending && t in s.registry
    ensures var s' := Next(s, RetainOne(t)); OwnedLocks(s') && Guarded(s') && Pruned(s')
  {
    hide Live;
  }

  /** One more handle of a lock that the registry holds for the target. */
  lemma {:induction false} ShareKeeps(s: State, handle: Handle)
    requires Inv(s) && handle.target in s.registry && s.registry[handle.target] == handle.lock
    requires !(s.call.Inserting? && s.call.target == handle.target)
    ensures Inv(AddHandle(s, handle))
  {
    var s' := AddHandle(s, handle);
    assert forall h | h in s.handles :: h != s.nextHandle && h in s'.handles && s'.handles[h] == s.handles[h];
    assert OwnedLocks(s');
    assert Registered(s');
    assert Guarded(s');
    assert Pruned(s') by {
      forall l: nat | Live(s.handles, l) ensures Live(s'.handles, l) { AddHandleLive(s, handle, l); }
    }
  }

  /** A new lock for a target that has no live handle. */
  lemma {:induction false} CreateKeeps(s: State, t: string)
    requires Inv(s) && s.call.LookingUp? && forall h | h in s.handles :: s.handles[h].target != t
    ensures Inv(AddHandle(s, Handle(t, s.nextLock)).(nextLock := s.nextLock + 1, call := Inserting(t, s.nextHandle)))
  {
    hide Live;
    var s' := AddHandle(s, Handle(t, s.nextLock)).(nextLock := s.nextLock + 1, call := Inserting(t, s.nextHandle));
    assert forall h | h in s.handles :: h != s.nextHandle && h in s'.handles && s'.handles[h] == s.handles[h];
    assert OwnedLocks(s');
    assert Registered(s');
    assert Guarded(s');
  }

  lemma {:induction false} UpgradeKeeps(s: State)
    requires Inv(s) && s.call.LookingUp?
    ensures Inv(Next(s, Upgrade))
  {
    var t := s.call.target;
    if t in s.registry && Live(s.handles, s.registry[t]) {
      ShareKeeps(s, Handle(t, s.registry[t]));
    } else {
      assert forall h | h in s.handles && s.handles[h].target == t :: Live(s.handles, s.registry[t]);
      CreateKeeps(s, t);
    }
  }

  lemma {:induction false} InsertKeeps(s: State)
    requires Inv(s) && s.call.Inserting?
    ensures Inv(Next(s, Insert))
  {
    hide Live;
  }

  lemma {:induction false} AcquireKeeps(s: State, h: nat)
    requires Inv(s) && Public(s, h) && !Locked(s, s.handles[h].lock)
    ensures Inv(Next(s, Acquire(h)))
  {
    hide Live;
    assert forall g | g in s.guards && s.handles[g].lock == s.handles[h].lock :: Locked(s, s.handles[h].lock);
  }

  lemma {:induction false} CloneKeeps(s: State, h: nat)
    requires Inv(s)
    ensures Inv(Next(s, Clone(h)))
  {
    if Public(s, h) {
      ShareKeeps(s, s.handles[h]);
    }
  }

  lemma {:induction false} DropKeepsPruned(s: State, h: nat)
    requires Pruned(s) && h in s.handles
    ensures Pruned(DropHandle(s, h))
  {
    var s' := DropHandle(s, h);
    forall t | t in s.registry && Live(s.handles, s.registry[t])
      ensures Live(s'.handles, s.registry[t]) || s.registry[t] == s.handles[h].lock
    {
      DropLive(s, h, s.registry[t]);
    }
  }

  lemma {:induction false} DropKeepsOwners(s: State, h: nat)
    requires Registered(s) && OwnedLocks(s) && Guarded(s) && Public(s, h) && h !in s.guards
    ensures var s' := DropHandle(s, h); Registered(s') && OwnedLocks(s') && Guarded(s')
  {
    hide Registered, OwnedLocks, Guarded, Live;
    DropKeepsRegistered(s, h);
    DropKeepsOwned(s, h);
    DropKeepsGuarded(s, h);
  }

  lemma {:induction false} DropKeepsRegistered(s: State, h: nat)
    requires Registered(s) && Public(s, h)
    ensures Registered(DropHandle(s, h))
  {
    hide Live;
    var s' := DropHandle(s, h);
    assert forall k | k in s'.handles ::
      k in s.handles && s'.handles[k] == s.handles[k] && Public(s, k) == Public(s', k);
  }

  lemma {:induction false} DropKeepsOwned(s: State, h: nat)
    requires OwnedLocks(s) && Public(s, h)
    ensures OwnedLocks(DropHandle(s, h))
  {
    hide Live;
  }

  lemma {:induction false} DropKeepsGuarded(s: State, h: nat)
    requires Guarded(s) && Public(s, h) && h !in s.guards
    ensures Guarded(DropHandle(s, h))
  {
    hide Live;
  }

  lemma {:induction false} DropKeeps(s: State, h: nat)
    requires Inv(s)
    ensures Inv(Next(s, Drop(h)))
  {
    if Public(s, h) && h !in s.guards {
      DropKeepsPruned(s, h);
      DropKeepsOwners(s, h);
    }
  }

  /** Every atomic step keeps the registry invariant. */
  lemma {:induction false} NextKeeps(s: State, step: Step)
    requires Inv(s)
    ensures Inv(Next(s, step))
  {
    hide Live;
    match step
    case RetainOne(t) => if s.call.Retaining? && t in s.call.pending && t in s.registry { RetainKeeps(s, t); }
    case Upgrade => if s.call.LookingUp? { UpgradeKeeps(s); }
    case Insert => if s.call.Inserting? { InsertKeeps(s); }
    case Acquire(h) => if Public(s, h) && !Locked(s, s.handles[h].lock) { AcquireKeeps(s, h); }
    case Clone(h) => CloneKeeps(s, h);
    case Drop(h) => DropKeeps(s, h);
    case _ =>
  }

  lemma {:induction false} RunKeeps(s: State, steps: seq<Step>)
    requires Inv(s)
    ensures Inv(Run(s, steps))
    decreases |steps|
  {
    if steps == [] {
    } else {
      NextKeeps(s, steps[0]);
      RunKeeps(Next(s, steps[0]), steps[1..]);
    }
  }

  /**
   In every run, all live handles of a target are one lock and handles of
   different targets are different locks, so at most one guard per target exists.
   */
  lemma {:induction false} OneLockPerTarget(steps: seq<Step>)
    ensures var s := Run(EMPTY, steps);
      && (forall h, k | h in s.handles && k in s.handles ::
            s.handles[h].target == s.handles[k].target <==> s.handles[h].lock == s.handles[k].lock)
      && s.guards <= s.handles.Keys
      && (forall g, k | g in s.guards && k in s.guards && s.handles[g].target == s.handles[k].target :: g == k)
  {
    RunKeeps(EMPTY, steps);
  }

  /** When retain is over, the registry holds only live locks and locks that died while the call was running. */
  lemma {:induction false} RetainLeavesLiveTargets(steps: seq<Step>, t: string)
    requires var s := Run(EMPTY, steps); s.call.LookingUp? && t in s.registry
    ensures var s := Run(EMPTY, steps); Live(s.handles, s.registry[t]) || s.registry[t] in s.call.died
  {
    RunKeeps(EMPTY, steps);
  }

  // ------------------------------------------------------------------ uninterrupted calls

  function LivePart(locks: map<string, nat>, live: set<nat>): map<string, nat> {
    map t | t in locks && locks[t] in live :: locks[t]
  }

  /** The lock a call returns when nothing interrupts it. */
  function Chosen(locks: map<string, nat>, live: set<nat>, target: string, unused: nat): nat {
    if target in locks && locks[target] in live then locks[target] else unused
  }

  /** The registry object. */
  class Registry {
    var locks: map<string, nat>

    constructor ()
      ensures locks == map[]
    {
      locks := map[];
    }

    /** Drops the entries whose lock has no strong reference. */
    method Retain(live: set<nat>)
      modifies this
      ensures locks == LivePart(old(locks), live)
    {
      var todo := locks.Keys;
      while todo != {}
        invariant todo <= locks.Keys <= old(locks).Keys
        invariant forall t | t in old(locks) :: t in locks <==> t in todo || old(locks)[t] in live
        invariant forall t | t in locks :: locks[t] == old(locks)[t]
        decreases |todo|
      {
        var t :| t in todo;
        if locks[t] !in live {
          locks := locks - {t};
        }
        todo := todo - {t};
      }
    }

    /**
     `target_lock`: prune, then share the live lock of the target or file a new
     one. `live` are the locks with a strong reference, `unused` the next
     allocation.
     */
    method TargetLock(target: string, live: set<nat>, unused: nat) returns (lock: nat)
      modifies this
      ensures lock == Chosen(old(locks), live, target, unused)
      ensures locks == LivePart(old(locks), live)[target := lock]
    {
      Retain(live);
      if target in locks {
        lock := locks[target];
        assert locks[target := lock] == locks;
        return;
      }
      lock := unused;
      locks := locks[target := lock];
    }
  }

  function RetainSteps(order: seq<string>): seq<Step> {
    seq(|order|, i requires 0 <= i < |order| => RetainOne(order[i]))
  }

  lemma {:induction false} RunAppend(s: State, a: seq<Step>, b: seq<Step>)
    ensures Run(s, a + b) == Run(Run(s, a), b)
    decreases |a|
  {
    if a == [] {
      assert a + b == b;
    } else {
      assert (a + b)[1..] == a[1..] + b;
      RunAppend(Next(s, a[0]), a[1..], b);
    }
  }

  ghost predicate Counts(s: State, live: set<nat>) {
    forall l: nat :: l in live <==> Live(s.handles, l)
  }

  lemma {:induction false} RetainRun(s: State, order: seq<string>, live: set<nat>)
    requires s.call.Retaining? && Counts(s, live) && s.call.pending <= s.registry.Keys
    requires forall t | t in s.call.pending :: t in order
    requires forall t | t in s.registry && t !in s.call.pending :: s.registry[t] in live
    ensures Run(s, RetainSteps(order)) ==
            s.(registry := LivePart(s.registry, live), call := Retaining(s.call.target, {}, s.call.died))
    decreases |order|
  {
    if order == [] {
      assert LivePart(s.registry, live) == s.registry;
    } else {
      var s' := Next(s, RetainOne(order[0]));
      assert RetainSteps(order)[1..] == RetainSteps(order[1..]);
      assert LivePart(s'.registry, live) == LivePart(s.registry, live);
      RetainRun(s', order[1..], live);
    }
  }

  lemma {:induction false} ThreeSteps(s: State, a: Step, b: Step, c: Step)
    ensures Run(s, [a, b, c]) == Next(Next(Next(s, a), b), c)
  {
    assert [a, b, c][1..] == [b, c] && [b, c][1..] == [c] && [c][1..] == [];
    assert Run(Next(Next(s, a), b), [c]) == Run(Next(Next(Next(s, a), b), c), []);
  }

  lemma {:induction false} LookupRun(s: State, live: set<nat>)
    requires s.call.Retaining? && s.call.pending == {} && Counts(s, live) && s.nextHandle !in s.handles
    ensures var s' := Run(s, [FinishRetain, Upgrade, Insert]);
      var lock := Chosen(s.registry, live, s.call.target, s.nextLock);
      && s'.call == Idle
      && s'.registry == s.registry[s.call.target := lock]
      && s'.handles == s.handles[s.nextHandle := Handle(s.call.target, lock)]
  {
    ThreeSteps(s, FinishRetain, Upgrade, Insert);
    var target := s.call.target;
    if target in s.registry && s.registry[target] in live {
      assert s.registry[target := s.registry[target]] == s.registry;
    }
  }

  /**
   A call that nothing interrupts leaves the registry that the object's method
   computes, and its handle is the chosen lock.
   */
  lemma {:induction false} UninterruptedCall(s: State, target: string, order: seq<string>, live: set<nat>)
    requires Inv(s) && s.call.Idle? && Counts(s, live) && forall t | t in s.registry :: t in order
    ensures var s' := Run(s, [BeginCall(target)] + RetainSteps(order) + [FinishRetain, Upgrade, Insert]);
      var lock := Chosen(s.registry, live, target, s.nextLock);
      && s'.call == Idle
      && s'.registry == LivePart(s.registry, live)[target := lock]
      && s'.handles == s.handles[s.nextHandle := Handle(target, lock)]
  {
    var begun := Next(s, BeginCall(target));
    RunAppend(s, [BeginCall(target)] + RetainSteps(order), [FinishRetain, Upgrade, Insert]);
    RunAppend(s, [BeginCall(target)], RetainSteps(order));
    assert Run(s, [BeginCall(target)]) == Run(begun, []);
    RetainRun(begun, order, live);
    LookupRun(Run(begun, RetainSteps(order)), live);
  }

  // ------------------------------------------------------------------ handles do what they are for

  /** A clone is one more handle of the same lock, and the original stays. */
  lemma {:induction false} CloneSharesTheLock(s: State, h: nat)
    requires Inv(s) && Public(s, h)
    ensures var s' := Next(s, Clone(h));
      && s.nextHandle !in s.handles && s'.handles == s.handles[s.nextHandle := s.handles[h]]
      && s'.registry == s.registry && s'.guards == s.guards
  {
  }

  /** A dropped handle is gone, and with the last one the lock is dead. */
  lemma {:induction false} DropLetsGo(s: State, h: nat)
    requires Public(s, h) && h !in s.guards
    ensures var s' := Next(s, Drop(h));
      && s'.handles.Keys == s.handles.Keys - {h} && (forall k | k in s'.handles :: s'.handles[k] == s.handles[k])
      && ((forall k | k in s.handles && k != h :: s.handles[k].lock != s.handles[h].lock) ==>
            !Live(s'.handles, s.handles[h].lock))
  {
  }

  /**
   In every run a handle acquires its lock exactly when no handle of its target
   holds it, and a release gives it back.
   */
  lemma {:induction false} AcquireExactly(steps: seq<Step>, h: nat)
    requires Public(Run(EMPTY, steps), h)
    ensures var s := Run(EMPTY, steps);
      && s.guards <= s.handles.Keys
      && (h in Next(s, Acquire(h)).guards <==>
            h in s.guards || forall g | g in s.guards :: s.handles[g].target != s.handles[h].target)
      && h !in Next(s, Release(h)).guards
      && (forall g | g != h :: g in Next(s, Release(h)).guards <==> g in s.guards)
  {
    var s := Run(EMPTY, steps);
    RunKeeps(EMPTY, steps);
    OneLockPerTarget(steps);
    assert Locked(s, s.handles[h].lock) <==> exists g | g in s.guards :: s.handles[g].target == s.handles[h].target;
  }
}
