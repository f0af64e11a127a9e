/**
 The token-usage accumulator (crates/cdr-codex-state/src/context_usage.rs): a
 stream of session events folded into peak, last and inferred compactions.
 */
module ContextUsage {
  import opened Options
  import opened Json
  import opened Sequences

  datatype Usage = Usage(
    lastInput: nat, peakInput: nat, lastTotal: Option<nat>, window: Option<nat>,
    compactions: nat, lastCompaction: Option<(nat, nat)>, observedAt: Option<string>)

  datatype UsageError =
    | InfoNotObject
    | InputMissing
    | InputNotInteger
    | NumberNotInteger

  // ------------------------------------------------------------------ from events to observations

  /** What an event contributes: a context-window report or a token observation. */
  datatype Observation =
    | Window(window: Option<nat>)
    | Input(input: nat, total: Option<nat>, at: Option<string>)

  /** The contributions of one event, up to the point where it turns out malformed. */
  datatype Reading = Reading(observations: seq<Observation>, error: Option<UsageError>)

  function Number(v: Json): Result<Option<nat>, UsageError> {
    if v.JNull? then Ok(None) else if AsU64(v).Some? then Ok(AsU64(v)) else Err(NumberNotInteger)
  }

  function ReadWindow(v: Json): Reading {
    var window := Get(v, "model_context_window");
    if window.None? then Reading([], None)
    else match Number(window.value)
      case Err(e) => Reading([], Some(e))
      case Ok(n) => Reading([Window(if n.Some? && n.value > 0 then n else None)], None)
  }

  function ReadInput(last: Json, event: Json): Reading {
    var input := Get(last, "input_tokens");
    var total := Get(last, "total_tokens");
    if input.None? then Reading([], Some(InputMissing))
    else if AsU64(input.value).None? then Reading([], Some(InputNotInteger))
    else if total.Some? && Number(total.value).Err? then Reading([], Some(NumberNotInteger))
    else
      Reading([Input(AsU64(input.value).value, if total.Some? then Number(total.value).value else None,
                     AsString(Get(event, "timestamp")))], None)
  }

  function ReadEvent(event: Json): Reading {
    var payload := Index(event, "payload");
    if Index(event, "type") != JString("event_msg") then Reading([], None)
    else if Index(payload, "type") == JString("task_started") then ReadWindow(payload)
    else if Index(payload, "type") == JString("token_count") then
      var info := Index(payload, "info");
      if info.JNull? then Reading([], None)
      else if !info.JObject? then Reading([], Some(InfoNotObject))
      else
        var window := ReadWindow(info);
        var last := NonNull(Get(info, "last_token_usage"));
        if window.error.Some? || last.None? then window
        else
          var input := ReadInput(last.value, event);
          Reading(window.observations + input.observations, input.error)
    else Reading([], None)
  }

  // ------------------------------------------------------------------ the accumulator

  datatype State = State(usage: Option<Usage>, window: Option<nat>, previous: Option<nat>)

  const EMPTY: State := State(None, None, None)

  predicate FellFar(previous: nat, input: nat) {
    previous >= 50_000 && input < previous && input * 5 < previous * 4 && previous - input >= 25_000
  }

  function SaturatingAdd(n: nat): nat {
    if n + 1 < U64_LIMIT then n + 1 else n
  }

  function Observe(s: State, o: Observation): State {
    match o
    case Window(next) => State(s.usage, next, if s.window != next then None else s.previous)
    case Input(input, total, at) =>
      var usage := if s.usage.Some? then s.usage.value else Usage(0, 0, None, None, 0, None, None);
      var compacted := s.previous.Some? && input > 0 && FellFar(s.previous.value, input);
      State(
        Some(Usage(input, if usage.peakInput < input then input else usage.peakInput, total, s.window,
                   if compacted then SaturatingAdd(usage.compactions) else usage.compactions,
                   if compacted then Some((s.previous.value, input)) else usage.lastCompaction, at)),
        s.window,
        if input > 0 then Some(input) else s.previous)
  }

  function Fold(observations: seq<Observation>): State {
    if observations == [] then EMPTY
    else Observe(Fold(observations[..|observations| - 1]), observations[|observations| - 1])
  }

  function ObserveAll(s: State, observations: seq<Observation>): State
    decreases |observations|
  {
    if observations == [] then s else ObserveAll(Observe(s, observations[0]), observations[1..])
  }

  class Accumulator {
    var usage: Option<Usage>
    var window: Option<nat>
    var previous: Option<nat>

    function View(): State
      reads this
    {
      State(usage, window, previous)
    }

    constructor ()
      ensures View() == EMPTY
    {
      usage, window, previous := None, None, None;
    }

    method UpdateWindow(v: Json) returns (error: Option<UsageError>)
      modifies this
      ensures error == ReadWindow(v).error && View() == ObserveAll(old(View()), ReadWindow(v).observations)
    {
      var field := Get(v, "model_context_window");
      if field.Some? {
        var n := Number(field.value);
        if n.Err? {
          return Some(n.error);
        }
        var next := if n.value.Some? && n.value.value > 0 then n.value else None;
        if window != next {
          previous := None;
        }
        window := next;
        assert ReadWindow(v).observations[1..] == [];
      }
      return None;
    }

    method Record(last: Json, event: Json) returns (error: Option<UsageError>)
      modifies this
      ensures error == ReadInput(last, event).error
        && View() == ObserveAll(old(View()), ReadInput(last, event).observations)
    {
      hide Get, ObserveAll, AsString, AsU64, FellFar, SaturatingAdd;
      var field := Get(last, "input_tokens");
      ObserveNone(View());
      if field.None? {
        return Some(InputMissing);
      }
      var number := AsU64(field.value);
      if number.None? {
        return Some(InputNotInteger);
      }
      var input := number.value;
      var total: Option<nat> := None;
      var totalField := Get(last, "total_tokens");
      if totalField.Some? {
        var n := Number(totalField.value);
        if n.Err? {
          return Some(n.error);
        }
        total := n.value;
      }
      var u := if usage.Some? then usage.value else Usage(0, 0, None, None, 0, None, None);
      if previous.Some? && input > 0 && FellFar(previous.value, input) {
        u := u.(compactions := SaturatingAdd(u.compactions), lastCompaction := Some((previous.value, input)));
      }
      if input > 0 {
        previous := Some(input);
      }
      u := u.(lastInput := input, peakInput := if u.peakInput < input then input else u.peakInput);
      u := u.(lastTotal := total, window := window);
      u := u.(observedAt := AsString(Get(event, "timestamp")));
      usage := Some(u);
      ObserveOne(old(View()), Input(input, total, AsString(Get(event, "timestamp"))));
      return None;
    }

    /** `Accumulator::push`. */
    method Push(event: Json) returns (error: Option<UsageError>)
      modifies this
      ensures error == ReadEvent(event).error && View() == ObserveAll(old(View()), ReadEvent(event).observations)
    {
      if Index(event, "type") != JString("event_msg") {
        return None;
      }
      var payload := Index(event, "payload");
      if Index(payload, "type") == JString("task_started") {
        error := UpdateWindow(payload);
      } else if Index(payload, "type") == JString("token_count") {
        var info := Index(payload, "info");
        if info.JNull? {
          return None;
        }
        if !info.JObject? {
          return Some(InfoNotObject);
        }
        error := UpdateWindow(info);
        if error.Some? {
          return;
        }
        var last := NonNull(Get(info, "last_token_usage"));
        if last.Some? {
          error := Record(last.value, event);
          ObserveAllAppend(old(View()), ReadWindow(info).observations, ReadInput(last.value, event).observations);
        }
      } else {
        return None;
      }
    }
  }

  lemma {:induction false} ObserveNone(s: State)
    ensures ObserveAll(s, []) == s
  {
  }

  lemma {:induction false} ObserveOne(s: State, o: Observation)
    ensures ObserveAll(s, [o]) == Observe(s, o)
  {
    assert [o][1..] == [];
  }

  lemma {:induction false} ObserveAllAppend(s: State, a: seq<Observation>, b: seq<Observation>)
    ensures ObserveAll(s, a + b) == ObserveAll(ObserveAll(s, a), b)
    decreases |a|
  {
    if a == [] {
      assert a + b == b;
    } else {
      assert (a + b)[1..] == a[1..] + b;
      ObserveAllAppend(Observe(s, a[0]), a[1..], b);
    }
  }

  lemma {:induction false} FoldAppend(a: seq<Observation>, b: seq<Observation>)
    ensures Fold(a + b) == ObserveAll(Fold(a), b)
    decreases |b|
  {
    if b == [] {
      assert a + b == a;
    } else {
      var a' := a + [b[0]];
      assert a'[..|a|] == a && a' + b[1..] == a + b;
      FoldAppend(a', b[1..]);
    }
  }

  /** The observations of a list of events; a malformed event makes the whole list fail. */
  function ReadEvents(events: seq<Json>): Result<seq<Observation>, UsageError> {
    if events == [] then Ok([])
    else
      var first := ReadEvent(events[0]);
      if first.error.Some? then Err(first.error.value)
      else match ReadEvents(events[1..])
        case Err(e) => Err(e)
        case Ok(rest) => Ok(first.observations + rest)
  }

  /** `done` are the observations of the events before `remaining`. */
  ghost predicate Pending(events: seq<Json>, done: seq<Observation>, remaining: seq<Json>) {
    match ReadEvents(remaining)
    case Err(e) => ReadEvents(events) == Err(e)
    case Ok(rest) => ReadEvents(events) == Ok(done + rest)
  }

  lemma {:induction false} PendingStep(events: seq<Json>, done: seq<Observation>, remaining: seq<Json>)
    requires remaining != [] && Pending(events, done, remaining)
    ensures ReadEvent(remaining[0]).error.Some? ==> ReadEvents(events) == Err(ReadEvent(remaining[0]).error.value)
    ensures ReadEvent(remaining[0]).error.None? ==>
      Pending(events, done + ReadEvent(remaining[0]).observations, remaining[1..])
  {
    var first, rest := ReadEvent(remaining[0]), ReadEvents(remaining[1..]);
    if first.error.None? && rest.Ok? {
      assert done + (first.observations + rest.value) == (done + first.observations) + rest.value;
    }
  }

  lemma {:induction false} PendingEnds(events: seq<Json>, done: seq<Observation>)
    ensures Pending(events, [], events)
    ensures Pending(events, done, []) ==> ReadEvents(events) == Ok(done)
  {
    if ReadEvents(events).Ok? {
      assert [] + ReadEvents(events).value == ReadEvents(events).value;
    }
    assert done + [] == done;
  }

  /** `context_usage_from_events`: the fold of the observations of all events. */
  method ContextUsageFromEvents(events: seq<Json>) returns (result: Result<Option<Usage>, UsageError>)
    ensures match ReadEvents(events)
      case Err(e) => result == Err(e)
      case Ok(observations) => result == Ok(Fold(observations).usage)
  {
    var state := new Accumulator();
    var remaining := events;
    ghost var done: seq<Observation> := [];
    PendingEnds(events, done);
    while remaining != []
      invariant state.View() == Fold(done)
      invariant Pending(events, done, remaining)
      decreases |remaining|
    {
      PendingStep(events, done, remaining);
      var error := state.Push(remaining[0]);
      if error.Some? {
        return Err(error.value);
      }
      FoldAppend(done, ReadEvent(remaining[0]).observations);
      done := done + ReadEvent(remaining[0]).observations;
      remaining := remaining[1..];
    }
    PendingEnds(events, done);
    return Ok(state.usage);
  }

  // ------------------------------------------------------------------ what the fold means

  /** The window in force before the i-th observation. */
  function WindowBefore(os: seq<Observation>, i: nat): Option<nat>
    requires i <= |os|
  {
    if i == 0 then None else if os[i - 1].Window? then os[i - 1].window else WindowBefore(os, i - 1)
  }

  predicate Positive(os: seq<Observation>, i: nat)
    requires i < |os|
  {
    os[i].Input? && os[i].input > 0
  }

  predicate Changes(os: seq<Observation>, i: nat)
    requires i < |os|
  {
    os[i].Window? && os[i].window != WindowBefore(os, i)
  }

  /** `j` is the nearest positive observation before position `k`, with no window change since. */
  ghost predicate Nearest(os: seq<Observation>, j: nat, k: nat)
    requires k <= |os|
  {
    j < k && Positive(os, j) && forall m | j < m < k :: !Positive(os, m) && !Changes(os, m)
  }

  ghost predicate Compaction(os: seq<Observation>, j: nat, k: nat) {
    k < |os| && Nearest(os, j, k) && Positive(os, k) && FellFar(os[j].input, os[k].input)
  }

  ghost predicate CompactsAt(os: seq<Observation>, k: nat) {
    exists j: nat :: Compaction(os, j, k)
  }

  /** How many of the first `n` observations complete a compaction. */
  ghost function CountCompactions(os: seq<Observation>, n: nat): nat
    requires n <= |os|
  {
    if n == 0 then 0 else CountCompactions(os, n - 1) + if CompactsAt(os, n - 1) then 1 else 0
  }

  lemma {:induction false} WindowLocal(os: seq<Observation>, more: seq<Observation>, i: nat)
    requires i <= |os|
    ensures WindowBefore(os + more, i) == WindowBefore(os, i)
  {
    if i == 0 {
    } else {
      WindowLocal(os, more, i - 1);
    }
  }

  lemma {:induction false} NearestLocal(os: seq<Observation>, more: seq<Observation>, j: nat, k: nat)
    requires k <= |os|
    ensures Nearest(os + more, j, k) <==> Nearest(os, j, k)
  {
    forall m: nat | m < k ensures Positive(os + more, m) == Positive(os, m) && Changes(os + more, m) == Changes(os, m) {
      WindowLocal(os, more, m);
    }
  }

  lemma {:induction false} CompactionLocal(os: seq<Observation>, more: seq<Observation>, k: nat)
    requires k < |os|
    ensures forall j: nat :: Compaction(os + more, j, k) <==> Compaction(os, j, k)
    ensures CompactsAt(os + more, k) <==> CompactsAt(os, k)
  {
    forall j: nat ensures Compaction(os + more, j, k) <==> Compaction(os, j, k) {
      NearestLocal(os, more, j, k);
    }
  }

  lemma {:induction false} CountLocal(os: seq<Observation>, more: seq<Observation>, n: nat)
    requires n <= |os|
    ensures CountCompactions(os + more, n) == CountCompactions(os, n)
  {
    if n == 0 {
    } else {
      CountLocal(os, more, n - 1);
      CompactionLocal(os, more, n - 1);
    }
  }

  /** The state's two links to the past: the window in force and the nearest unbroken positive observation. */
  ghost predicate Linked(os: seq<Observation>, s: State) {
    && s.window == WindowBefore(os, |os|)
    && (s.previous.Some? ==> exists j: nat :: Nearest(os, j, |os|) && s.previous == Some(os[j].input))
    && (s.previous.None? ==> forall j: nat :: !Nearest(os, j, |os|))
  }

  lemma {:induction false} NearestUnique(os: seq<Observation>, i: nat, j: nat, k: nat)
    requires k <= |os| && Nearest(os, i, k) && Nearest(os, j, k)
    ensures i == j
  {
  }

  /** Which observation is nearest after one more. */
  lemma {:induction false} NearestStep(prior: seq<Observation>, o: Observation, j: nat)
    ensures var os, n := prior + [o], |prior|;
      Nearest(os, j, n + 1) <==> if Positive(os, n) then j == n else !Changes(os, n) && Nearest(prior, j, n)
  {
    var os, n := prior + [o], |prior|;
    NearestLocal(prior, [o], j, n);
    if Nearest(os, j, n + 1) && !Positive(os, n) {
      assert !Changes(os, n);
      assert Nearest(os, j, n);
    }
    if Nearest(os, j, n) && !Positive(os, n) && !Changes(os, n) {
      assert Nearest(os, j, n + 1);
    }
  }

  lemma {:induction false} FoldLinked(os: seq<Observation>)
    ensures Linked(os, Fold(os))
  {
    if os == [] {
    } else {
      var n := |os| - 1;
      var prior, o := os[..n], os[n];
      assert os == prior + [o];
      FoldLinked(prior);
      var s, s' := Fold(prior), Fold(os);
      WindowLocal(prior, [o], n);
      assert Changes(os, n) <==> o.Window? && o.window != s.window;
      forall j: nat
        ensures Nearest(os, j, n + 1) <==> if Positive(os, n) then j == n else !Changes(os, n) && Nearest(prior, j, n)
      {
        NearestStep(prior, o, j);
      }
      if Positive(os, n) {
        assert Nearest(os, n, n + 1) && s'.previous == Some(os[n].input);
      } else if s'.previous.Some? {
        var j: nat :| Nearest(prior, j, n) && s.previous == Some(prior[j].input);
        assert Nearest(os, j, n + 1) && os[j] == prior[j];
      } else {
        forall j: nat ensures !Nearest(os, j, |os|) {
          assert s.previous.None? ==> !Nearest(prior, j, |prior|);
        }
      }
    }
  }

  /** The next observation completes a compaction exactly when the accumulator infers one. */
  lemma {:induction false} InfersExactly(prior: seq<Observation>, o: Observation)
    requires o.Input?
    ensures var s := Fold(prior);
      CompactsAt(prior + [o], |prior|) <==> s.previous.Some? && o.input > 0 && FellFar(s.previous.value, o.input)
    ensures forall j: nat | Compaction(prior + [o], j, |prior|) :: Fold(prior).previous == Some((prior + [o])[j].input)
  {
    var os, n, s := prior + [o], |prior|, Fold(prior);
    FoldLinked(prior);
    forall j: nat ensures Nearest(os, j, n) <==> Nearest(prior, j, n) {
      NearestLocal(prior, [o], j, n);
    }
    if s.previous.Some? {
      var j: nat :| Nearest(prior, j, n) && s.previous == Some(prior[j].input);
      forall i: nat | Nearest(prior, i, n) ensures i == j {
        NearestUnique(prior, i, j, n);
      }
      assert Nearest(os, j, n) && os[j] == prior[j];
      if o.input > 0 && FellFar(s.previous.value, o.input) {
        assert Compaction(os, j, n);
      }
    }
  }

  /** Inferred compactions are counted exactly, up to the saturation of the counter. */
  lemma {:induction false} CompactionsCounted(os: seq<Observation>)
    ensures var s, n := Fold(os), CountCompactions(os, |os|);
      && (s.usage.None? ==> n == 0)
      && (s.usage.Some? ==> s.usage.value.compactions == if n < U64_LIMIT then n else U64_LIMIT - 1)
  {
    if os == [] {
    } else {
      var n := |os| - 1;
      var prior, o := os[..n], os[n];
      assert os == prior + [o];
      CompactionsCounted(prior);
      CountLocal(prior, [o], n);
      if o.Input? {
        InfersExactly(prior, o);
      }
    }
  }

  /** The pair `(j, k)` is the latest compaction of the stream. */
  ghost predicate LatestCompaction(os: seq<Observation>, j: nat, k: nat) {
    Compaction(os, j, k) && forall m | k < m < |os| :: !CompactsAt(os, m)
  }

  ghost predicate NoCompaction(os: seq<Observation>) {
    forall k: nat | k < |os| :: !CompactsAt(os, k)
  }

  /** The pair is what the latest compaction, from `j` to `k`, fell from and to. */
  ghost predicate ReportedAt(os: seq<Observation>, pair: (nat, nat), j: nat, k: nat) {
    LatestCompaction(os, j, k) && pair == (os[j].input, os[k].input)
  }

  lemma {:induction false} ReportedNow(prior: seq<Observation>, o: Observation, j: nat)
    requires o.Input? && Compaction(prior + [o], j, |prior|)
    ensures ReportedAt(prior + [o], ((prior + [o])[j].input, o.input), j, |prior|)
  {
    assert (prior + [o])[|prior|] == o;
  }

  lemma {:induction false} ReportedStill(prior: seq<Observation>, o: Observation, pair: (nat, nat), j: nat, k: nat)
    requires ReportedAt(prior, pair, j, k) && !CompactsAt(prior + [o], |prior|)
    ensures ReportedAt(prior + [o], pair, j, k)
  {
    hide CompactsAt;
    forall m: nat | k <= m < |prior|
      ensures (Compaction(prior + [o], j, m) <==> Compaction(prior, j, m))
           && (CompactsAt(prior + [o], m) <==> CompactsAt(prior, m))
    {
      CompactionLocal(prior, [o], m);
    }
  }

  lemma {:induction false} NoneStep(prior: seq<Observation>, o: Observation)
    ensures NoCompaction(prior + [o]) <==> NoCompaction(prior) && !CompactsAt(prior + [o], |prior|)
  {
    hide CompactsAt;
    var os := prior + [o];
    forall k: nat | k < |prior| ensures CompactsAt(os, k) <==> CompactsAt(prior, k) {
      CompactionLocal(prior, [o], k);
    }
  }

  lemma {:induction false} CompactionIsInput(os: seq<Observation>, j: nat, k: nat)
    requires Compaction(os, j, k)
    ensures j < k < |os| && os[j].Input? && os[k].Input?
  {
  }

  lemma {:induction false} OnlyInputsCompact(prior: seq<Observation>, o: Observation)
    requires !o.Input?
    ensures !CompactsAt(prior + [o], |prior|)
  {
    assert (prior + [o])[|prior|] == o;
  }

  /** The reported pair is the latest compaction of the stream, and none is reported if there is none. */
  ghost predicate ReportsLatest(os: seq<Observation>, usage: Option<Usage>) {
    if usage.Some? && usage.value.lastCompaction.Some? then
      exists j: nat, k: nat :: ReportedAt(os, usage.value.lastCompaction.value, j, k)
    else NoCompaction(os)
  }

  lemma {:induction false} LastCompactionIsLatest(os: seq<Observation>)
    ensures ReportsLatest(os, Fold(os).usage)
  {
    if os == [] {
    } else {
      var n := |os| - 1;
      var prior, o := os[..n], os[n];
      Snoc(os);
      LastCompactionIsLatest(prior);
      ReportStep(prior, o);
    }
  }

  lemma {:induction false} ReportStep(prior: seq<Observation>, o: Observation)
    requires ReportsLatest(prior, Fold(prior).usage)
    ensures ReportsLatest(prior + [o], Observe(Fold(prior), o).usage)
  {
    hide ReportedAt, Compaction, NoCompaction, Fold, FellFar;
    var os, s := prior + [o], Fold(prior);
    NoneStep(prior, o);
    if o.Input? {
      InfersExactly(prior, o);
    } else {
      OnlyInputsCompact(prior, o);
    }
    if CompactsAt(os, |prior|) {
      var j: nat :| Compaction(os, j, |prior|);
      CompactionIsInput(os, j, |prior|);
      ReportedNow(prior, o, j);
    } else if s.usage.Some? && s.usage.value.lastCompaction.Some? {
      var pair := s.usage.value.lastCompaction.value;
      var j: nat, k: nat :| ReportedAt(prior, pair, j, k);
      ReportedStill(prior, o, pair, j, k);
    }
  }

  /** `peak` is the largest input of the token observations, of which there is at least one. */
  ghost predicate IsPeak(os: seq<Observation>, peak: nat) {
    && (forall i | 0 <= i < |os| && os[i].Input? :: os[i].input <= peak)
    && exists i: nat | i < |os| :: os[i].Input? && os[i].input == peak
  }

  /** Input, total, time and window are those of observation `i`, the final token observation. */
  ghost predicate IsLast(os: seq<Observation>, u: Usage, i: nat) {
    && i < |os| && os[i] == Input(u.lastInput, u.lastTotal, u.observedAt)
    && u.window == WindowBefore(os, i)
    && forall k | i < k < |os| :: !os[k].Input?
  }

  ghost predicate NoInput(os: seq<Observation>) {
    forall i | 0 <= i < |os| :: !os[i].Input?
  }

  lemma {:induction false} PeakStep(prior: seq<Observation>, o: Observation, peak: nat)
    requires IsPeak(prior, peak)
    ensures IsPeak(prior + [o], if o.Input? && peak < o.input then o.input else peak)
  {
    var os := prior + [o];
    var i: nat :| i < |prior| && prior[i].Input? && prior[i].input == peak;
    assert os[i] == prior[i] && os[|prior|] == o;
  }

  lemma {:induction false} FirstPeak(prior: seq<Observation>, o: Observation)
    requires NoInput(prior) && o.Input?
    ensures IsPeak(prior + [o], o.input)
  {
    assert (prior + [o])[|prior|] == o;
  }

  lemma {:induction false} LastKept(prior: seq<Observation>, o: Observation, u: Usage, i: nat)
    requires IsLast(prior, u, i) && !o.Input?
    ensures IsLast(prior + [o], u, i)
  {
    WindowLocal(prior, [o], i);
  }

  lemma {:induction false} LastReplaced(prior: seq<Observation>, o: Observation, u: Usage)
    requires o == Input(u.lastInput, u.lastTotal, u.observedAt) && u.window == WindowBefore(prior, |prior|)
    ensures IsLast(prior + [o], u, |prior|)
  {
    WindowLocal(prior, [o], |prior|);
  }

  /** Peak is the largest input recorded, and last, total, window and time are those of the final token observation. */
  lemma {:induction false} PeakAndLast(os: seq<Observation>)
    ensures Fold(os).usage.None? <==> NoInput(os)
    ensures Fold(os).usage.Some? ==>
      IsPeak(os, Fold(os).usage.value.peakInput) && exists i: nat :: IsLast(os, Fold(os).usage.value, i)
  {
    hide IsPeak, IsLast, NoInput, FellFar, WindowBefore;
    NoInputStep([], Window(None));
    if os == [] {
    } else {
      var n := |os| - 1;
      var prior, o := os[..n], os[n];
      Snoc(os);
      var s, s' := Fold(prior), Fold(os);
      PeakAndLast(prior);
      NoInputStep(prior, o);
      if o.Input? {
        WindowInForce(prior);
        LastReplaced(prior, o, s'.usage.value);
        if s.usage.None? {
          FirstPeak(prior, o);
        } else {
          PeakStep(prior, o, s.usage.value.peakInput);
        }
      } else if s.usage.Some? {
        PeakStep(prior, o, s.usage.value.peakInput);
        var i: nat :| IsLast(prior, s.usage.value, i);
        LastKept(prior, o, s.usage.value, i);
      }
    }
  }

  lemma {:induction false} NoInputStep(prior: seq<Observation>, o: Observation)
    ensures NoInput([]) && (NoInput(prior + [o]) <==> NoInput(prior) && !o.Input?)
  {
    assert (prior + [o])[|prior|] == o;
    assert forall i | 0 <= i < |prior| :: (prior + [o])[i] == prior[i];
  }

  lemma {:induction false} WindowInForce(os: seq<Observation>)
    ensures Fold(os).window == WindowBefore(os, |os|)
  {
    FoldLinked(os);
  }

  // ------------------------------------------------------------------ thresholds and keys

  /** From at least 50,000, by at least 25,000, to strictly under four fifths. */
  lemma {:induction false} FellFarExactly(previous: nat, input: nat)
    ensures FellFar(previous, input) <==>
      previous >= 50_000 && previous - input >= 25_000 && (input as real) < 0.8 * (previous as real)
  {
    assert (input as real) < 0.8 * (previous as real) <==> 5.0 * (input as real) < 4.0 * (previous as real);
    assert 5.0 * (input as real) == (input * 5) as real && 4.0 * (previous as real) == (previous * 4) as real;
  }

  /** A compaction: two positive inputs, nothing positive and no change of window between them, and a far fall. */
  lemma {:induction false} CompactionExactly(os: seq<Observation>, j: nat, k: nat)
    ensures Compaction(os, j, k) <==>
      && j < k < |os| && os[j].Input? && os[j].input > 0 && os[k].Input? && os[k].input > 0
      && (forall m | j < m < k && os[m].Input? :: os[m].input == 0)
      && (forall m: nat | j < m < k && os[m].Window? :: os[m].window == WindowBefore(os, m))
      && os[j].input >= 50_000 && os[j].input - os[k].input >= 25_000
      && (os[k].input as real) < 0.8 * (os[j].input as real)
  {
    hide FellFar, WindowBefore;
    if j < k < |os| && os[j].Input? && os[k].Input? {
      FellFarExactly(os[j].input, os[k].input);
    }
    if Compaction(os, j, k) {
      forall m: nat | j < m < k ensures (os[m].Input? ==> os[m].input == 0)
        && (os[m].Window? ==> os[m].window == WindowBefore(os, m)) {
        assert !Positive(os, m) && !Changes(os, m);
      }
    }
  }

  /** A nonnegative integer of 64 bits. */
  predicate IsCount(v: Option<Json>, n: nat) {
    v == Some(JInt(n)) && n < 0x1_0000_0000_0000_0000
  }

  predicate IsNoCount(v: Option<Json>) {
    v.Some? && !(v.value.JInt? && 0 <= v.value.n < 0x1_0000_0000_0000_0000)
  }

  /** A window report stands under "model_context_window"; zero and null report no window. */
  lemma {:induction false} WindowExactly(v: Json, n: nat)
    ensures Get(v, "model_context_window") == None ==> ReadWindow(v) == Reading([], None)
    ensures Get(v, "model_context_window") == Some(JNull) ==> ReadWindow(v) == Reading([Window(None)], None)
    ensures IsCount(Get(v, "model_context_window"), n) ==>
      ReadWindow(v) == Reading([Window(if n > 0 then Some(n) else None)], None)
    ensures IsNoCount(Get(v, "model_context_window")) && Get(v, "model_context_window") != Some(JNull) ==>
      ReadWindow(v) == Reading([], Some(NumberNotInteger))
  {
    hide Get;
  }

  predicate TotalIs(v: Option<Json>, total: Option<nat>) {
    if total.Some? then IsCount(v, total.value) else v == None || v == Some(JNull)
  }

  /** An observation takes its input from "input_tokens", its total from "total_tokens", its time from "timestamp". */
  lemma {:induction false} InputExactly(last: Json, event: Json, n: nat, total: Option<nat>)
    ensures Get(last, "input_tokens") == None ==> ReadInput(last, event) == Reading([], Some(InputMissing))
    ensures IsNoCount(Get(last, "input_tokens")) ==> ReadInput(last, event) == Reading([], Some(InputNotInteger))
    ensures IsCount(Get(last, "input_tokens"), n) && IsNoCount(Get(last, "total_tokens"))
            && Get(last, "total_tokens") != Some(JNull) ==>
      ReadInput(last, event) == Reading([], Some(NumberNotInteger))
    ensures IsCount(Get(last, "input_tokens"), n) && TotalIs(Get(last, "total_tokens"), total) ==>
      && |ReadInput(last, event).observations| == 1 && ReadInput(last, event).error == None
      && var o := ReadInput(last, event).observations[0];
         && o.Input? && o.input == n && o.total == total
         && forall at: string :: o.at == Some(at) <==> Get(event, "timestamp") == Some(JString(at))
  {
    hide Get;
  }

  /** Only task starts and token counts contribute; a token count contributes its window and then its observation. */
  lemma {:induction false} EventExactly(event: Json, payload: Json, info: Json)
    ensures !Says(Get(event, "type"), "event_msg") ==> ReadEvent(event) == Reading([], None)
    ensures IsMessage(event, payload, "task_started") ==> ReadEvent(event) == ReadWindow(payload)
    ensures IsMessage(event, payload, "token_count") && MissingInfo(payload) ==> ReadEvent(event) == Reading([], None)
    ensures IsMessage(event, payload, "token_count") && Get(payload, "info") == Some(info) && !info.JNull? ==>
      ReadEvent(event) == if info.JObject? then InfoReading(info, event) else Reading([], Some(InfoNotObject))
    ensures IsOtherMessage(event, payload) ==> ReadEvent(event) == Reading([], None)
  {
    hide Get, ReadWindow, ReadInput, InfoReading;
    if IsMessage(event, payload, "token_count") && Get(payload, "info") == Some(info) && info.JObject? {
      TokenCountReads(event, payload, info);
    }
  }

  lemma {:induction false} TokenCountReads(event: Json, payload: Json, info: Json)
    requires IsMessage(event, payload, "token_count") && Get(payload, "info") == Some(info) && info.JObject?
    ensures ReadEvent(event) == InfoReading(info, event)
  {
    hide Get, ReadWindow, ReadInput;
  }

  predicate IsOtherMessage(event: Json, payload: Json) {
    && Get(event, "payload") == Some(payload)
    && !IsMessage(event, payload, "task_started") && !IsMessage(event, payload, "token_count")
  }

  /** A message event whose payload is of this type. */
  predicate IsMessage(event: Json, payload: Json, kind: string) {
    Says(Get(event, "type"), "event_msg") && Get(event, "payload") == Some(payload) && Says(Get(payload, "type"), kind)
  }

  predicate MissingInfo(payload: Json) {
    Get(payload, "info") == None || Get(payload, "info") == Some(JNull)
  }

  /** The window of a token count, and unless that is malformed, the last usage if there is one. */
  function InfoReading(info: Json, event: Json): Reading {
    var last := Get(info, "last_token_usage");
    if ReadWindow(info).error.Some? || last == None || last == Some(JNull) then ReadWindow(info)
    else
      Reading(ReadWindow(info).observations + ReadInput(last.value, event).observations,
          ReadInput(last.value, event).error)
  }

  /** The window in force is that of the last report, and none before the first. */
  lemma {:induction false} WindowBeforeExactly(os: seq<Observation>, i: nat, j: nat)
    requires i <= |os|
    ensures j < i && os[j].Window? && (forall k | j < k < i :: os[k].Input?) ==> WindowBefore(os, i) == os[j].window
    ensures (forall k | 0 <= k < i :: os[k].Input?) ==> WindowBefore(os, i) == None
  {
    if i == 0 {
    } else {
      WindowBeforeExactly(os, i - 1, j);
    }
  }

  /** The count is the number of positions at which a compaction is complete. */
  lemma {:induction false} CompactionsAreTheSetOfPositions(os: seq<Observation>, n: nat)
    requires n <= |os|
    ensures CountCompactions(os, n) == |set k: nat | k < n && CompactsAt(os, k)|
  {
    hide CompactsAt;
    var now := set k: nat | k < n && CompactsAt(os, k);
    if n == 0 {
      assert now == {};
    } else {
      CompactionsAreTheSetOfPositions(os, n - 1);
      var before := set k: nat | k < n - 1 && CompactsAt(os, k);
      assert n - 1 !in before;
      if CompactsAt(os, n - 1) {
        assert now == before + {n - 1};
      } else {
        assert now == before;
      }
    }
  }
}
