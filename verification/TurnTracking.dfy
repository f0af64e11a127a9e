/**
 Active-turn tracking and the retained notifications of the app-server client
 (crates/cdr-app-server/src/state.rs).
 */
module TurnTracking {
  import opened Options
  import opened Sequences
  import opened Text
  import opened Json

  datatype Notification = Notification(name: string, params: Json)

  const MAX_NOTIFICATIONS: nat := 1_000

  // ------------------------------------------------------------------ identifiers

  function NonEmpty(v: Option<Json>): Option<string> {
    var s := AsString(v);
    if s.Some? && Trim(s.value) != [] then Some(Trim(s.value)) else None
  }

  function OrElse(a: Option<string>, b: Option<string>): Option<string> {
    if a.Some? then a else b
  }

  /** `extract_thread_id`. */
  function ThreadId(params: Json): Option<string> {
    OrElse(NonEmpty(Get(params, "threadId")),
    OrElse(NonEmpty(Get(params, "conversationId")),
    OrElse(NonEmpty(GetFrom(Get(params, "thread"), "id")),
    OrElse(NonEmpty(GetFrom(Get(params, "turn"), "threadId")),
        NonEmpty(GetFrom(Get(params, "turn"), "conversationId"))))))
  }

  /** `extract_turn_id`. */
  function TurnId(params: Json): Option<string> {
    OrElse(NonEmpty(Get(params, "turnId")),
    OrElse(NonEmpty(Get(params, "id")), NonEmpty(GetFrom(Get(params, "turn"), "id"))))
  }

  /** What a notification says about turns; one without both ids says nothing. */
  datatype Effect = Start(thread: string, turn: string) | Complete(thread: string, turn: string) | Other

  function EffectOf(n: Notification): Effect {
    var thread, turn := ThreadId(n.params), TurnId(n.params);
    if thread.None? || turn.None? then Other
    else if n.name == "turn/started" then Start(thread.value, turn.value)
    else if n.name == "turn/completed" then Complete(thread.value, turn.value)
    else Other
  }

  // ------------------------------------------------------------------ the state object

  datatype View = View(active: map<string, string>, retained: seq<Notification>, revision: nat, exhausted: bool)

  const START: View := View(map[], [], 0, false)

  function NextActive(active: map<string, string>, effect: Effect): map<string, string> {
    match effect
    case Start(thread, turn) => active[thread := turn]
    case Complete(thread, turn) => if thread in active && active[thread] == turn then active - {thread} else active
    case Other => active
  }

  function NextRetained(retained: seq<Notification>, n: Notification): seq<Notification> {
    var more := retained + [n];
    if |more| > MAX_NOTIFICATIONS then more[1..] else more
  }

  function Record(v: View, n: Notification): View {
    var full := v.revision + 1 >= U64_LIMIT;
    View(
      NextActive(v.active, EffectOf(n)), NextRetained(v.retained, n),
      if full then v.revision else v.revision + 1, v.exhausted || full)
  }

  /** The state object, with every notification it was given as a ghost. */
  class RuntimeState {
    var activeTurns: map<string, string>
    var notifications: seq<Notification>
    var revision: nat
    var exhausted: bool
    ghost var history: seq<Notification>

    function Current(): View
      reads this
    {
      View(activeTurns, notifications, revision, exhausted)
    }

    ghost predicate Valid()
      reads this
    {
      Current() == After(history)
    }

    constructor ()
      ensures Valid() && history == []
    {
      activeTurns, notifications, revision, exhausted := map[], [], 0, false;
      history := [];
    }

    /** `record_notification`. */
    method RecordNotification(n: Notification)
      requires Valid()
      modifies this
      ensures Valid() && history == old(history) + [n]
      ensures Current() == Record(old(Current()), n)
    {
      hide ThreadId, TurnId, After;
      if revision + 1 < U64_LIMIT {
        revision := revision + 1;
      } else {
        exhausted := true;
      }
      var thread, turn := ThreadId(n.params), TurnId(n.params);
      if n.name == "turn/started" {
        if thread.Some? && turn.Some? {
          activeTurns := activeTurns[thread.value := turn.value];
        }
      } else if n.name == "turn/completed" && thread.Some? && turn.Some?
                && thread.value in activeTurns && activeTurns[thread.value] == turn.value {
        activeTurns := activeTurns - {thread.value};
      }
      notifications := notifications + [n];
      if |notifications| > MAX_NOTIFICATIONS {
        notifications := notifications[1..];
      }
      history := history + [n];
      AfterOneMore(old(history), n);
    }

    /** `active_turn_id`: the turn of the thread's last start, unless a later completion names it. */
    method ActiveTurnId(thread: string) returns (turn: Option<string>)
      requires Valid()
      ensures forall u: string :: turn == Some(u) <==> exists i: nat :: Running(Effects(history), i, thread, u)
    {
      turn := if thread in activeTurns then Some(activeTurns[thread]) else None;
      forall u: string ensures turn == Some(u) <==> exists i: nat :: Running(Effects(history), i, thread, u) {
        ActiveIffRunning(history, thread, u);
      }
    }

    /** `has_active_turns`: some turn is running. */
    method HasActiveTurns() returns (any: bool)
      requires Valid()
      ensures any <==> exists thread: string, turn: string, i: nat :: Running(Effects(history), i, thread, turn)
    {
      any := activeTurns != map[];
      SomeRunning(history);
    }
  }

  // ------------------------------------------------------------------ against the full history

  function After(history: seq<Notification>): View {
    if history == [] then START else Record(After(history[..|history| - 1]), history[|history| - 1])
  }

  lemma {:induction false} AfterOneMore(history: seq<Notification>, n: Notification)
    ensures After(history + [n]) == Record(After(history), n)
  {
    InitAppend(history, [n]);
    AppendEmpty(history);
  }

  function Effects(history: seq<Notification>): seq<Effect> {
    seq(|history|, i requires 0 <= i < |history| => EffectOf(history[i]))
  }

  function ActiveAfter(effects: seq<Effect>): map<string, string> {
    if effects == [] then map[] else NextActive(ActiveAfter(effects[..|effects| - 1]), effects[|effects| - 1])
  }

  lemma {:induction false} AfterActive(history: seq<Notification>)
    ensures After(history).active == ActiveAfter(Effects(history))
  {
    if history == [] {
    } else {
      var n := |history| - 1;
      AfterActive(history[..n]);
      assert Effects(history)[..n] == Effects(history[..n]);
    }
  }

  /** The start at `i` is the thread's last one, and its turn has not been completed since. */
  ghost predicate Running(effects: seq<Effect>, i: nat, thread: string, turn: string) {
    && i < |effects| && effects[i] == Start(thread, turn)
    && forall j | i < j < |effects| ::
         !(effects[j].Start? && effects[j].thread == thread) && effects[j] != Complete(thread, turn)
  }

  lemma {:induction false} RunningStep(prior: seq<Effect>, last: Effect, i: nat, thread: string, turn: string)
    ensures Running(prior + [last], i, thread, turn) <==>
      if i == |prior| then last == Start(thread, turn)
      else Running(prior, i, thread, turn) && !(last.Start? && last.thread == thread) && last != Complete(thread, turn)
  {
    var effects, n := prior + [last], |prior|;
    assert effects[n] == last && forall j | 0 <= j < n :: effects[j] == prior[j];
  }

  lemma {:induction false} ActiveAfterIffRunning(effects: seq<Effect>, thread: string, turn: string)
    ensures var active := ActiveAfter(effects);
      thread in active && active[thread] == turn <==> exists i: nat :: Running(effects, i, thread, turn)
  {
    if effects == [] {
    } else {
      var n := |effects| - 1;
      var prior, last := effects[..n], effects[n];
      assert effects == prior + [last];
      ActiveAfterIffRunning(prior, thread, turn);
      forall i: nat
        ensures Running(effects, i, thread, turn) <==>
          if i == n then last == Start(thread, turn)
          else
            Running(prior, i, thread, turn) && !(last.Start? && last.thread == thread) && last != Complete(thread, turn)
      {
        RunningStep(prior, last, i, thread, turn);
      }
      if last == Start(thread, turn) {
        assert Running(effects, n, thread, turn);
      }
    }
  }

  /**
   A thread's active turn is `turn` exactly when the last start for the thread was
   `turn` and no later completion names it.
   */
  lemma {:induction false} ActiveIffRunning(history: seq<Notification>, thread: string, turn: string)
    ensures var active := After(history).active;
      thread in active && active[thread] == turn <==> exists i: nat :: Running(Effects(history), i, thread, turn)
  {
    AfterActive(history);
    ActiveAfterIffRunning(Effects(history), thread, turn);
  }

  lemma {:induction false} SomeRunning(history: seq<Notification>)
    ensures After(history).active != map[] <==>
      exists thread: string, turn: string, i: nat :: Running(Effects(history), i, thread, turn)
  {
    var active := After(history).active;
    if active != map[] {
      assert active.Keys != {};
      var thread :| thread in active;
      ActiveIffRunning(history, thread, active[thread]);
    }
    forall thread: string, turn: string, i: nat | Running(Effects(history), i, thread, turn) ensures active != map[] {
      ActiveIffRunning(history, thread, turn);
      assert thread in active;
    }
  }

  /** The notification neither starts a turn of the thread nor completes this turn. */
  predicate Spares(n: Notification, thread: string, turn: string) {
    var e := EffectOf(n);
    !(e.Start? && e.thread == thread) && e != Complete(thread, turn)
  }

  /**
   An active turn stays active through any further notifications that neither
   start a turn of its thread nor complete it: completions of older turns,
   however late, and everything about other threads.
   */
  lemma {:induction false} ActiveTurnSurvives(history: seq<Notification>, more: seq<Notification>, thread: string,
      turn: string)
    requires thread in After(history).active && After(history).active[thread] == turn
    requires forall k | 0 <= k < |more| :: Spares(more[k], thread, turn)
    ensures var active := After(history + more).active; thread in active && active[thread] == turn
  {
    hide EffectOf, After;
    var all := history + more;
    ActiveIffRunning(history, thread, turn);
    var i: nat :| Running(Effects(history), i, thread, turn);
    assert Running(Effects(all), i, thread, turn) by {
      assert Effects(all) == Effects(history) + Effects(more);
      forall j | |history| <= j < |all|
        ensures !(Effects(all)[j].Start? && Effects(all)[j].thread == thread)
          && Effects(all)[j] != Complete(thread, turn)
      {
        assert Effects(all)[j] == EffectOf(more[j - |history|]) && Spares(more[j - |history|], thread, turn);
      }
    }
    ActiveIffRunning(all, thread, turn);
  }

  /** The last notifications, as many as are retained. */
  function Latest(history: seq<Notification>): seq<Notification> {
    if |history| <= MAX_NOTIFICATIONS then history else history[|history| - MAX_NOTIFICATIONS..]
  }

  lemma {:induction false} LatestAppend(prior: seq<Notification>, n: Notification)
    ensures NextRetained(Latest(prior), n) == Latest(prior + [n])
  {
    var history := prior + [n];
    if |prior| >= MAX_NOTIFICATIONS {
      var kept := prior[|prior| - MAX_NOTIFICATIONS..];
      assert Latest(prior) == kept;
      assert (kept + [n])[1..] == history[|history| - MAX_NOTIFICATIONS..];
    }
  }

  /** The retained notifications are exactly the latest ones. */
  lemma {:induction false} RetainedAreTheLatest(history: seq<Notification>)
    ensures After(history).retained == Latest(history)
    ensures After(history).retained == if |history| <= 1_000 then history else history[|history| - 1_000..]
  {
    hide NextRetained, NextActive, EffectOf;
    if history == [] {
    } else {
      var n := |history| - 1;
      var prior := history[..n];
      RetainedAreTheLatest(prior);
      LatestAppend(prior, history[n]);
      assert prior + [history[n]] == history;
    }
  }

  /** The revision counts all notifications until the counter is exhausted, and that is recorded. */
  lemma {:induction false} RevisionCountsAll(history: seq<Notification>)
    ensures After(history).revision == if |history| < U64_LIMIT then |history| else U64_LIMIT - 1
    ensures After(history).exhausted <==> |history| >= U64_LIMIT
  {
    if history == [] {
    } else {
      RevisionCountsAll(history[..|history| - 1]);
    }
  }

  // ------------------------------------------------------------------ what a notification says

  /** The place holds a string that trims to this id, which is not empty. */
  ghost predicate HoldsId(place: Option<Json>, id: string) {
    id != [] && exists raw: string :: place == Some(JString(raw)) && Trim(raw) == id
  }

  ghost predicate HoldsNone(place: Option<Json>) {
    forall id: string :: !HoldsId(place, id)
  }

  /** The first place, in order, that holds an id holds this one. */
  ghost predicate FirstHolds(places: seq<Option<Json>>, id: string) {
    exists k: nat :: k < |places| && HoldsId(places[k], id) && forall j | 0 <= j < k :: HoldsNone(places[j])
  }

  lemma {:induction false} NonEmptyHolds(place: Option<Json>)
    ensures forall id: string :: NonEmpty(place) == Some(id) <==> HoldsId(place, id)
    ensures NonEmpty(place).None? <==> HoldsNone(place)
  {
    hide Trim;
    if AsString(place).Some? {
      var raw := AsString(place).value;
      assert place == Some(JString(raw));
      assert Trim(raw) != [] ==> HoldsId(place, Trim(raw));
    }
  }

  lemma {:induction false} FirstHoldsRest(place: Option<Json>, rest: seq<Option<Json>>, id: string)
    ensures FirstHolds([place] + rest, id) <==> HoldsId(place, id) || (HoldsNone(place) && FirstHolds(rest, id))
  {
    hide HoldsId, HoldsNone;
    var places := [place] + rest;
    assert places[0] == place && places[1..] == rest;
    if HoldsId(place, id) {
      assert HoldsId(places[0], id);
    }
    if FirstHolds(places, id) {
      var k: nat :| k < |places| && HoldsId(places[k], id) && forall j | 0 <= j < k :: HoldsNone(places[j]);
      if k > 0 {
        assert HoldsNone(places[0]);
        assert HoldsId(rest[k - 1], id) && forall j | 0 <= j < k - 1 :: rest[j] == places[j + 1];
      }
    }
    if HoldsNone(place) && FirstHolds(rest, id) {
      var k: nat :| k < |rest| && HoldsId(rest[k], id) && forall j | 0 <= j < k :: HoldsNone(rest[j]);
      assert HoldsId(places[k + 1], id) && forall j | 0 < j < k + 1 :: places[j] == rest[j - 1];
    }
  }

  /** The first of several places, as a chain of alternatives. */
  function FirstOf(places: seq<Option<Json>>): Option<string> {
    if places == [] then None else OrElse(NonEmpty(places[0]), FirstOf(places[1..]))
  }

  lemma {:induction false} FirstOfHolds(places: seq<Option<Json>>, id: string)
    ensures FirstOf(places) == Some(id) <==> FirstHolds(places, id)
  {
    hide NonEmpty, HoldsId, HoldsNone;
    if places == [] {
    } else {
      Cons(places);
      NonEmptyHolds(places[0]);
      FirstOfHolds(places[1..], id);
      FirstHoldsRest(places[0], places[1..], id);
    }
  }

  /** The five places of a thread id, first to last. */
  function ThreadPlaces(params: Json): seq<Option<Json>> {
    [Get(params, "threadId"), Get(params, "conversationId"), GetFrom(Get(params, "thread"), "id"),
     GetFrom(Get(params, "turn"), "threadId"), GetFrom(Get(params, "turn"), "conversationId")]
  }

  /** The three places of a turn id, first to last. */
  function TurnPlaces(params: Json): seq<Option<Json>> {
    [Get(params, "turnId"), Get(params, "id"), GetFrom(Get(params, "turn"), "id")]
  }

  lemma {:induction false} FiveAlternatives(a: Option<Json>, b: Option<Json>, c: Option<Json>, d: Option<Json>,
      e: Option<Json>)
    ensures FirstOf([a, b, c, d, e]) ==
      OrElse(NonEmpty(a), OrElse(NonEmpty(b), OrElse(NonEmpty(c), OrElse(NonEmpty(d), NonEmpty(e)))))
  {
    hide NonEmpty;
    ThreeAlternatives(c, d, e);
    assert [a, b, c, d, e][1..] == [b, c, d, e] && [b, c, d, e][1..] == [c, d, e];
    assert FirstOf([a, b, c, d, e]) == OrElse(NonEmpty(a), FirstOf([b, c, d, e]));
  }

  lemma {:induction false} ThreeAlternatives(a: Option<Json>, b: Option<Json>, c: Option<Json>)
    ensures FirstOf([a, b, c]) == OrElse(NonEmpty(a), OrElse(NonEmpty(b), NonEmpty(c)))
  {
    hide NonEmpty;
    assert [a, b, c][1..] == [b, c] && [b, c][1..] == [c] && [c][1..] == [];
    assert FirstOf([b, c]) == OrElse(NonEmpty(b), FirstOf([c]));
    assert FirstOf([c]) == OrElse(NonEmpty(c), FirstOf([]));
  }

  /** The thread and the turn of a notification are the first ids found, place by place. */
  lemma {:induction false} IdsAreTheFirstFound(params: Json, id: string)
    ensures ThreadId(params) == Some(id) <==> FirstHolds(ThreadPlaces(params), id)
    ensures TurnId(params) == Some(id) <==> FirstHolds(TurnPlaces(params), id)
  {
    hide NonEmpty, OrElse, FirstHolds, FirstOf, Get, GetFrom;
    var turn := Get(params, "turn");
    FiveAlternatives(Get(params, "threadId"), Get(params, "conversationId"), GetFrom(Get(params, "thread"), "id"),
      GetFrom(turn, "threadId"), GetFrom(turn, "conversationId"));
    ThreeAlternatives(Get(params, "turnId"), Get(params, "id"), GetFrom(turn, "id"));
    FirstOfHolds(ThreadPlaces(params), id);
    FirstOfHolds(TurnPlaces(params), id);
  }

  /** The notification names this thread and this turn. */
  ghost predicate About(n: Notification, thread: string, turn: string) {
    FirstHolds(ThreadPlaces(n.params), thread) && FirstHolds(TurnPlaces(n.params), turn)
  }

  /** A start makes its turn the thread's active one, whatever came before, and touches no other thread. */
  lemma {:induction false} StartedTurnIsActive(history: seq<Notification>, n: Notification, thread: string,
      turn: string)
    requires n.name == "turn/started" && About(n, thread, turn)
    ensures After(history + [n]).active == After(history).active[thread := turn]
  {
    hide ThreadId, TurnId, FirstHolds, After, ThreadPlaces, TurnPlaces;
    IdsAreTheFirstFound(n.params, thread);
    IdsAreTheFirstFound(n.params, turn);
    AfterOneMore(history, n);
  }

  /** A completion of the active turn leaves the thread without one; of any other turn it changes nothing. */
  lemma {:induction false} CompletedTurnIsCleared(history: seq<Notification>, n: Notification, thread: string,
      turn: string)
    requires n.name == "turn/completed" && About(n, thread, turn)
    ensures var active := After(history).active;
      After(history + [n]).active ==
        if thread in active && active[thread] == turn then map t | t in active && t != thread :: active[t] else active
  {
    hide ThreadId, TurnId, FirstHolds, After, ThreadPlaces, TurnPlaces;
    IdsAreTheFirstFound(n.params, thread);
    IdsAreTheFirstFound(n.params, turn);
    AfterOneMore(history, n);
    var active := After(history).active;
    assert active - {thread} == map t | t in active && t != thread :: active[t];
  }

  /** Every other notification, and one without both ids, leaves all active turns alone. */
  lemma {:induction false} OtherNotificationsAreIgnored(history: seq<Notification>, n: Notification)
    requires (n.name != "turn/started" && n.name != "turn/completed") || forall t: string, u: string :: !About(n, t, u)
    ensures After(history + [n]).active == After(history).active
  {
    hide ThreadId, TurnId, FirstHolds, After, ThreadPlaces, TurnPlaces;
    var thread, turn := ThreadId(n.params), TurnId(n.params);
    if thread.Some? && turn.Some? {
      IdsAreTheFirstFound(n.params, thread.value);
      IdsAreTheFirstFound(n.params, turn.value);
      assert About(n, thread.value, turn.value);
    }
    AfterOneMore(history, n);
  }

  /** A start whose ids stand in the first places. */
  lemma {:induction false} PlainStart(history: seq<Notification>, params: Json, t: string, u: string)
    requires Get(params, "threadId") == Some(JString(t)) && Get(params, "turnId") == Some(JString(u))
    requires Trim(t) != [] && Trim(u) != []
    ensures var active := After(history + [Notification("turn/started", params)]).active;
      Trim(t) in active && active[Trim(t)] == Trim(u)
  {
    hide After, Trim;
    assert HoldsId(ThreadPlaces(params)[0], Trim(t)) && HoldsId(TurnPlaces(params)[0], Trim(u));
    assert About(Notification("turn/started", params), Trim(t), Trim(u));
    StartedTurnIsActive(history, Notification("turn/started", params), Trim(t), Trim(u));
  }
}
