/**
 Terminal turn metadata and final answers (crates/cdr-app-server/src/outcomes.rs,
 with is_usage_limit_error of crates/cdr-app-server/src/error.rs and
 is_async_message of crates/cdr-app-server/src/async_questions.rs).
 */
module TurnOutcomes {
  import opened Options
  import opened Text
  import opened Json

  datatype TurnStatus = Completed | Interrupted | Failed | InProgress

  datatype InterruptOrigin = RemoteUserIntent | ExternalOrUnknown

  datatype TurnCompletion = TurnCompletion(
    threadId: string, turnId: string, status: TurnStatus, errorMessage: string,
    origin: Option<InterruptOrigin>, durationMs: Option<int>, usageLimit: bool)

  datatype OutcomeError =
    | InvalidThread | DifferentThread | InvalidTurns | InvalidTurn
    | MissingThreadId | MissingTurnId | MissingStatus | UnknownStatus(status: string)
    | InProgressCompletion | InvalidError | MissingErrorMessage | TurnNotFound | InvalidItems

  const MESSAGE_LIMIT: nat := 1_000

  /** The trimmed string, empty when there is none. */
  function TextOf(v: Option<Json>): string {
    if AsString(v).Some? then Trim(AsString(v).value) else []
  }

  // ------------------------------------------------------------------ usage limits

  predicate UsageToken(s: string) {
    || s == "usageLimitExceeded" || s == "UsageLimitExceeded" || s == "usage_limit_exceeded"
    || s == "usage_limit_reached" || s == "usage_limit"
  }

  predicate TokenAt(v: Json, key: string) {
    var s := AsString(Get(v, key));
    s.Some? && UsageToken(s.value)
  }

  predicate AnyToken(v: Json) {
    TokenAt(v, "type") || TokenAt(v, "errorType") || TokenAt(v, "reason") || TokenAt(v, "code")
  }

  /** `visit`: the structured search for a usage-limit code, at most four levels down. */
  predicate Visit(v: Json, depth: nat)
    decreases if depth > 4 then 0 else 5 - depth
  {
    if depth > 4 then false
    else match v
      case JString(s) => UsageToken(s)
      case JObject(_) =>
        var info := NonNull(Get(v, "codexErrorInfo"));
        if info.Some? then Visit(info.value, depth + 1)
        else AnyToken(v) || (Get(v, "data").Some? && Visit(Get(v, "data").value, depth + 1))
      case _ => false
  }

  /** `is_usage_limit_error`. */
  predicate IsUsageLimit(v: Json) { Visit(v, 0) }

  /** What one level of the search hands down to the next. */
  function Below(v: Json): Option<Json> {
    if NonNull(Get(v, "codexErrorInfo")).Some? then NonNull(Get(v, "codexErrorInfo")) else Get(v, "data")
  }

  /** The value `n` levels down the chain of `codexErrorInfo` and `data`. */
  function Descend(v: Json, n: nat): Option<Json>
    decreases n
  {
    if n == 0 then Some(v)
    else if !v.JObject? || Below(v).None? then None
    else Descend(Below(v).value, n - 1)
  }

  /** This value itself carries a usage-limit code. */
  predicate Carries(v: Json) {
    (v.JString? && UsageToken(v.s)) || (v.JObject? && NonNull(Get(v, "codexErrorInfo")).None? && AnyToken(v))
  }

  predicate CodeAt(v: Json, n: nat) {
    Descend(v, n).Some? && Carries(Descend(v, n).value)
  }

  ghost predicate CodeWithin(v: Json, levels: int) {
    exists n: nat :: n <= levels && CodeAt(v, n)
  }

  /** A code in reach is carried here, or in reach from one level down. */
  lemma {:induction false} CodeWithinStep(v: Json, levels: int)
    requires levels >= 0
    ensures CodeWithin(v, levels) <==>
      Carries(v) || (v.JObject? && Below(v).Some? && CodeWithin(Below(v).value, levels - 1))
  {
    assert CodeAt(v, 0) <==> Carries(v);
    if CodeWithin(v, levels) {
      var n: nat :| n <= levels && CodeAt(v, n);
      assert n > 0 ==> CodeAt(Below(v).value, n - 1);
    }
    if v.JObject? && Below(v).Some? && CodeWithin(Below(v).value, levels - 1) {
      var n: nat :| n <= levels - 1 && CodeAt(Below(v).value, n);
      assert CodeAt(v, n + 1);
    }
  }

  lemma {:induction false} VisitFindsChain(v: Json, depth: nat)
    ensures Visit(v, depth) <==> CodeWithin(v, 4 - depth)
    decreases if depth > 4 then 0 else 5 - depth
  {
    if depth <= 4 {
      CodeWithinStep(v, 4 - depth);
      if v.JObject? && Below(v).Some? {
        VisitFindsChain(Below(v).value, depth + 1);
      }
    }
  }

  /** A usage limit is reported exactly when a code is carried at most four levels down the typed chain. */
  lemma {:induction false} UsageLimitIffCodeInReach(v: Json)
    ensures IsUsageLimit(v) <==> exists n: nat :: n <= 4 && CodeAt(v, n)
  {
    VisitFindsChain(v, 0);
  }

  // ------------------------------------------------------------------ parsing and the journal

  function ParseStatus(raw: string): Option<TurnStatus> {
    if raw == "completed" then Some(Completed)
    else if raw == "interrupted" then Some(Interrupted)
    else if raw == "failed" then Some(Failed)
    else if raw == "inProgress" then Some(InProgress)
    else None
  }

  function StatusText(status: TurnStatus): string {
    match status
    case Completed => "completed"
    case Interrupted => "interrupted"
    case Failed => "failed"
    case InProgress => "inProgress"
  }

  /** `parse_error`: the bounded message and the usage-limit flag. */
  function ParseError(turn: Json, status: TurnStatus): Result<(string, bool), OutcomeError> {
    var error := Get(turn, "error");
    if error.None? || error.value.JNull? then Ok(([], false))
    else if !error.value.JObject? then Err(InvalidError)
    else
      var message := AsString(Get(error.value, "message"));
      if message.None? then Err(MissingErrorMessage)
      else if !status.Failed? then Ok(([], false))
      else Ok((Take(Trim(message.value), MESSAGE_LIMIT), IsUsageLimit(error.value)))
  }

  function OriginOf(status: TurnStatus, remoteUserIntent: bool): Option<InterruptOrigin> {
    if !status.Interrupted? then None else Some(if remoteUserIntent then RemoteUserIntent else ExternalOrUnknown)
  }

  /** `parse_turn_payload`. */
  function ParseTurn(threadId: string, turn: Json, remoteUserIntent: bool, requireTerminal: bool)
    : Result<TurnCompletion, OutcomeError>
  {
    var turnId, raw := TextOf(Get(turn, "id")), AsString(Get(turn, "status"));
    if threadId == [] then Err(MissingThreadId)
    else if turnId == [] then Err(MissingTurnId)
    else if raw.None? then Err(MissingStatus)
    else if ParseStatus(raw.value).None? then Err(UnknownStatus(raw.value))
    else
      var status := ParseStatus(raw.value).value;
      if requireTerminal && status.InProgress? then Err(InProgressCompletion)
      else match ParseError(turn, status)
        case Err(e) => Err(e)
        case Ok((message, limit)) =>
          Ok(TurnCompletion(threadId, turnId, status, message, OriginOf(status, remoteUserIntent),
              AsI64(Get(turn, "durationMs")), limit))
  }

  /** `parse_turn_completion`. */
  function ParseCompletion(params: Json, remoteUserIntent: bool): Result<TurnCompletion, OutcomeError> {
    var turn := Get(params, "turn");
    if turn.None? || !turn.value.JObject? then Err(InvalidTurn)
    else ParseTurn(TextOf(Get(params, "threadId")), turn.value, remoteUserIntent, true)
  }

  function JournalError(c: TurnCompletion): Json {
    JObject([
      Field("message", JString(c.errorMessage)),
      Field("codexErrorInfo", if c.status.Failed? && c.usageLimit then JString("usageLimitExceeded") else JNull)])
  }

  function JournalTurn(c: TurnCompletion): Json {
    JObject([
      Field("id", JString(c.turnId)),
      Field("status", JString(StatusText(c.status))),
      Field("durationMs", if c.durationMs.Some? then JInt(c.durationMs.value) else JNull),
      Field("error", JournalError(c))])
  }

  /** `completion_journal_payload`. */
  function JournalPayload(c: TurnCompletion): Json {
    JObject([Field("threadId", JString(c.threadId)), Field("turn", JournalTurn(c))])
  }

  lemma {:induction false} JournalFields(c: TurnCompletion)
    ensures Get(JournalPayload(c), "threadId") == Some(JString(c.threadId))
    ensures Get(JournalPayload(c), "turn") == Some(JournalTurn(c))
    ensures Get(JournalTurn(c), "id") == Some(JString(c.turnId))
    ensures Get(JournalTurn(c), "status") == Some(JString(StatusText(c.status)))
    ensures Get(JournalTurn(c), "durationMs") == Some(if c.durationMs.Some? then JInt(c.durationMs.value) else JNull)
    ensures Get(JournalTurn(c), "error") == Some(JournalError(c))
    ensures Get(JournalError(c), "message") == Some(JString(c.errorMessage))
  {
    var p, t := JournalPayload(c).fields, JournalTurn(c).fields;
    assert Lookup(p, "turn") == Lookup(p[1..], "turn");
    assert Lookup(t, "status") == Lookup(t[1..], "status");
    assert Lookup(t, "durationMs") == Lookup(t[1..], "durationMs") == Lookup(t[1..][1..], "durationMs");
    assert Lookup(t, "error") == Lookup(t[1..], "error") == Lookup(t[1..][1..], "error");
    assert Lookup(t[1..][1..], "error") == Lookup(t[1..][1..][1..], "error");
  }

  /** The journal's error object carries the usage-limit flag and nothing else that could be taken for one. */
  lemma {:induction false} JournalUsageLimit(c: TurnCompletion)
    ensures IsUsageLimit(JournalError(c)) == (c.status.Failed? && c.usageLimit)
  {
    var e := JournalError(c);
    var f := e.fields;
    assert f[1..][1..] == [];
    assert forall k: string | k != "message" :: Lookup(f, k) == Lookup(f[1..], k);
    assert forall k: string | k != "codexErrorInfo" :: Lookup(f[1..], k) == Lookup(f[1..][1..], k);
    assert Get(e, "codexErrorInfo") == Some(f[1].value);
    assert Get(e, "type").None? && Get(e, "errorType").None? && Get(e, "reason").None? && Get(e, "code").None?
      && Get(e, "data").None?;
    assert Visit(JString("usageLimitExceeded"), 1);
  }

  /** What parsing guarantees about the completions it accepts. */
  predicate Parsed(c: TurnCompletion) {
    && c.threadId != [] && Tight(c.threadId) && c.turnId != [] && Tight(c.turnId)
    && !c.status.InProgress?
    && |c.errorMessage| <= MESSAGE_LIMIT
    && (!c.status.Failed? ==> c.errorMessage == [] && !c.usageLimit)
    && (c.durationMs.Some? ==> -I64_LIMIT <= c.durationMs.value < I64_LIMIT)
  }

  lemma {:induction false} TextIsTight(v: Option<Json>)
    ensures Tight(TextOf(v))
  {
    if AsString(v).Some? {
      var h, t := TrimParts(AsString(v).value);
    }
  }

  lemma {:induction false} AcceptedIsParsed(params: Json, remoteUserIntent: bool)
    requires ParseCompletion(params, remoteUserIntent).Ok?
    ensures Parsed(ParseCompletion(params, remoteUserIntent).value)
  {
    TextIsTight(Get(params, "threadId"));
    TextIsTight(GetFrom(Get(params, "turn"), "id"));
  }

  lemma {:induction false} StatusRoundTrip(status: TurnStatus)
    ensures ParseStatus(StatusText(status)) == Some(status)
  {
  }

  /**
   Parsing a journal payload gives the completion back, with its message trimmed
   and the interrupt origin of this parse.
   */
  lemma {:induction false} ReparseJournal(c: TurnCompletion, remoteUserIntent: bool)
    requires Parsed(c)
    ensures ParseCompletion(JournalPayload(c), remoteUserIntent) ==
      Ok(c.(errorMessage := Trim(c.errorMessage), origin := OriginOf(c.status, remoteUserIntent)))
  {
    hide Get, ParseError, ParseStatus, StatusText, Trim, Tight;
    JournalFields(c);
    StatusRoundTrip(c.status);
    TrimTight(c.threadId);
    TrimTight(c.turnId);
    ReparseError(c);
  }

  lemma {:induction false} ReparseError(c: TurnCompletion)
    requires Parsed(c)
    ensures ParseError(JournalTurn(c), c.status) == Ok((Trim(c.errorMessage), c.usageLimit))
  {
    hide Get, IsUsageLimit, TrimStart, TrimEnd, Tight;
    JournalFields(c);
    JournalUsageLimit(c);
    assert c.errorMessage == [] ==> Trim(c.errorMessage) == [];
  }

  /**
   Journal round trip: an accepted completion, written and parsed again, keeps
   everything but white space left at the end of its message by the cut; it is
   kept exactly when there is none, and from the second round trip on.
   */
  lemma {:induction false} JournalRoundTrip(params: Json, remoteUserIntent: bool)
    requires ParseCompletion(params, remoteUserIntent).Ok?
    ensures var c := ParseCompletion(params, remoteUserIntent).value;
      var again := ParseCompletion(JournalPayload(c), remoteUserIntent);
      && again == Ok(c.(errorMessage := TrimEnd(c.errorMessage)))
      && (again == Ok(c) <==> c.errorMessage == [] || !IsWhitespace(c.errorMessage[|c.errorMessage| - 1]))
      && ParseCompletion(JournalPayload(again.value), remoteUserIntent) == again
  {
    var c := ParseCompletion(params, remoteUserIntent).value;
    AcceptedIsParsed(params, remoteUserIntent);
    MessageStart(params, remoteUserIntent);
    hide ParseCompletion, JournalPayload, Trim, TrimStart, TrimEnd, Tight;
    ReparseJournal(c, remoteUserIntent);
    TrimWhenStartIsTight(c.errorMessage);
    ReparseJournal(c.(errorMessage := Trim(c.errorMessage)), remoteUserIntent);
  }

  /** A message that starts with no white space only loses white space at its end, and only once. */
  lemma {:induction false} TrimWhenStartIsTight(m: string)
    requires m == [] || !IsWhitespace(m[0])
    ensures Trim(m) == TrimEnd(m) && Trim(Trim(m)) == Trim(m)
    ensures Trim(m) == m <==> m == [] || !IsWhitespace(m[|m| - 1])
  {
    var head, tail := TrimParts(m);
    TrimTight(Trim(m));
  }

  /** A parsed message starts with no white space: it was trimmed before it was cut. */
  lemma {:induction false} MessageStart(params: Json, remoteUserIntent: bool)
    requires ParseCompletion(params, remoteUserIntent).Ok?
    ensures var c := ParseCompletion(params, remoteUserIntent).value;
      (c.errorMessage == [] || !IsWhitespace(c.errorMessage[0])) && c.origin == OriginOf(c.status, remoteUserIntent)
  {
    var turn := Get(params, "turn").value;
    var error := Get(turn, "error");
    if error.Some? && error.value.JObject? {
      TextIsTight(Get(error.value, "message"));
    }
  }

  // ------------------------------------------------------------------ final answers

  datatype TurnText = TurnText(text: string, explicitFinal: bool)

  predicate IsAgentMessage(item: Json) {
    var kind := AsString(Get(item, "type"));
    kind == Some("agentMessage") || kind == Some("agent_message")
  }

  /** `is_async_message`. */
  predicate IsAsync(item: Json) {
    IsAgentMessage(item) && AsString(Get(item, "delivery")) == Some("async")
  }

  predicate IsFinalPhase(item: Json) {
    AsString(Get(item, "phase")) == Some("final_answer")
  }

  function BlockTexts(blocks: seq<Json>): seq<string> {
    if blocks == [] then []
    else
      var kind, text := AsString(Get(blocks[0], "type")), AsString(Get(blocks[0], "text"));
      (if (kind == Some("output_text") || kind == Some("text")) && text.Some? then [text.value] else [])
        + BlockTexts(blocks[1..])
  }

  /** `agent_message_text`. */
  function MessageText(item: Json): string {
    var direct, content := TextOf(Get(item, "text")), Get(item, "content");
    if direct != [] then direct
    else Trim(Join(BlockTexts(if content.Some? && content.value.JArray? then content.value.items else []), "\n"))
  }

  /**
   What an item says: nothing, a message, or a message in the final-answer phase.
   Asynchronous questions say nothing.
   */
  datatype Utterance = Silent | Message(text: string) | Answer(text: string)

  function Heard(item: Json): Utterance {
    if !IsAgentMessage(item) || IsAsync(item) || MessageText(item) == [] then Silent
    else if IsFinalPhase(item) then Answer(MessageText(item))
    else Message(MessageText(item))
  }

  function HeardAll(items: seq<Json>): seq<Utterance> {
    seq(|items|, i requires 0 <= i < |items| => Heard(items[i]))
  }

  /** The texts of all messages, final or not. */
  function Messages(said: seq<Utterance>): seq<string> {
    if said == [] then []
    else Messages(said[..|said| - 1]) + if said[|said| - 1].Silent? then [] else [said[|said| - 1].text]
  }

  /** The texts of the final answers. */
  function Answers(said: seq<Utterance>): seq<string> {
    if said == [] then []
    else Answers(said[..|said| - 1]) + if said[|said| - 1].Answer? then [said[|said| - 1].text] else []
  }

  function LastOr(texts: seq<string>): string {
    if texts == [] then [] else texts[|texts| - 1]
  }

  /** The last final answer if there is one, or else the last message. */
  function HistoryText(said: seq<Utterance>): TurnText {
    var answers := Answers(said);
    if answers != [] then TurnText(LastOr(answers), true) else TurnText(LastOr(Messages(said)), false)
  }

  lemma {:induction false} AnswersAreNotEmpty(items: seq<Json>)
    ensures var answers := Answers(HeardAll(items)); answers != [] ==> LastOr(answers) != []
  {
    if items == [] {
    } else {
      var n := |items| - 1;
      AnswersAreNotEmpty(items[..n]);
      var said := HeardAll(items);
      assert said[..n] == HeardAll(items[..n]);
      assert said[n] == Heard(items[n]) && (said[n].Answer? ==> said[n].text != []);
    }
  }

  /** The items of the requested turn, with the errors of a malformed history. */
  function TurnItems(result: Json, threadId: string, turnId: string): Result<seq<Json>, OutcomeError> {
    var thread := Get(result, "thread");
    if thread.None? || !thread.value.JObject? then Err(InvalidThread)
    else if TextOf(Get(thread.value, "id")) != threadId then Err(DifferentThread)
    else
      var turns := Get(thread.value, "turns");
      if turns.None? || !turns.value.JArray? then Err(InvalidTurns)
      else
        var turn := FindTurn(turns.value.items, turnId);
        if turn.None? then Err(TurnNotFound)
        else
          var items := Get(turn.value, "items");
          if items.None? || !items.value.JArray? then Err(InvalidItems) else Ok(items.value.items)
  }

  function FindTurn(turns: seq<Json>, turnId: string): Option<Json> {
    if turns == [] then None
    else if TextOf(Get(turns[0], "id")) == turnId then Some(turns[0])
    else FindTurn(turns[1..], turnId)
  }

  lemma {:induction false} SaidStep(said: seq<Utterance>, i: nat)
    requires i < |said|
    ensures LastOr(Messages(said[..i + 1])) == if said[i].Silent? then LastOr(Messages(said[..i])) else said[i].text
    ensures LastOr(Answers(said[..i + 1])) == if said[i].Answer? then said[i].text else LastOr(Answers(said[..i]))
  {
    assert said[..i + 1][..i] == said[..i];
  }

  /** One pass over the items, remembering the last message and the last final answer. */
  method ScanItems(items: seq<Json>) returns (text: TurnText)
    ensures text == HistoryText(HeardAll(items))
  {
    var fallback, finalAnswer := "", "";
    ghost var said := HeardAll(items);
    for i := 0 to |items|
      invariant fallback == LastOr(Messages(said[..i]))
      invariant finalAnswer == LastOr(Answers(said[..i]))
    {
      SaidStep(said, i);
      var item := items[i];
      if !IsAgentMessage(item) {
        continue;
      }
      if IsAsync(item) {
        continue;
      }
      var message := MessageText(item);
      if message == [] {
        continue;
      }
      fallback := message;
      if IsFinalPhase(item) {
        finalAnswer := message;
      }
    }
    assert said[..|items|] == said;
    AnswersAreNotEmpty(items);
    var explicitFinal := finalAnswer != [];
    return TurnText(if explicitFinal then finalAnswer else fallback, explicitFinal);
  }

  /** `extract_turn_text`. */
  method ExtractTurnText(result: Json, threadId: string, turnId: string) returns (text: Result<TurnText, OutcomeError>)
    ensures match TurnItems(result, threadId, turnId)
      case Err(e) => text == Err(e)
      case Ok(items) => text == Ok(HistoryText(HeardAll(items)))
  {
    var found := TurnItems(result, threadId, turnId);
    if found.Err? {
      return Err(found.error);
    }
    var scanned := ScanItems(found.value);
    return Ok(scanned);
  }

  datatype CompletedFinalAnswer = CompletedFinalAnswer(threadId: string, turnId: string, text: string)

  /** `extract_completed_final_answer`: the same answer, from the event of a completed item. */
  function CompletedAnswer(params: Json): Option<CompletedFinalAnswer> {
    var item := Get(params, "item");
    if item.None? then None
    else if !IsAgentMessage(item.value) || IsAsync(item.value) || !IsFinalPhase(item.value) then None
    else
      var threadId, turnId := TextOf(Get(params, "threadId")), TextOf(Get(params, "turnId"));
      var text := MessageText(item.value);
      if threadId == [] || turnId == [] || text == [] then None else Some(CompletedFinalAnswer(threadId, turnId, text))
  }

  /** The event announces this item of a thread and a turn that are named. */
  predicate Announces(params: Json, item: Json) {
    Get(params, "item") == Some(item) && TextOf(Get(params, "threadId")) != [] && TextOf(Get(params, "turnId")) != []
  }

  function Yields(events: seq<Json>): seq<Option<string>> {
    seq(|events|, i requires 0 <= i < |events| =>
      var answer := CompletedAnswer(events[i]); if answer.Some? then Some(answer.value.text) else None)
  }

  function Collect(produced: seq<Option<string>>): seq<string> {
    if produced == [] then []
    else
      var last := produced[|produced| - 1];
      Collect(produced[..|produced| - 1]) + if last.Some? then [last.value] else []
  }

  /** The answers that a sequence of events produced, in order. */
  function EventAnswers(events: seq<Json>): seq<string> { Collect(Yields(events)) }

  function AnswerText(u: Utterance): Option<string> {
    if u.Answer? then Some(u.text) else None
  }

  lemma {:induction false} EventYieldsAnswer(params: Json, item: Json)
    requires Announces(params, item)
    ensures CompletedAnswer(params).Some? <==> Heard(item).Answer?
    ensures CompletedAnswer(params).Some? ==> CompletedAnswer(params).value.text == Heard(item).text
  {
  }

  lemma {:induction false} CollectIsAnswers(produced: seq<Option<string>>, said: seq<Utterance>)
    requires |produced| == |said| && forall i | 0 <= i < |said| :: produced[i] == AnswerText(said[i])
    ensures Collect(produced) == Answers(said)
  {
    if said == [] {
    } else {
      var n := |said| - 1;
      CollectIsAnswers(produced[..n], said[..n]);
    }
  }

  lemma {:induction false} EventsYieldAnswers(events: seq<Json>, items: seq<Json>)
    requires |events| == |items| && forall i | 0 <= i < |items| :: Announces(events[i], items[i])
    ensures EventAnswers(events) == Answers(HeardAll(items))
  {
    forall i | 0 <= i < |items| ensures Yields(events)[i] == AnswerText(HeardAll(items)[i]) {
      EventYieldsAnswer(events[i], items[i]);
    }
    CollectIsAnswers(Yields(events), HeardAll(items));
  }

  /**
   Event path and history path agree: over the items of a turn announced one by
   one, the last answer an event produced is the explicit final text of the
   history, and no event produced one exactly when the history has none.
   */
  lemma {:induction false} EventAndHistoryAgree(events: seq<Json>, items: seq<Json>)
    requires |events| == |items| && forall i | 0 <= i < |items| :: Announces(events[i], items[i])
    ensures var history := HistoryText(HeardAll(items));
      && (history.explicitFinal <==> EventAnswers(events) != [])
      && (history.explicitFinal ==> history.text == LastOr(EventAnswers(events)))
  {
    EventsYieldAnswers(events, items);
  }

  lemma {:induction false} SaidAppend(a: seq<Utterance>, b: seq<Utterance>)
    ensures Answers(a + b) == Answers(a) + Answers(b)
    ensures Messages(a + b) == Messages(a) + Messages(b)
    decreases |b|
  {
    if b == [] {
      assert a + b == a;
    } else {
      var n := |b| - 1;
      assert (a + b)[..|a + b| - 1] == a + b[..n];
      SaidAppend(a, b[..n]);
    }
  }

  /** An asynchronous question, wherever it stands among the items, changes neither text nor flag and is no answer. */
  lemma {:induction false} AsyncItemsAreTransparent(before: seq<Json>, question: Json, after: seq<Json>, params: Json)
    requires IsAsync(question)
    ensures HistoryText(HeardAll(before + [question] + after)) == HistoryText(HeardAll(before + after))
    ensures Get(params, "item") == Some(question) ==> CompletedAnswer(params) == None
  {
    var a, q, b := HeardAll(before), [Silent], HeardAll(after);
    assert HeardAll(before + [question] + after) == a + q + b;
    assert HeardAll(before + after) == a + b;
    SaidAppend(a + q, b);
    SaidAppend(a, q);
    SaidAppend(a, b);
    assert q[..0] == [];
    assert Answers(a) + [] == Answers(a) && Messages(a) + [] == Messages(a);
  }
}
