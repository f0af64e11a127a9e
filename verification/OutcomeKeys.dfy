/**
 Turn outcomes by the keys and words of their JSON payloads
 (crates/cdr-app-server/src/outcomes.rs, crates/cdr-app-server/src/error.rs).
 */
module OutcomeKeys {
  import opened Options
  import opened Sequences
  import opened Text
  import opened Json
  import opened TurnOutcomes

  // ------------------------------------------------------------------ accepted completions

  /** The key holds a string that trims to this text. */
  ghost predicate Reads(v: Option<Json>, text: string) {
    exists raw: string :: v == Some(JString(raw)) && Trim(raw) == text
  }

  lemma {:induction false} TextOfReads(v: Option<Json>, text: string)
    ensures text != [] ==> (TextOf(v) == text <==> Reads(v, text))
    ensures TextOf(v) == [] <==> forall t: string | t != [] :: !Reads(v, t)
  {
    hide Trim;
    if AsString(v).Some? {
      var raw := AsString(v).value;
      assert v == Some(JString(raw)) && Reads(v, Trim(raw));
    }
  }

  /**
   The error of a turn: its message, trimmed and cut to 1000 characters, and
   whether a usage-limit code is in reach.
   */
  ghost predicate ErrorIs(error: Option<Json>, failed: bool, message: string, usageLimit: bool) {
    if error == None || error == Some(JNull) then message == "" && !usageLimit
    else
      && error.value.JObject?
      && exists raw: string ::
           Says(Get(error.value, "message"), raw) && Details(error.value, raw, failed, message, usageLimit)
  }

  ghost predicate Details(error: Json, raw: string, failed: bool, message: string, usageLimit: bool) {
    if failed then
      && message == (if |Trim(raw)| <= 1_000 then Trim(raw) else Trim(raw)[..1_000])
      && (usageLimit <==> exists n: nat :: n <= 4 && CodeAt(error, n))
    else message == "" && !usageLimit
  }

  /** The payload announces exactly this completion. */
  ghost predicate Announced(params: Json, remoteUserIntent: bool, c: TurnCompletion) {
    var turn := Get(params, "turn");
    && c.threadId != [] && Reads(Get(params, "threadId"), c.threadId)
    && turn.Some? && turn.value.JObject?
    && c.turnId != [] && Reads(Get(turn.value, "id"), c.turnId)
    && (c.status == Completed ==> Says(Get(turn.value, "status"), "completed"))
    && (c.status == Interrupted ==> Says(Get(turn.value, "status"), "interrupted"))
    && (c.status == Failed ==> Says(Get(turn.value, "status"), "failed"))
    && c.status != InProgress
    && ErrorIs(Get(turn.value, "error"), c.status == Failed, c.errorMessage, c.usageLimit)
    && (c.status == Interrupted && remoteUserIntent ==> c.origin == Some(RemoteUserIntent))
    && (c.status == Interrupted && !remoteUserIntent ==> c.origin == Some(ExternalOrUnknown))
    && (c.status != Interrupted ==> c.origin == None)
    && (forall d: int :: c.durationMs == Some(d) <==>
          -0x8000_0000_0000_0000 <= d < 0x8000_0000_0000_0000 && Get(turn.value, "durationMs") == Some(JInt(d)))
  }

  lemma {:induction false} ParseErrorIs(turn: Json, status: TurnStatus, message: string, usageLimit: bool)
    ensures ParseError(turn, status) == Ok((message, usageLimit)) <==>
      ErrorIs(Get(turn, "error"), status == Failed, message, usageLimit)
  {
    hide Trim, IsUsageLimit, CodeAt, Get;
    var error := Get(turn, "error");
    if error.Some? && error.value.JObject? {
      UsageLimitIffCodeInReach(error.value);
      var raw := AsString(Get(error.value, "message"));
      if raw.Some? {
        assert Says(Get(error.value, "message"), raw.value);
      }
    }
  }

  lemma {:induction false} ParseStatusIs(word: string)
    ensures ParseStatus(word) == Some(Completed) <==> word == "completed"
    ensures ParseStatus(word) == Some(Interrupted) <==> word == "interrupted"
    ensures ParseStatus(word) == Some(Failed) <==> word == "failed"
    ensures ParseStatus(word) == Some(InProgress) <==> word == "inProgress"
  {
  }

  lemma {:induction false} ParseTurnIs(threadId: string, turn: Json, remoteUserIntent: bool, c: TurnCompletion)
    ensures ParseTurn(threadId, turn, remoteUserIntent, true) == Ok(c) <==>
      && threadId != [] && c.threadId == threadId && TextOf(Get(turn, "id")) == c.turnId != []
      && AsString(Get(turn, "status")).Some?
      && ParseStatus(AsString(Get(turn, "status")).value) == Some(c.status) && c.status != InProgress
      && ParseError(turn, c.status) == Ok((c.errorMessage, c.usageLimit))
      && c.origin == OriginOf(c.status, remoteUserIntent) && c.durationMs == AsI64(Get(turn, "durationMs"))
  {
    hide Get, TextOf, ParseStatus, ParseError, AsI64, AsString;
  }

  lemma {:induction false} StatusSays(v: Option<Json>, status: TurnStatus)
    ensures AsString(v).Some? && ParseStatus(AsString(v).value) == Some(status) <==>
      match status
      case Completed => Says(v, "completed")
      case Interrupted => Says(v, "interrupted")
      case Failed => Says(v, "failed")
      case InProgress => Says(v, "inProgress")
  {
    hide ParseStatus;
    if AsString(v).Some? {
      ParseStatusIs(AsString(v).value);
    }
    ParseStatusIs("completed");
    ParseStatusIs("interrupted");
    ParseStatusIs("failed");
    ParseStatusIs("inProgress");
  }

  /** A payload is parsed to a completion exactly when it announces it, key by key and word by word. */
  lemma {:induction false} CompletionIsAnnounced(params: Json, remoteUserIntent: bool, c: TurnCompletion)
    ensures ParseCompletion(params, remoteUserIntent) == Ok(c) <==> Announced(params, remoteUserIntent, c)
  {
    hide Get, ParseTurn, ParseStatus, ParseError, TextOf, Reads, ErrorIs, AsString;
    var turn := Get(params, "turn");
    TextOfReads(Get(params, "threadId"), c.threadId);
    if turn.Some? && turn.value.JObject? {
      ParseTurnIs(TextOf(Get(params, "threadId")), turn.value, remoteUserIntent, c);
      TextOfReads(Get(turn.value, "id"), c.turnId);
      StatusSays(Get(turn.value, "status"), c.status);
      ParseErrorIs(turn.value, c.status, c.errorMessage, c.usageLimit);
      DurationIs(Get(turn.value, "durationMs"), c.durationMs);
    }
  }

  lemma {:induction false} DurationIs(v: Option<Json>, duration: Option<int>)
    ensures AsI64(v) == duration <==>
      forall d: int :: duration == Some(d) <==>
        -0x8000_0000_0000_0000 <= d < 0x8000_0000_0000_0000 && v == Some(JInt(d))
  {
    var n := AsI64(v);
    assert forall d: int :: n == Some(d) <==>
      -0x8000_0000_0000_0000 <= d < 0x8000_0000_0000_0000 && v == Some(JInt(d));
    if n != duration {
      var d := if n.Some? then n.value else duration.value;
      assert !(n == Some(d) <==> duration == Some(d));
    }
  }

  // ------------------------------------------------------------------ rejected completions

  /** What is missing decides the error, in this order. */
  lemma {:induction false} RejectionsInOrder(params: Json, remoteUserIntent: bool)
    ensures var r := ParseCompletion(params, remoteUserIntent);
      var turn := Get(params, "turn");
      if turn.None? || !turn.value.JObject? then r == Err(InvalidTurn)
      else if forall t: string | t != [] :: !Reads(Get(params, "threadId"), t) then r == Err(MissingThreadId)
      else if forall t: string | t != [] :: !Reads(Get(turn.value, "id"), t) then r == Err(MissingTurnId)
      else if Mute(Get(turn.value, "status")) then r == Err(MissingStatus)
      else if Says(Get(turn.value, "status"), "inProgress") then r == Err(InProgressCompletion)
      else
        var w := Get(turn.value, "status").value.s;
        if w != "completed" && w != "interrupted" && w != "failed" then r == Err(UnknownStatus(w))
        else
          var error := Get(turn.value, "error");
          if error == None || error == Some(JNull) then r.Ok?
          else if !error.value.JObject? then r == Err(InvalidError)
          else if Mute(Get(error.value, "message")) then r == Err(MissingErrorMessage)
          else r.Ok?
  {
    hide Get, ParseStatus, TextOf, Reads, IsUsageLimit, Trim, AsI64, OriginOf;
    var turn := Get(params, "turn");
    TextOfReads(Get(params, "threadId"), []);
    if turn.Some? && turn.value.JObject? {
      TextOfReads(Get(turn.value, "id"), []);
      StringSays(Get(turn.value, "status"));
      var status := AsString(Get(turn.value, "status"));
      if status.Some? {
        ParseStatusIs(status.value);
        SomeStatus(status.value);
      }
      var error := Get(turn.value, "error");
      if error.Some? {
        StringSays(Get(error.value, "message"));
      }
    }
  }

  lemma {:induction false} SomeStatus(word: string)
    ensures ParseStatus(word).Some? <==> word in {"completed", "interrupted", "failed", "inProgress"}
  {
  }

  // ------------------------------------------------------------------ usage-limit codes

  const CODES: set<string> :=
    {"usageLimitExceeded", "UsageLimitExceeded", "usage_limit_exceeded", "usage_limit_reached", "usage_limit"}

  const CODE_KEYS: set<string> := {"type", "errorType", "reason", "code"}

  /** A value carries a code itself: as a string, or, without typed information, under one of four keys. */
  lemma {:induction false} CarriesExactly(v: Json)
    ensures Carries(v) <==>
      || (v.JString? && v.s in CODES)
      || (v.JObject? && (Get(v, "codexErrorInfo") == None || Get(v, "codexErrorInfo") == Some(JNull))
          && exists key: string | key in CODE_KEYS :: exists code: string | code in CODES :: Says(Get(v, key), code))
  {
    hide Get;
    assert forall s: string :: UsageToken(s) <==> s in CODES;
    assert forall key: string :: TokenAt(v, key) <==>
      exists code: string | code in CODES :: Says(Get(v, key), code) by {
      forall key: string | TokenAt(v, key) ensures exists code: string | code in CODES :: Says(Get(v, key), code) {
        assert Says(Get(v, key), AsString(Get(v, key)).value);
      }
    }
    assert AnyToken(v) <==> exists key: string | key in CODE_KEYS :: TokenAt(v, key) by {
      assert "type" in CODE_KEYS && "errorType" in CODE_KEYS && "reason" in CODE_KEYS && "code" in CODE_KEYS;
    }
  }

  /** The chain goes down typed error information where there is any, and otherwise `data`. */
  lemma {:induction false} DescendExactly(v: Json, n: nat)
    ensures Descend(v, 0) == Some(v)
    ensures v.JObject? && Get(v, "codexErrorInfo").Some? && Get(v, "codexErrorInfo") != Some(JNull) ==>
      Descend(v, n + 1) == Descend(Get(v, "codexErrorInfo").value, n)
    ensures v.JObject? && (Get(v, "codexErrorInfo") == None || Get(v, "codexErrorInfo") == Some(JNull)) ==>
      Descend(v, n + 1) == if Get(v, "data").Some? then Descend(Get(v, "data").value, n) else None
    ensures !v.JObject? ==> Descend(v, n + 1) == None
  {
    hide Get;
  }

  // ------------------------------------------------------------------ what an item says

  predicate FromAgent(item: Json) {
    Says(Get(item, "type"), "agentMessage") || Says(Get(item, "type"), "agent_message")
  }

  /** An item is an answer, or just a message, by its type, its delivery, its phase and its text. */
  lemma {:induction false} HeardExactly(item: Json, text: string)
    ensures Heard(item) == Answer(text) <==>
      && FromAgent(item) && !Says(Get(item, "delivery"), "async") && Says(Get(item, "phase"), "final_answer")
      && text != [] && TurnOutcomes.MessageText(item) == text
    ensures Heard(item) == Message(text) <==>
      && FromAgent(item) && !Says(Get(item, "delivery"), "async") && !Says(Get(item, "phase"), "final_answer")
      && text != [] && TurnOutcomes.MessageText(item) == text
  {
    hide Get, TurnOutcomes.MessageText;
    StringSays(Get(item, "type"));
    StringSays(Get(item, "delivery"));
    StringSays(Get(item, "phase"));
  }

  /** The item has no text of its own, or only white space. */
  ghost predicate NoOwnText(item: Json) {
    forall raw: string | Says(Get(item, "text"), raw) :: Trim(raw) == []
  }

  /** The text of a message: its own if not blank, or else the texts of its content on lines of their own. */
  lemma {:induction false} MessageTextExactly(item: Json, raw: string, blocks: seq<Json>)
    ensures Says(Get(item, "text"), raw) && Trim(raw) != [] ==> TurnOutcomes.MessageText(item) == Trim(raw)
    ensures NoOwnText(item) && Get(item, "content") == Some(JArray(blocks)) ==>
      TurnOutcomes.MessageText(item) == Trim(Join(BlockTexts(blocks), "\n"))
  {
    hide Get, Trim, BlockTexts, Join;
    StringSays(Get(item, "text"));
  }

  lemma {:induction false} BlockTextsAppend(a: seq<Json>, b: seq<Json>)
    ensures BlockTexts(a + b) == BlockTexts(a) + BlockTexts(b)
  {
    hide Get, AsString;
    if a == [] {
      AppendEmpty(b);
      AppendEmpty(BlockTexts(b));
    } else {
      TailAppend(a, b);
      BlockTextsAppend(a[1..], b);
      assert BlockTexts(a) == BlockTexts([a[0]]) + BlockTexts(a[1..]) by { BlockTextsHead(a); }
      assert BlockTexts(a + b) == BlockTexts([a[0]]) + BlockTexts(a[1..] + b) by { BlockTextsHead(a + b); }
      AppendAssoc(BlockTexts([a[0]]), BlockTexts(a[1..]), BlockTexts(b));
    }
  }

  lemma {:induction false} BlockTextsHead(a: seq<Json>)
    requires a != []
    ensures BlockTexts(a) == BlockTexts([a[0]]) + BlockTexts(a[1..])
  {
    hide Get, AsString;
    assert [a[0]][1..] == [];
    AppendEmpty(BlockTexts([a[0]]));
  }

  predicate IsTextBlock(block: Json) {
    Says(Get(block, "type"), "text") || Says(Get(block, "type"), "output_text")
  }

  /** A text block, wherever it stands, contributes its text in its place; any other block contributes nothing. */
  lemma {:induction false} BlockTextsExactly(before: seq<Json>, block: Json, after: seq<Json>, text: string)
    ensures IsTextBlock(block) && Says(Get(block, "text"), text) ==>
      BlockTexts(before + [block] + after) == BlockTexts(before) + [text] + BlockTexts(after)
    ensures !IsTextBlock(block) || Mute(Get(block, "text")) ==>
      BlockTexts(before + [block] + after) == BlockTexts(before + after)
  {
    hide Get, BlockTexts;
    BlockTextsAppend(before + [block], after);
    BlockTextsAppend(before, [block]);
    BlockTextsAppend(before, after);
    OneBlock(block, text);
    AppendEmpty(BlockTexts(before));
  }

  lemma {:induction false} OneBlock(block: Json, text: string)
    ensures IsTextBlock(block) && Says(Get(block, "text"), text) ==> BlockTexts([block]) == [text]
    ensures !IsTextBlock(block) || Mute(Get(block, "text")) ==> BlockTexts([block]) == []
  {
    hide Get;
    assert [block][1..] == [];
    StringSays(Get(block, "type"));
    StringSays(Get(block, "text"));
  }

  /** The text of a history by position: the last answer, or else the last message, or else nothing. */
  lemma {:induction false} HistoryByPosition(said: seq<Utterance>, k: nat)
    ensures k < |said| && said[k].Answer? && (forall j | k < j < |said| :: !said[j].Answer?) ==>
      HistoryText(said) == TurnText(said[k].text, true)
    ensures k < |said| && !said[k].Silent? && (forall j | k < j < |said| :: said[j].Silent?)
            && (forall j | 0 <= j < |said| :: !said[j].Answer?) ==>
      HistoryText(said) == TurnText(said[k].text, false)
    ensures (forall j | 0 <= j < |said| :: said[j].Silent?) ==> HistoryText(said) == TurnText("", false)
  {
    hide Answers, Messages;
    LastAnswer(said, k);
    LastMessage(said, k);
  }

  lemma {:induction false} LastAnswer(said: seq<Utterance>, k: nat)
    ensures k < |said| && said[k].Answer? && (forall j | k < j < |said| :: !said[j].Answer?) ==>
      Answers(said) != [] && LastOr(Answers(said)) == said[k].text
    ensures (forall j | 0 <= j < |said| :: !said[j].Answer?) ==> Answers(said) == []
  {
    if said == [] {
    } else {
      LastAnswer(said[..|said| - 1], k);
    }
  }

  lemma {:induction false} LastMessage(said: seq<Utterance>, k: nat)
    ensures k < |said| && !said[k].Silent? && (forall j | k < j < |said| :: said[j].Silent?) ==>
      LastOr(Messages(said)) == said[k].text
    ensures (forall j | 0 <= j < |said| :: said[j].Silent?) ==> Messages(said) == []
  {
    if said == [] {
    } else {
      LastMessage(said[..|said| - 1], k);
    }
  }

  // ------------------------------------------------------------------ the requested turn

  /** The turns before `k` have other ids. */
  predicate FirstWithId(turns: seq<Json>, turnId: string, k: nat) {
    && k < |turns| && TextOf(Get(turns[k], "id")) == turnId
    && forall j | 0 <= j < k :: TextOf(Get(turns[j], "id")) != turnId
  }

  lemma {:induction false} FindTurnExactly(turns: seq<Json>, turnId: string, k: nat)
    ensures FirstWithId(turns, turnId, k) ==> FindTurn(turns, turnId) == Some(turns[k])
    ensures (forall j | 0 <= j < |turns| :: TextOf(Get(turns[j], "id")) != turnId) <==> FindTurn(turns, turnId) == None
  {
    hide TextOf, Get;
    if turns == [] {
    } else {
      FindTurnExactly(turns[1..], turnId, if k > 0 then k - 1 else 0);
      assert forall j | 0 < j < |turns| :: turns[j] == turns[1..][j - 1];
      assert k > 0 && FirstWithId(turns, turnId, k) ==> FirstWithId(turns[1..], turnId, k - 1);
    }
  }

  /** The items read are those of the first turn with the requested id, in the requested thread. */
  lemma {:induction false} RequestedItems(result: Json, threadId: string, turnId: string, fields: seq<Field>,
      turns: seq<Json>, k: nat, items: seq<Json>)
    requires Get(result, "thread") == Some(JObject(fields)) && TextOf(Get(JObject(fields), "id")) == threadId
    requires Get(JObject(fields), "turns") == Some(JArray(turns)) && FirstWithId(turns, turnId, k)
    ensures Get(turns[k], "items") == Some(JArray(items)) ==> TurnItems(result, threadId, turnId) == Ok(items)
    ensures (forall list: seq<Json> :: Get(turns[k], "items") != Some(JArray(list))) ==>
      TurnItems(result, threadId, turnId) == Err(InvalidItems)
  {
    hide Get, TextOf, FindTurn;
    FindTurnExactly(turns, turnId, k);
    var found := Get(turns[k], "items");
    assert found.Some? && found.value.JArray? ==> found == Some(JArray(found.value.items));
  }

  /** Without the thread, its turns or the turn there are no items, and the error says which. */
  lemma {:induction false} NoRequestedItems(result: Json, threadId: string, turnId: string)
    ensures var thread := Get(result, "thread");
      if thread.None? || !thread.value.JObject? then TurnItems(result, threadId, turnId) == Err(InvalidThread)
      else if TextOf(Get(thread.value, "id")) != threadId
        then TurnItems(result, threadId, turnId) == Err(DifferentThread)
      else
        var turns := Get(thread.value, "turns");
        if turns.None? || !turns.value.JArray? then TurnItems(result, threadId, turnId) == Err(InvalidTurns)
        else (forall j | 0 <= j < |turns.value.items| :: TextOf(Get(turns.value.items[j], "id")) != turnId) <==>
             TurnItems(result, threadId, turnId) == Err(TurnNotFound)
  {
    hide Get, TextOf, FindTurn;
    var thread := Get(result, "thread");
    if thread.Some? && thread.value.JObject? {
      var turns := Get(thread.value, "turns");
      if turns.Some? && turns.value.JArray? {
        FindTurnExactly(turns.value.items, turnId, 0);
      }
    }
  }

  /** An answer from an event names the event's own thread and turn. */
  lemma {:induction false} EventAnswerExactly(params: Json, item: Json, answer: CompletedFinalAnswer)
    requires Get(params, "item") == Some(item)
    ensures CompletedAnswer(params) == Some(answer) <==>
      && Heard(item) == Answer(answer.text)
      && answer.threadId != [] && Reads(Get(params, "threadId"), answer.threadId)
      && answer.turnId != [] && Reads(Get(params, "turnId"), answer.turnId)
  {
    hide Get, TextOf, Reads, TurnOutcomes.MessageText, AsString;
    TextOfReads(Get(params, "threadId"), answer.threadId);
    TextOfReads(Get(params, "turnId"), answer.turnId);
  }
}
