/**
 Recent conversation text (crates/cdr-codex-state/src/context_text.rs): bounded
 extraction of one item per event and a bounded window of the latest items.
 */
module ContextText {
  import opened Options
  import opened Sequences
  import opened Text
  import opened Json

  datatype Mode = Visible | UserAndFinal

  datatype Item = Item(caption: string, text: string, observedAt: Option<string>, truncated: bool)

  const TEXT_LIMIT: nat := 1_500

  // ------------------------------------------------------------------ the bounded join

  function DropLeadingEmpty(fragments: seq<string>): seq<string> {
    if fragments != [] && fragments[0] == [] then DropLeadingEmpty(fragments[1..]) else fragments
  }

  /** All fragments on lines of their own, without blank lines in front. */
  function FullJoin(fragments: seq<string>): string {
    Join(DropLeadingEmpty(fragments), "\n")
  }

  lemma {:induction false} JoinAppend(parts: seq<string>, last: string)
    requires parts != []
    ensures Join(parts + [last], "\n") == Join(parts, "\n") + "\n" + last
  {
    if |parts| == 1 {
      assert (parts + [last])[1..] == [last];
    } else {
      assert (parts + [last])[1..] == parts[1..] + [last];
      JoinAppend(parts[1..], last);
    }
  }

  lemma {:induction false} DropAppend(fragments: seq<string>, last: string)
    ensures DropLeadingEmpty(fragments) == [] ==> DropLeadingEmpty(fragments + [last]) == DropLeadingEmpty([last])
    ensures DropLeadingEmpty(fragments) != [] ==>
      DropLeadingEmpty(fragments + [last]) == DropLeadingEmpty(fragments) + [last]
        && DropLeadingEmpty(fragments)[0] != []
  {
    if fragments == [] {
      assert fragments + [last] == [last];
    } else if fragments[0] == [] {
      assert (fragments + [last])[1..] == fragments[1..] + [last];
      DropAppend(fragments[1..], last);
    }
  }

  /** The full join grows by one fragment at a time. */
  lemma {:induction false} FullJoinAppend(fragments: seq<string>, last: string)
    ensures var text := FullJoin(fragments);
      FullJoin(fragments + [last]) == (if text == [] then [] else text + "\n") + last
  {
    DropAppend(fragments, last);
    var kept := DropLeadingEmpty(fragments);
    if kept == [] {
      assert [last][1..] == [];
    } else {
      JoinAppend(kept, last);
    }
  }

  lemma {:induction false} FullJoinPrefix(fragments: seq<string>, more: seq<string>)
    ensures FullJoin(fragments) <= FullJoin(fragments + more)
    decreases |more|
  {
    if more == [] {
      assert fragments + more == fragments;
    } else {
      var n := |more| - 1;
      FullJoinPrefix(fragments, more[..n]);
      FullJoinAppend(fragments + more[..n], more[n]);
      assert fragments + more == fragments + more[..n] + [more[n]];
    }
  }

  // ------------------------------------------------------------------ against the plain join

  /** The plain join of the fragments is the full join behind some line breaks. */
  lemma {:induction false} PlainJoinIsPadded(fragments: seq<string>) returns (pad: string)
    ensures Blank(pad) && Join(fragments, "\n") == pad + FullJoin(fragments)
  {
    if fragments == [] || fragments[0] != [] {
      pad := [];
      AppendEmpty(FullJoin(fragments));
    } else if |fragments| == 1 {
      pad := [];
      assert fragments[1..] == [];
      assert FullJoin(fragments) == FullJoin([]);
      assert Join(fragments, "\n") == [];
    } else {
      var rest := PlainJoinIsPadded(fragments[1..]);
      pad := "\n" + rest;
      assert FullJoin(fragments) == FullJoin(fragments[1..]);
      assert Join(fragments, "\n") == "" + "\n" + Join(fragments[1..], "\n");
      AppendEmpty("\n");
      assert Blank(pad);
      AppendAssoc("\n", rest, FullJoin(fragments[1..]));
    }
  }

  lemma {:induction false} TrimIgnoresExactlyBlank(s: string, more: string)
    ensures Trim(s + more) == Trim(s) <==> Blank(more)
  {
    hide Blank, TrimStart, TrimEnd;
    TrimBlank(s);
    TrimBlank(more);
    if Blank(s) {
      TrimBlankHead(s, more);
    } else {
      TrimExtend(s, more);
    }
  }

  lemma {:induction false} TrimBlankHead(head: string, s: string)
    requires Blank(head)
    ensures Trim(head + s) == Trim(s)
  {
    TrimStartBlankHead(head, s);
  }

  /** The bounded text and flag of `padded` are those of `text`. */
  predicate SameBounded(text: string, padded: string) {
    Trim(Take(text, TEXT_LIMIT)) == Trim(Take(padded, TEXT_LIMIT)) && (|text| > TEXT_LIMIT <==> |padded| > TEXT_LIMIT)
  }

  /** The end of the bounded text that `k` characters in front would push out. */
  function PushedOut(text: string, k: nat): string
    requires |text| > TEXT_LIMIT
  {
    text[if k <= TEXT_LIMIT then TEXT_LIMIT - k else 0..TEXT_LIMIT]
  }

  lemma {:induction false} PaddingPushesOut(pad: string, text: string)
    requires Blank(pad) && |text| > TEXT_LIMIT
    ensures Trim(Take(text, TEXT_LIMIT)) == Trim(Take(pad + text, TEXT_LIMIT)) <==> Blank(PushedOut(text, |pad|))
  {
    hide Trim;
    var cut := if |pad| <= TEXT_LIMIT then TEXT_LIMIT - |pad| else 0;
    var front := Take(pad, TEXT_LIMIT);
    assert Take(pad + text, TEXT_LIMIT) == front + text[..cut];
    assert Take(text, TEXT_LIMIT) == text[..cut] + text[cut..TEXT_LIMIT];
    TrimBlankHead(front, text[..cut]);
    TrimIgnoresExactlyBlank(text[..cut], text[cut..TEXT_LIMIT]);
  }

  /**
   The bounded loop agrees with joining all fragments plainly exactly when the
   plain join is within the limit, or the text alone is beyond it and the line
   breaks of leading empty fragments push only white space out.
   */
  lemma {:induction false} AgreesWithPlainJoin(fragments: seq<string>)
    ensures var text, plain := FullJoin(fragments), Join(fragments, "\n");
      && |text| <= |plain|
      && (SameBounded(text, plain) <==>
            |plain| <= TEXT_LIMIT || (|text| > TEXT_LIMIT && Blank(PushedOut(text, |plain| - |text|))))
  {
    hide Trim, FullJoin, Join, Blank, PushedOut;
    var text := FullJoin(fragments);
    var pad := PlainJoinIsPadded(fragments);
    TrimBlankHead(pad, text);
    if |text| > TEXT_LIMIT {
      PaddingPushesOut(pad, text);
    }
  }

  /** An empty fragment before a text of exactly the limit: the loop keeps all of it, the plain join is truncated. */
  lemma {:induction false} EmptyFragmentIsNotCounted(text: string)
    requires |text| == TEXT_LIMIT
    ensures FullJoin(["", text]) == text && |Join(["", text], "\n")| > TEXT_LIMIT
    ensures !SameBounded(FullJoin(["", text]), Join(["", text], "\n"))
  {
    assert ["", text][1..] == [text];
    assert Join(["", text], "\n") == "" + "\n" + Join([text], "\n");
    assert DropLeadingEmpty(["", text]) == DropLeadingEmpty([text]) == [text];
  }

  // ------------------------------------------------------------------ the bounded loop

  /** The early-exit loop of `extract`: the same text and flag as joining everything first. */
  method BoundedJoin(fragments: seq<string>) returns (text: string, truncated: bool)
    ensures text == Trim(Take(FullJoin(fragments), TEXT_LIMIT))
    ensures truncated <==> |FullJoin(fragments)| > TEXT_LIMIT
  {
    var grown: string := [];
    var i := 0;
    while i < |fragments|
      invariant 0 <= i <= |fragments|
      invariant |grown| <= TEXT_LIMIT && grown == FullJoin(fragments[..i])
    {
      ghost var joined := FullJoin(fragments[..i + 1]);
      FullJoinAppend(fragments[..i], fragments[i]);
      assert fragments[..i + 1] == fragments[..i] + [fragments[i]];
      if grown != [] {
        grown := grown + "\n";
      }
      var remaining := TEXT_LIMIT + 1 - |grown|;
      assert joined == grown + fragments[i];
      grown := grown + Take(fragments[i], remaining);
      assert grown == Take(joined, TEXT_LIMIT + 1);
      i := i + 1;
      if |grown| > TEXT_LIMIT {
        FullJoinPrefix(fragments[..i], fragments[i..]);
        assert fragments[..i] + fragments[i..] == fragments;
        break;
      }
    }
    assert |grown| <= TEXT_LIMIT ==> fragments[..i] == fragments;
    assert grown == Take(FullJoin(fragments), TEXT_LIMIT + 1);
    assert Take(grown, TEXT_LIMIT) == Take(FullJoin(fragments), TEXT_LIMIT);
    truncated := |grown| > TEXT_LIMIT;
    text := Trim(Take(grown, TEXT_LIMIT));
  }

  // ------------------------------------------------------------------ one item per event

  function Timestamp(event: Json): Option<string> {
    var t := AsString(Some(Index(event, "timestamp")));
    if t.Some? then Some(Take(t.value, 64)) else None
  }

  predicate EndsWith(s: string, suffix: string) {
    |suffix| <= |s| && s[|s| - |suffix|..] == suffix
  }

  function ContentTexts(items: seq<Json>): seq<string> {
    if items == [] then []
    else
      var kind, text := AsString(Get(items[0], "type")), AsString(Get(items[0], "text"));
      (if (kind == Some("input_text") || kind == Some("output_text")) && text.Some? then [text.value] else [])
        + ContentTexts(items[1..])
  }

  /** The role and text fragments of a message event. */
  function Message(eventType: string, kind: string, payload: Json): Option<(string, seq<string>)> {
    var message := AsString(Get(payload, "message"));
    if eventType == "event_msg" && kind == "user_message" then
      if message.Some? then Some(("user", [message.value])) else None
    else if eventType == "event_msg" && kind == "agent_message" then
      if message.Some? then Some(("assistant", [message.value])) else None
    else if eventType == "response_item" && kind == "message" then
      var role, content := AsString(Get(payload, "role")), Index(payload, "content");
      if role.Some? && content.JArray? then Some((role.value, ContentTexts(content.items))) else None
    else None
  }

  /** A call that waits for the user; `parse` reads the call's argument text. */
  function Notice(parse: string -> Option<Json>, payload: Json): Option<string> {
    var name, arguments := AsString(Get(payload, "name")), AsString(Get(payload, "arguments"));
    if name.None? then None
    else if EndsWith(name.value, "request_user_input") then Some("[choice_required]")
    else if arguments.None? || parse(arguments.value).None? then None
    else if Index(parse(arguments.value).value, "sandbox_permissions") == JString("require_escalated") then
      Some("[approval_required]")
    else None
  }

  function Caption(role: string, phase: string): Option<string> {
    if role == "user" then Some("user")
    else if role == "assistant" then
      Some(if phase == "final_answer" || phase == "final" then "assistant final" else "assistant commentary")
    else None
  }

  /** The item of an event: a notice, or the trimmed beginning of the full join of its fragments. */
  function Extract(parse: string -> Option<Json>, event: Json): (item: Option<Item>)
    ensures item.Some? ==> item.value.text != [] && |item.value.text| <= TEXT_LIMIT
  {
    var payload := Index(event, "payload");
    var eventType, kind := AsString(Get(event, "type")), AsString(Get(payload, "type"));
    var phase := if AsString(Get(payload, "phase")).Some? then AsString(Get(payload, "phase")).value else "commentary";
    if eventType.None? || kind.None? || phase == "analysis" then None
    else if eventType.value == "response_item" && kind.value == "function_call" then
      var notice := Notice(parse, payload);
      if notice.Some? then Some(Item("assistant interactive", notice.value, Timestamp(event), false)) else None
    else
      var message := Message(eventType.value, kind.value, payload);
      if message.None? then None
      else
        var caption := Caption(message.value.0, phase);
        var joined := FullJoin(message.value.1);
        var text := Trim(Take(joined, TEXT_LIMIT));
        if caption.None? || text == [] then None
        else Some(Item(caption.value, text, Timestamp(event), |joined| > TEXT_LIMIT))
  }

  /** `extract`: the bounded loop stands in for the full join. */
  method ExtractItem(parse: string -> Option<Json>, event: Json) returns (item: Option<Item>)
    ensures item == Extract(parse, event)
  {
    hide FullJoin, Message, Notice, Caption, Trim, Timestamp;
    var payload := Index(event, "payload");
    var eventType, kind := AsString(Get(event, "type")), AsString(Get(payload, "type"));
    if eventType.None? || kind.None? {
      return None;
    }
    var phase := if AsString(Get(payload, "phase")).Some? then AsString(Get(payload, "phase")).value else "commentary";
    if phase == "analysis" {
      return None;
    }
    if eventType.value == "response_item" && kind.value == "function_call" {
      var notice := Notice(parse, payload);
      return if notice.Some? then Some(Item("assistant interactive", notice.value, Timestamp(event), false)) else None;
    }
    var message := Message(eventType.value, kind.value, payload);
    if message.None? {
      return None;
    }
    var caption := Caption(message.value.0, phase);
    if caption.None? {
      return None;
    }
    var text, truncated := BoundedJoin(message.value.1);
    if text == [] {
      return None;
    }
    return Some(Item(caption.value, text, Timestamp(event), truncated));
  }

  // ------------------------------------------------------------------ the window of recent items

  predicate Eligible(mode: Mode, item: Item) {
    mode.Visible? || item.caption == "user" || item.caption == "assistant final"
  }

  function Clamp(limit: nat): (k: nat)
    ensures 1 <= k <= 50 && (1 <= limit <= 50 ==> k == limit)
    ensures (limit == 0 ==> k == 1) && (limit > 50 ==> k == 50)
  {
    if limit < 1 then 1 else if limit > 50 then 50 else limit
  }

  /** The items one event adds to the eligible stream. */
  function Contribution(parse: string -> Option<Json>, mode: Mode, event: Json): seq<Item> {
    var item := Extract(parse, event);
    if item.Some? && Eligible(mode, item.value) then [item.value] else []
  }

  function EligibleItems(parse: string -> Option<Json>, mode: Mode, events: seq<Json>): seq<Item> {
    if events == [] then []
    else EligibleItems(parse, mode, events[..|events| - 1]) + Contribution(parse, mode, events[|events| - 1])
  }

  function LastItems(items: seq<Item>, k: nat): seq<Item> {
    if |items| <= k then items else items[|items| - k..]
  }

  lemma {:induction false} LastItemsAppend(items: seq<Item>, item: Item, k: nat)
    requires k >= 1
    ensures LastItems(items + [item], k) ==
      (if |LastItems(items, k)| == k then LastItems(items, k)[1..] else LastItems(items, k)) + [item]
  {
  }

  class RecentText {
    const limit: nat
    const mode: Mode
    var items: seq<Item>

    constructor (limit: nat, mode: Mode)
      ensures this.limit == Clamp(limit) && this.mode == mode && items == []
    {
      this.limit, this.mode, items := Clamp(limit), mode, [];
    }

    /** `push`: a window over the latest `stream` becomes one over the stream with this event's contribution. */
    method Push(parse: string -> Option<Json>, event: Json, ghost stream: seq<Item>)
      requires limit >= 1 && items == LastItems(stream, limit)
      modifies this
      ensures items == LastItems(stream + Contribution(parse, mode, event), limit)
    {
      assert stream + [] == stream;
      var item := ExtractItem(parse, event);
      if item.None? {
        return;
      }
      if mode.UserAndFinal? && !(item.value.caption == "user" || item.value.caption == "assistant final") {
        return;
      }
      LastItemsAppend(stream, item.value, limit);
      if |items| == limit {
        items := items[1..];
      }
      items := items + [item.value];
    }
  }

  /** Pushing any stream of events leaves exactly the last eligible items of the whole stream. */
  method RecentItems(parse: string -> Option<Json>, limit: nat, mode: Mode, events: seq<Json>)
    returns (items: seq<Item>)
    ensures items == LastItems(EligibleItems(parse, mode, events), Clamp(limit))
    ensures var all, k := EligibleItems(parse, mode, events), Clamp(limit);
      |items| == (if |all| < k then |all| else k) && items == all[|all| - |items|..]
  {
    var recent := new RecentText(limit, mode);
    for i := 0 to |events|
      invariant recent.items == LastItems(EligibleItems(parse, mode, events[..i]), recent.limit)
    {
      recent.Push(parse, events[i], EligibleItems(parse, mode, events[..i]));
      assert events[..i + 1][..i] == events[..i];
    }
    assert events[..|events|] == events;
    return recent.items;
  }

  // ------------------------------------------------------------------ which events give which items

  /** The first 64 characters of the "timestamp", if that is a string. */
  lemma {:induction false} TimestampExactly(event: Json, raw: string)
    ensures Says(Get(event, "timestamp"), raw) ==> Timestamp(event) == Some(if |raw| <= 64 then raw else raw[..64])
    ensures Mute(Get(event, "timestamp")) ==> Timestamp(event) == None
  {
    hide Get;
    if Get(event, "timestamp").Some? && Get(event, "timestamp").value.JString? {
      assert Says(Get(event, "timestamp"), Get(event, "timestamp").value.s);
    }
  }

  /** The item of a message with this caption and these fragments. */
  function MessageItem(event: Json, caption: string, fragments: seq<string>): Option<Item> {
    var text := Trim(Take(FullJoin(fragments), 1_500));
    if text == [] then None else Some(Item(caption, text, Timestamp(event), |FullJoin(fragments)| > 1_500))
  }

  /** The kind of an event: its own type and that of its payload. */
  predicate IsKind(event: Json, payload: Json, eventType: string, kind: string) {
    Get(event, "payload") == Some(payload) && Says(Get(event, "type"), eventType) && Says(Get(payload, "type"), kind)
  }

  predicate FinalPhase(payload: Json) {
    Says(Get(payload, "phase"), "final_answer") || Says(Get(payload, "phase"), "final")
  }

  function AssistantCaption(payload: Json): string {
    if FinalPhase(payload) then "assistant final" else "assistant commentary"
  }

  lemma {:induction false} PhaseOf(payload: Json)
    ensures var phase := if AsString(Get(payload, "phase")).Some? then AsString(Get(payload, "phase")).value
      else "commentary";
      && (phase == "analysis" <==> Says(Get(payload, "phase"), "analysis"))
      && Caption("assistant", phase) == Some(AssistantCaption(payload)) && Caption("user", phase) == Some("user")
  {
    hide Get;
    StringSays(Get(payload, "phase"));
  }

  /** The item of an event that holds a message, by the role of its author. */
  lemma {:induction false} ExtractByMessage(parse: string -> Option<Json>, event: Json, payload: Json,
      eventType: string,
      kind: string, role: string, fragments: seq<string>)
    requires IsKind(event, payload, eventType, kind) && !(eventType == "response_item" && kind == "function_call")
    requires !Says(Get(payload, "phase"), "analysis") && Message(eventType, kind, payload) == Some((role, fragments))
    ensures Extract(parse, event) ==
      if role == "user" then MessageItem(event, "user", fragments)
      else if role == "assistant" then MessageItem(event, AssistantCaption(payload), fragments)
      else None
  {
    hide Get, Trim, FullJoin, Timestamp, Notice, AssistantCaption, Message, Take;
    PhaseOf(payload);
  }

  /** The text of a user or agent event; anything in the analysis phase is hidden. */
  lemma {:induction false} MessageEventsExactly(parse: string -> Option<Json>, event: Json, payload: Json, text: string)
    requires Says(Get(payload, "message"), text)
    ensures IsKind(event, payload, "event_msg", "user_message") && !Says(Get(payload, "phase"), "analysis") ==>
      Extract(parse, event) == MessageItem(event, "user", [text])
    ensures IsKind(event, payload, "event_msg", "agent_message") && !Says(Get(payload, "phase"), "analysis") ==>
      Extract(parse, event) == MessageItem(event, AssistantCaption(payload), [text])
  {
    hide Get, AssistantCaption, MessageItem, Extract;
    assert Message("event_msg", "user_message", payload) == Some(("user", [text]));
    assert Message("event_msg", "agent_message", payload) == Some(("assistant", [text]));
    if IsKind(event, payload, "event_msg", "user_message") && !Says(Get(payload, "phase"), "analysis") {
      ExtractByMessage(parse, event, payload, "event_msg", "user_message", "user", [text]);
    }
    if IsKind(event, payload, "event_msg", "agent_message") && !Says(Get(payload, "phase"), "analysis") {
      ExtractByMessage(parse, event, payload, "event_msg", "agent_message", "assistant", [text]);
    }
  }

  /** The content texts of a response message by role; other roles give nothing. */
  lemma {:induction false} ResponseMessagesExactly(parse: string -> Option<Json>, event: Json, payload: Json,
      role: string,
      content: seq<Json>)
    requires IsKind(event, payload, "response_item", "message") && !Says(Get(payload, "phase"), "analysis")
    requires Says(Get(payload, "role"), role) && Get(payload, "content") == Some(JArray(content))
    ensures role == "user" ==> Extract(parse, event) == MessageItem(event, "user", ContentTexts(content))
    ensures role == "assistant" ==> Extract(parse, event) == MessageItem(event, AssistantCaption(payload),
        ContentTexts(content))
    ensures role != "user" && role != "assistant" ==> Extract(parse, event) == None
  {
    hide Get, ContentTexts, AssistantCaption, MessageItem, Extract;
    assert Message("response_item", "message", payload) == Some((role, ContentTexts(content)));
    ExtractByMessage(parse, event, payload, "response_item", "message", role, ContentTexts(content));
  }

  predicate AsksEscalation(parse: string -> Option<Json>, arguments: string) {
    var parsed := parse(arguments);
    parsed.Some? && Says(Get(parsed.value, "sandbox_permissions"), "require_escalated")
  }

  /** A call that waits for a choice or for an approval gives a notice; any other call gives nothing. */
  lemma {:induction false} CallsExactly(parse: string -> Option<Json>, event: Json, payload: Json, name: string,
      arguments: string)
    requires IsKind(event, payload, "response_item", "function_call") && !Says(Get(payload, "phase"), "analysis")
    requires Says(Get(payload, "name"), name)
    ensures EndsWith(name, "request_user_input") ==>
      Extract(parse, event) == Some(Item("assistant interactive", "[choice_required]", Timestamp(event), false))
    ensures !EndsWith(name, "request_user_input") && Says(Get(payload, "arguments"), arguments) ==>
      Extract(parse, event) ==
        if AsksEscalation(parse, arguments)
        then Some(Item("assistant interactive", "[approval_required]", Timestamp(event), false)) else None
    ensures !EndsWith(name, "request_user_input") && Mute(Get(payload, "arguments")) ==> Extract(parse, event) == None
  {
    hide Get, Timestamp, EndsWith, Notice, Extract, AsksEscalation;
    NoticeExactly(parse, payload, name, arguments);
    ExtractByNotice(parse, event, payload);
  }

  lemma {:induction false} ExtractByNotice(parse: string -> Option<Json>, event: Json, payload: Json)
    requires IsKind(event, payload, "response_item", "function_call") && !Says(Get(payload, "phase"), "analysis")
    ensures Extract(parse, event) ==
      if Notice(parse, payload).None? then None
      else Some(Item("assistant interactive", Notice(parse, payload).value, Timestamp(event), false))
  {
    hide Get, Timestamp, Notice, Message, Caption, FullJoin, Trim, Take;
    PhaseOf(payload);
  }

  lemma {:induction false} NoticeExactly(parse: string -> Option<Json>, payload: Json, name: string, arguments: string)
    requires Says(Get(payload, "name"), name)
    ensures EndsWith(name, "request_user_input") ==> Notice(parse, payload) == Some("[choice_required]")
    ensures !EndsWith(name, "request_user_input") && Says(Get(payload, "arguments"), arguments) ==>
      Notice(parse, payload) == if AsksEscalation(parse, arguments) then Some("[approval_required]") else None
    ensures !EndsWith(name, "request_user_input") && Mute(Get(payload, "arguments")) ==> Notice(parse, payload) == None
  {
    hide Get, EndsWith;
    StringSays(Get(payload, "arguments"));
  }

  predicate KnownKind(event: Json, payload: Json) {
    || IsKind(event, payload, "event_msg", "user_message")
    || IsKind(event, payload, "event_msg", "agent_message")
    || IsKind(event, payload, "response_item", "message")
    || IsKind(event, payload, "response_item", "function_call")
  }

  /** Analysis, and every other kind of event, gives nothing. */
  lemma {:induction false} OtherEventsGiveNothing(parse: string -> Option<Json>, event: Json, payload: Json)
    requires Get(event, "payload") == Some(payload)
    ensures Says(Get(payload, "phase"), "analysis") ==> Extract(parse, event) == None
    ensures !KnownKind(event, payload) ==> Extract(parse, event) == None
  {
    hide Get, Timestamp, EndsWith, Notice;
    PhaseOf(payload);
    var t, k := AsString(Get(event, "type")), AsString(Get(payload, "type"));
    if t.Some? && k.Some? {
      StringSays(Get(event, "type"));
      StringSays(Get(payload, "type"));
    }
  }

  lemma {:induction false} ContentTextsHead(a: seq<Json>)
    requires a != []
    ensures ContentTexts(a) == ContentTexts([a[0]]) + ContentTexts(a[1..])
  {
    hide Get, AsString;
    assert [a[0]][1..] == [];
    AppendEmpty(ContentTexts([a[0]]));
  }

  lemma {:induction false} ContentTextsAppend(a: seq<Json>, b: seq<Json>)
    ensures ContentTexts(a + b) == ContentTexts(a) + ContentTexts(b)
  {
    hide Get, AsString;
    if a == [] {
      AppendEmpty(b);
      AppendEmpty(ContentTexts(b));
    } else {
      TailAppend(a, b);
      ContentTextsAppend(a[1..], b);
      ContentTextsHead(a);
      ContentTextsHead(a + b);
      AppendAssoc(ContentTexts([a[0]]), ContentTexts(a[1..]), ContentTexts(b));
    }
  }

  predicate IsTextPart(part: Json) {
    Says(Get(part, "type"), "input_text") || Says(Get(part, "type"), "output_text")
  }

  /** A text of the content, wherever it stands, contributes in its place; any other part contributes nothing. */
  lemma {:induction false} ContentTextsExactly(before: seq<Json>, part: Json, after: seq<Json>, text: string)
    ensures IsTextPart(part) && Says(Get(part, "text"), text) ==>
      ContentTexts(before + [part] + after) == ContentTexts(before) + [text] + ContentTexts(after)
    ensures !IsTextPart(part) || Mute(Get(part, "text")) ==>
      ContentTexts(before + [part] + after) == ContentTexts(before + after)
  {
    hide Get, ContentTexts;
    ContentTextsAppend(before + [part], after);
    ContentTextsAppend(before, [part]);
    ContentTextsAppend(before, after);
    OnePart(part, text);
    AppendEmpty(ContentTexts(before));
  }

  lemma {:induction false} OnePart(part: Json, text: string)
    ensures IsTextPart(part) && Says(Get(part, "text"), text) ==> ContentTexts([part]) == [text]
    ensures !IsTextPart(part) || Mute(Get(part, "text")) ==> ContentTexts([part]) == []
  {
    hide Get;
    assert [part][1..] == [];
    StringSays(Get(part, "type"));
    StringSays(Get(part, "text"));
  }

  /** All items count when everything is visible; otherwise only those of the user and final answers do. */
  lemma {:induction false} ContributionExactly(parse: string -> Option<Json>, event: Json, item: Item)
    requires Extract(parse, event) == Some(item)
    ensures Contribution(parse, Visible, event) == [item]
    ensures Contribution(parse, UserAndFinal, event) ==
      if item.caption == "user" || item.caption == "assistant final" then [item] else []
  {
    hide Extract;
  }

  /** The eligible items of a stream are those of its events, one after another. */
  lemma {:induction false} EligibleAppend(parse: string -> Option<Json>, mode: Mode, a: seq<Json>, b: seq<Json>)
    ensures EligibleItems(parse, mode, a + b) == EligibleItems(parse, mode, a) + EligibleItems(parse, mode, b)
    decreases |b|
  {
    hide Contribution;
    if b == [] {
      AppendEmpty(a);
      AppendEmpty(EligibleItems(parse, mode, a));
    } else {
      InitAppend(a, b);
      EligibleAppend(parse, mode, a, b[..|b| - 1]);
      AppendAssoc(EligibleItems(parse, mode, a), EligibleItems(parse, mode, b[..|b| - 1]),
        Contribution(parse, mode, b[|b| - 1]));
    }
  }
}
