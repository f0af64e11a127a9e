/**
 The session log readers: a resumable tail reader and a one-shot reader
 (crates/cdr-codex-state/src/tail.rs).

 A file is its text and an offset a position in it. `value` says what a raw line
 holds; `LineReader` builds it from a JSON parser, by trimming first.
 */
module SessionTail {
  import opened Options
  import opened Sequences
  import opened Text
  import Json

  /** A session event: the members of a JSON object. */
  type Event = seq<Json.Field>

  datatype Parsed = Invalid | NonObject | Object(event: Event)

  datatype Tail = Tail(events: seq<Event>, nextOffset: nat)

  /** What a raw line holds: a blank line counts as one that is not an object. */
  function LineValue(parse: string -> Parsed, raw: string): Parsed {
    if Trim(raw) == [] then NonObject else parse(Trim(raw))
  }

  function LineReader(parse: string -> Parsed): string -> Parsed {
    (raw: string) => LineValue(parse, raw)
  }

  /** Length of the first line of `text`, terminator included. */
  function LineLength(text: string): (n: nat)
    requires text != []
    ensures 1 <= n <= |text|
  {
    if text[0] == '\n' || |text| == 1 then 1 else 1 + LineLength(text[1..])
  }

  function FirstLine(text: string): string
    requires text != []
  {
    text[..LineLength(text)]
  }

  function OtherLines(text: string): (rest: string)
    requires text != []
    ensures |rest| < |text|
  {
    text[LineLength(text)..]
  }

  function EventsOf(parsed: Parsed): seq<Event> {
    if parsed.Object? then [parsed.event] else []
  }

  // ------------------------------------------------------------------ one-shot reader

  /** Every object line of the text; lines that do not parse are skipped. */
  function AllEvents(value: string -> Parsed, text: string): seq<Event>
    decreases |text|
  {
    if text == [] then [] else EventsOf(value(FirstLine(text))) + AllEvents(value, OtherLines(text))
  }

  /** `iter_session_events`. */
  method IterSessionEvents(parse: string -> Parsed, file: string) returns (events: seq<Event>)
    ensures events == AllEvents(LineReader(parse), file)
  {
    events := [];
    var remaining := file;
    ghost var value := LineReader(parse);
    AppendEmpty(AllEvents(value, file));
    while remaining != []
      invariant events + AllEvents(value, remaining) == AllEvents(value, file)
      decreases |remaining|
    {
      var line := FirstLine(remaining);
      AppendAssoc(events, EventsOf(value(line)), AllEvents(value, OtherLines(remaining)));
      AppendEmpty(events);
      remaining := OtherLines(remaining);
      if Trim(line) == [] {
        continue;
      }
      var parsed := parse(Trim(line));
      if parsed.Object? {
        events := events + [parsed.event];
      }
    }
    AppendEmpty(events);
  }

  /** The events of the lines, each read on its own: trimmed, skipped if blank, bad or no object. */
  function LineEvents(parse: string -> Parsed, lines: seq<string>): seq<Event> {
    if lines == [] then []
    else
      var text := Trim(lines[0]);
      (if text != [] && parse(text).Object? then [parse(text).event] else []) + LineEvents(parse, lines[1..])
  }

  /** A file of terminated lines. */
  function FileOf(lines: seq<string>): string {
    if lines == [] then [] else lines[0] + "\n" + FileOf(lines[1..])
  }

  lemma {:induction false} FirstLineOfFile(line: string, rest: string)
    requires '\n' !in line
    ensures var text := line + "\n" + rest; FirstLine(text) == line + "\n" && OtherLines(text) == rest
  {
    var text := line + "\n" + rest;
    assert text[|line|] == '\n';
    assert forall i | 0 <= i < |line| :: text[i] == line[i] && line[i] in line;
    LineLengthIs(text, |line| + 1);
  }

  lemma {:induction false} TrimTerminated(line: string)
    ensures Trim(line + "\n") == Trim(line)
  {
    hide TrimStart, TrimEnd, Blank;
    TrimBlank(line);
    TrimBlank("\n");
    assert Blank("\n") by { BlankNewline(); }
    if Blank(line) {
      TrimStartBlankHead(line, "\n");
    } else {
      TrimExtend(line, "\n");
    }
  }

  lemma {:induction false} BlankNewline()
    ensures Blank("\n")
  {
  }

  /** Reading a file once is reading its lines one by one. */
  lemma {:induction false} IterReadsLines(parse: string -> Parsed, lines: seq<string>)
    requires forall i | 0 <= i < |lines| :: '\n' !in lines[i]
    ensures AllEvents(LineReader(parse), FileOf(lines)) == LineEvents(parse, lines)
  {
    hide Trim, FirstLine, OtherLines;
    if lines == [] {
    } else {
      var line, rest := lines[0], FileOf(lines[1..]);
      FirstLineOfFile(line, rest);
      TrimTerminated(line);
      IterReadsLines(parse, lines[1..]);
    }
  }

  // ------------------------------------------------------------------ tail reader

  /** The limit left for the lines that follow; zero means no limit. */
  function LimitAfter(line: Parsed, limit: nat): nat {
    if line.Object? && limit > 0 then limit - 1 else limit
  }

  /** What one tail read of `text` yields; `limit` zero means no limit. `nextOffset` counts from the start of `text`. */
  function Read(value: string -> Parsed, text: string, limit: nat): (tail: Tail)
    ensures tail.nextOffset <= |text|
    ensures limit > 0 ==> |tail.events| <= limit
    decreases |text|
  {
    if text == [] then Tail([], 0)
    else
      var first, n := value(FirstLine(text)), LineLength(text);
      if first.Invalid? then Tail([], 0)
      else if first.Object? && limit == 1 then Tail([first.event], n)
      else
        var rest := Read(value, OtherLines(text), LimitAfter(first, limit));
        Tail(EventsOf(first) + rest.events, n + rest.nextOffset)
  }

  /** One read of the file from `start`; a missing file or an offset past its end yields nothing. */
  function ReadAt(value: string -> Parsed, file: Option<string>, start: nat, maxEvents: Option<nat>): Tail {
    if file.None? || start > |file.value| then Tail([], start)
    else
      var tail := Read(value, file.value[start..], if maxEvents.Some? then maxEvents.value else 0);
      Tail(tail.events, start + tail.nextOffset)
  }

  /** The events of the lines before the first line that does not parse. */
  function EventsBeforeBadLine(value: string -> Parsed, text: string): seq<Event>
    decreases |text|
  {
    if text == [] || value(FirstLine(text)).Invalid? then []
    else EventsOf(value(FirstLine(text))) + EventsBeforeBadLine(value, OtherLines(text))
  }

  // ------------------------------------------------------------------ what a limited read returns

  /** The first `n` events, or all if there are fewer. */
  function FirstEvents(events: seq<Event>, n: nat): seq<Event> {
    if n < |events| then events[..n] else events
  }

  /** A line that ends at `offset` holds the event. */
  ghost predicate EndsLineOf(value: string -> Parsed, text: string, offset: nat, event: Event) {
    exists p: nat :: LineOf(value, text, p, offset, event)
  }

  ghost predicate LineOf(value: string -> Parsed, text: string, p: nat, offset: nat, event: Event) {
    && p < offset <= |text| && offset == p + LineLength(text[p..])
    && value(FirstLine(text[p..])) == Object(event)
  }

  /** The read stopped behind the line of its last event, as many as allowed; or it went on as far as lines parse. */
  ghost predicate StopsRightly(value: string -> Parsed, text: string, tail: Tail, limit: nat) {
    && tail.nextOffset <= |text|
    && if limit > 0 && |tail.events| == limit
       then EndsLineOf(value, text, tail.nextOffset, tail.events[limit - 1])
       else tail.nextOffset == |text| || value(FirstLine(text[tail.nextOffset..])).Invalid?
  }

  lemma {:induction false} LineOfRest(value: string -> Parsed, text: string, n: nat, offset: nat, event: Event)
    requires n <= |text| && EndsLineOf(value, text[n..], offset, event)
    ensures EndsLineOf(value, text, n + offset, event)
  {
    var p: nat :| LineOf(value, text[n..], p, offset, event);
    DropDrop(text, n, p);
    assert LineOf(value, text, n + p, n + offset, event);
  }

  lemma {:induction false} StopsAfterLine(value: string -> Parsed, text: string, first: seq<Event>, rest: Tail,
      left: nat)
    requires text != [] && |first| <= 1 && StopsRightly(value, OtherLines(text), rest, left)
    requires left > 0 || first == []
    ensures StopsRightly(value, text, Tail(first + rest.events, LineLength(text) + rest.nextOffset),
                         if left == 0 then 0 else left + |first|)
  {
    hide EndsLineOf;
    var n := LineLength(text);
    if left > 0 && |rest.events| == left {
      LineOfRest(value, text, n, rest.nextOffset, rest.events[left - 1]);
      assert (first + rest.events)[|first| + left - 1] == rest.events[left - 1];
    } else {
      DropDrop(text, n, rest.nextOffset);
    }
  }

  lemma {:induction false} StopsUnlimited(value: string -> Parsed, text: string, first: seq<Event>, rest: Tail)
    requires text != [] && StopsRightly(value, OtherLines(text), rest, 0)
    ensures StopsRightly(value, text, Tail(first + rest.events, LineLength(text) + rest.nextOffset), 0)
  {
    DropDrop(text, LineLength(text), rest.nextOffset);
  }

  lemma {:induction false} StopsAtFirstLine(value: string -> Parsed, text: string, event: Event)
    requires text != [] && value(FirstLine(text)) == Object(event)
    ensures StopsRightly(value, text, Tail([event], LineLength(text)), 1)
  {
    DropZero(text);
    assert LineOf(value, text, 0, LineLength(text), event);
  }

  /** A read returns the first events before the first bad line, as many as its limit allows, and stops rightly. */
  lemma {:induction false} ReadHonoursLimit(value: string -> Parsed, text: string, limit: nat)
    ensures var tail, all := Read(value, text, limit), EventsBeforeBadLine(value, text);
      tail.events == (if limit == 0 then all else FirstEvents(all, limit)) && StopsRightly(value, text, tail, limit)
    decreases |text|
  {
    hide StopsRightly, FirstLine, LineLength, OtherLines;
    if text == [] || value(FirstLine(text)).Invalid? {
      StopsAtOnce(value, text, limit);
    } else {
      var first, others := value(FirstLine(text)), OtherLines(text);
      var left := LimitAfter(first, limit);
      var all := EventsBeforeBadLine(value, others);
      ReadHonoursLimit(value, others, left);
      if first.Object? && limit == 1 {
        StopsAtFirstLine(value, text, first.event);
        assert FirstEvents([first.event] + all, 1) == [first.event];
      } else if limit == 0 {
        StopsUnlimited(value, text, EventsOf(first), Read(value, others, left));
      } else {
        StopsAfterLine(value, text, EventsOf(first), Read(value, others, left), left);
        assert FirstEvents(EventsOf(first) + all, limit) == EventsOf(first) + FirstEvents(all, left);
      }
    }
  }

  lemma {:induction false} StopsAtOnce(value: string -> Parsed, text: string, limit: nat)
    requires text == [] || value(FirstLine(text)).Invalid?
    ensures StopsRightly(value, text, Tail([], 0), limit)
  {
    DropZero(text);
  }

  function Left(limit: nat, count: nat): nat
    requires limit > 0 ==> count < limit
  {
    if limit == 0 then 0 else limit - count
  }

  /** What was read before `position` and what `rest` adds are the whole read. */
  ghost predicate Completes(rest: Tail, events: seq<Event>, position: nat, whole: Tail, start: nat) {
    events + rest.events == whole.events && position + rest.nextOffset == start + whole.nextOffset
  }

  lemma {:induction false} CompletesAfter(first: seq<Event>, length: nat, rest: Tail, events: seq<Event>,
      position: nat, whole: Tail, start: nat)
    requires Completes(Tail(first + rest.events, length + rest.nextOffset), events, position, whole, start)
    ensures Completes(rest, events + first, position + length, whole, start)
  {
    AppendAssoc(events, first, rest.events);
  }

  lemma {:induction false} LineReaderValue(parse: string -> Parsed, raw: string)
    ensures var line := LineReader(parse)(raw);
      if Trim(raw) == [] then line.NonObject? && EventsOf(line) == []
      else line == parse(Trim(raw)) && EventsOf(line) == if line.Object? then [line.event] else []
  {
  }

  lemma {:induction false} ReadNothing(value: string -> Parsed, limit: nat)
    ensures Read(value, [], limit) == Tail([], 0)
  {
  }

  lemma {:induction false} CompletesAtStart(whole: Tail, start: nat)
    ensures Completes(whole, [], start, whole, start)
  {
    AppendEmpty(whole.events);
  }

  lemma {:induction false} CompletesAtEnd(events: seq<Event>, position: nat, whole: Tail, start: nat)
    requires Completes(Tail([], 0), events, position, whole, start)
    ensures events == whole.events && position == start + whole.nextOffset
  {
    AppendEmpty(events);
  }

  /** One line: it ends the read, or what follows completes it. */
  lemma {:induction false} CompletesAfterLine(value: string -> Parsed, text: string, limit: nat,
    events: seq<Event>, position: nat, whole: Tail, start: nat)
    requires text != [] && (limit > 0 ==> |events| < limit)
    requires Completes(Read(value, text, Left(limit, |events|)), events, position, whole, start)
    ensures var line, n := value(FirstLine(text)), LineLength(text);
      var more := events + EventsOf(line);
      if line.Invalid? then Completes(Tail([], 0), events, position, whole, start)
      else if limit > 0 && |more| >= limit then Completes(Tail([], 0), more, position + n, whole, start)
      else Completes(Read(value, OtherLines(text), Left(limit, |more|)), more, position + n, whole, start)
  {
    hide Completes;
    var line, n := value(FirstLine(text)), LineLength(text);
    if line.Object? && Left(limit, |events|) == 1 {
      AppendEmpty([line.event]);
      CompletesAfter([line.event], n, Tail([], 0), events, position, whole, start);
    } else if !line.Invalid? {
      CompletesAfter(EventsOf(line), n, Read(value, OtherLines(text), LimitAfter(line, Left(limit, |events|))),
        events, position, whole, start);
    }
  }

  /** `read_new_session_events`. */
  method ReadNewSessionEvents(parse: string -> Parsed, file: Option<string>, start: nat, maxEvents: Option<nat>)
    returns (tail: Tail)
    ensures tail == ReadAt(LineReader(parse), file, start, maxEvents)
    ensures file.None? || start > |file.value| ==> tail == Tail([], start)
    ensures file.Some? && start <= |file.value| ==>
      var all := EventsBeforeBadLine(LineReader(parse), file.value[start..]);
      && (maxEvents == None || maxEvents == Some(0) ==> tail.events == all)
      && (maxEvents.Some? && maxEvents.value > 0 ==> tail.events == FirstEvents(all, maxEvents.value))
      && tail.nextOffset >= start
      && StopsRightly(LineReader(parse), file.value[start..], Tail(tail.events, tail.nextOffset - start),
                      if maxEvents.Some? then maxEvents.value else 0)
  {
    hide LineReader, LineValue, Trim, Read, Completes, EventsOf, StopsRightly, EventsBeforeBadLine, FirstEvents;
    if file.None? || start > |file.value| {
      return Tail([], start);
    }
    var limit := if maxEvents.Some? then maxEvents.value else 0;
    var position: nat, remaining := start, file.value[start..];
    var events: seq<Event> := [];
    ghost var value := LineReader(parse);
    ghost var whole := Read(value, remaining, limit);
    ReadHonoursLimit(value, remaining, limit);
    CompletesAtStart(whole, start);
    while remaining != []
      invariant limit > 0 ==> |events| < limit
      invariant Completes(Read(value, remaining, Left(limit, |events|)), events, position, whole, start)
      decreases |remaining|
    {
      LineReaderValue(parse, FirstLine(remaining));
      CompletesAfterLine(value, remaining, limit, events, position, whole, start);
      var line, next := FirstLine(remaining), position + LineLength(remaining);
      AppendEmpty(events);
      if Trim(line) != [] {
        var parsed := parse(Trim(line));
        if parsed.Invalid? {
          CompletesAtEnd(events, position, whole, start);
          return Tail(events, position);
        }
        if parsed.Object? {
          events := events + [parsed.event];
        }
        if limit > 0 && |events| >= limit {
          CompletesAtEnd(events, next, whole, start);
          return Tail(events, next);
        }
      }
      position, remaining := next, OtherLines(remaining);
    }
    ReadNothing(value, Left(limit, |events|));
    CompletesAtEnd(events, position, whole, start);
    return Tail(events, position);
  }

  // ------------------------------------------------------------------ schedules of appends and reads

  datatype Step = Append(text: string) | ReadEvents(maxEvents: Option<nat>)

  /** The file, the resume offset and everything read so far. */
  datatype State = State(file: Option<string>, offset: nat, collected: seq<Event>)

  function Contents(file: Option<string>): string {
    if file.None? then [] else file.value
  }

  function Next(value: string -> Parsed, s: State, step: Step): State {
    match step
    case Append(text) => s.(file := Some(Contents(s.file) + text))
    case ReadEvents(maxEvents) =>
      var tail := ReadAt(value, s.file, s.offset, maxEvents);
      State(s.file, tail.nextOffset, s.collected + tail.events)
  }

  function Run(value: string -> Parsed, s: State, steps: seq<Step>): State
    decreases |steps|
  {
    if steps == [] then s else Run(value, Next(value, s, steps[0]), steps[1..])
  }

  function Fresh(): State { State(None, 0, []) }

  /** The two halves of the line together hold exactly what the line holds. */
  ghost predicate SplitsAt(value: string -> Parsed, line: string, k: nat)
    requires k <= |line|
  {
    var part, more := value(line[..k]), value(line[k..]);
    value(line).Invalid? == more.Invalid? && EventsOf(value(line)) == EventsOf(part) + EventsOf(more)
  }

  /** Reading may stop after any prefix that reads as complete and resume there, again and again. */
  ghost predicate Resumable(value: string -> Parsed, line: string)
    decreases |line|
  {
    forall k: nat | 0 < k < |line| && !value(line[..k]).Invalid? :: SplitsAt(value, line, k)
      && Resumable(value, line[k..])
  }

  ghost predicate ResumableLines(value: string -> Parsed, text: string)
    decreases |text|
  {
    text != [] ==> Resumable(value, FirstLine(text)) && ResumableLines(value, OtherLines(text))
  }

  /** The first line ends at the first terminator, or with the text. */
  lemma {:induction false} LineLengthEnds(text: string)
    requires text != []
    ensures var n := LineLength(text);
      (text[n - 1] == '\n' || n == |text|) && forall i | 0 <= i < n - 1 :: text[i] != '\n'
  {
    if text[0] != '\n' && |text| > 1 {
      LineLengthEnds(text[1..]);
      assert forall i | 0 < i < |text| :: text[i] == text[1..][i - 1];
    }
  }

  lemma {:induction false} LineLengthIs(text: string, n: nat)
    requires 1 <= n <= |text| && (text[n - 1] == '\n' || n == |text|)
    requires forall i | 0 <= i < n - 1 :: text[i] != '\n'
    ensures LineLength(text) == n
  {
    if n > 1 {
      LineLengthIs(text[1..], n - 1);
    }
  }

  /** A terminated first line is the same line of every longer file. */
  lemma {:induction false} TerminatedLine(part: string, full: string)
    requires part != [] && part <= full
    requires part[LineLength(part) - 1] == '\n' || part == full
    ensures LineLength(full) == LineLength(part) && FirstLine(full) == FirstLine(part)
    ensures OtherLines(part) <= OtherLines(full)
  {
    var n := LineLength(part);
    LineLengthEnds(part);
    LineLengthIs(full, n);
    assert full[..n] == part[..n];
  }

  /** An unterminated line of a prefix `part`, seen in the full file: its line continues in what follows. */
  lemma {:induction false} OpenLine(part: string, full: string)
    requires part != [] && part < full && LineLength(part) == |part| && part[|part| - 1] != '\n'
    ensures var rest := full[|part|..];
      && |FirstLine(full)| == |part| + |FirstLine(rest)|
      && FirstLine(full)[..|part|] == part && FirstLine(full)[|part|..] == FirstLine(rest)
      && OtherLines(full) == OtherLines(rest)
  {
    var rest := full[|part|..];
    var m := LineLength(rest);
    LineLengthEnds(part);
    LineLengthEnds(rest);
    forall i | 0 <= i < |part| + m - 1 ensures full[i] != '\n' {
      if i >= |part| { assert full[i] == rest[i - |part|]; }
    }
    LineLengthIs(full, |part| + m);
    DropDrop(full, |part|, m);
    assert full[..|part| + m] == part + rest[..m];
  }

  /** Consuming an open line loses nothing of what the rest of the file will add to it. */
  lemma {:induction false} OpenLineConsumed(value: string -> Parsed, part: string, full: string)
    requires part != [] && part < full && LineLength(part) == |part| && part[|part| - 1] != '\n'
    requires ResumableLines(value, full) && !value(part).Invalid?
    ensures ResumableLines(value, full[|part|..])
    ensures EventsBeforeBadLine(value, full) == EventsOf(value(part)) + EventsBeforeBadLine(value, full[|part|..])
  {
    var rest, line := full[|part|..], FirstLine(full);
    OpenLine(part, full);
    assert SplitsAt(value, line, |part|) && Resumable(value, line[|part|..]);
    AppendEmpty(EventsOf(value(part)));
    AppendAssoc(EventsOf(value(part)), EventsOf(value(FirstLine(rest))), EventsBeforeBadLine(value, OtherLines(rest)));
  }

  /** The same for every line the reader can consume, terminated or not. */
  lemma {:induction false} LineConsumed(value: string -> Parsed, part: string, full: string)
    requires part != [] && part <= full && ResumableLines(value, full) && !value(FirstLine(part)).Invalid?
    ensures OtherLines(part) <= full[LineLength(part)..] && ResumableLines(value, full[LineLength(part)..])
    ensures EventsBeforeBadLine(value, full) ==
            EventsOf(value(FirstLine(part))) + EventsBeforeBadLine(value, full[LineLength(part)..])
  {
    LineLengthEnds(part);
    if part[LineLength(part) - 1] == '\n' || part == full {
      TerminatedLine(part, full);
    } else {
      DropZero(part);
      OpenLineConsumed(value, part, full);
    }
  }

  /** What a read owes to the whole text: its events, and everything after its offset. */
  ghost predicate Faithful(value: string -> Parsed, full: string, tail: Tail)
    requires tail.nextOffset <= |full|
  {
    && ResumableLines(value, full[tail.nextOffset..])
    && EventsBeforeBadLine(value, full) == tail.events + EventsBeforeBadLine(value, full[tail.nextOffset..])
  }

  lemma {:induction false} FaithfulStart(value: string -> Parsed, full: string)
    requires ResumableLines(value, full)
    ensures Faithful(value, full, Tail([], 0))
  {
    DropZero(full);
    AppendEmpty(EventsBeforeBadLine(value, full));
  }

  /** A faithful read of the text after a line, put behind the line's own event. */
  lemma {:induction false} FaithfulAfter(value: string -> Parsed, full: string, n: nat, first: seq<Event>, rest: Tail)
    requires n <= |full| && rest.nextOffset <= |full| - n && Faithful(value, full[n..], rest)
    requires EventsBeforeBadLine(value, full) == first + EventsBeforeBadLine(value, full[n..])
    ensures Faithful(value, full, Tail(first + rest.events, n + rest.nextOffset))
  {
    DropDrop(full, n, rest.nextOffset);
    AppendAssoc(first, rest.events, EventsBeforeBadLine(value, full[n + rest.nextOffset..]));
  }

  /**
   One read of any prefix of a file, with any limit, hands over exactly the
   events missing from what is still to be read of the whole file.
   */
  lemma {:induction false} ReadLosesNothing(value: string -> Parsed, part: string, full: string, limit: nat)
    requires part <= full && ResumableLines(value, full)
    ensures Faithful(value, full, Read(value, part, limit))
    decreases |part|
  {
    hide Faithful, ResumableLines, EventsBeforeBadLine, FirstLine, OtherLines, LineLength;
    if part == [] || value(FirstLine(part)).Invalid? {
      FaithfulStart(value, full);
    } else {
      var n, first, others := LineLength(part), value(FirstLine(part)), OtherLines(part);
      var after := full[n..];
      LineConsumed(value, part, full);
      if first.Object? && limit == 1 {
        FaithfulStart(value, after);
        FaithfulAfter(value, full, n, [first.event], Tail([], 0));
        AppendEmpty([first.event]);
      } else {
        var rest := Read(value, others, LimitAfter(first, limit));
        ReadLosesNothing(value, others, after, LimitAfter(first, limit));
        FaithfulAfter(value, full, n, EventsOf(first), rest);
      }
    }
  }

  /** An unlimited read of the whole text leaves nothing that can still be read. */
  lemma {:induction false} UnlimitedReadIsComplete(value: string -> Parsed, text: string)
    ensures Read(value, text, 0).events == EventsBeforeBadLine(value, text)
    decreases |text|
  {
    if text == [] {
    } else {
      UnlimitedReadIsComplete(value, OtherLines(text));
    }
  }

  /** The invariant of every schedule, relative to the file it will end with. */
  ghost predicate OnTrack(value: string -> Parsed, s: State, final: string) {
    && Contents(s.file) <= final
    && s.offset <= |Contents(s.file)|
    && Faithful(value, final, Tail(s.collected, s.offset))
  }

  lemma {:induction false} FileOnlyGrows(value: string -> Parsed, s: State, steps: seq<Step>)
    ensures Contents(s.file) <= Contents(Run(value, s, steps).file)
    decreases |steps|
  {
    if steps == [] {
    } else {
      FileOnlyGrows(value, Next(value, s, steps[0]), steps[1..]);
    }
  }

  lemma {:induction false} ReadOnTrack(value: string -> Parsed, s: State, limit: nat, final: string)
    requires s.file.Some? && OnTrack(value, s, final)
    ensures var tail := Read(value, s.file.value[s.offset..], limit);
      OnTrack(value, State(s.file, s.offset + tail.nextOffset, s.collected + tail.events), final)
  {
    hide ResumableLines, EventsBeforeBadLine;
    var part, full := s.file.value[s.offset..], final[s.offset..];
    DropPrefix(s.file.value, final, s.offset);
    ReadLosesNothing(value, part, full, limit);
    FaithfulAfter(value, final, s.offset, s.collected, Read(value, part, limit));
  }

  lemma {:induction false} NextOnTrack(value: string -> Parsed, s: State, step: Step, final: string)
    requires OnTrack(value, s, final) && Contents(Next(value, s, step).file) <= final
    ensures OnTrack(value, Next(value, s, step), final)
  {
    hide Faithful, Read;
    if step.ReadEvents? {
      if s.file.Some? {
        ReadOnTrack(value, s, if step.maxEvents.Some? then step.maxEvents.value else 0, final);
      } else {
        AppendEmpty(s.collected);
      }
    }
  }

  lemma {:induction false} RunOnTrack(value: string -> Parsed, s: State, steps: seq<Step>, final: string)
    requires OnTrack(value, s, final) && Contents(Run(value, s, steps).file) == final
    ensures OnTrack(value, Run(value, s, steps), final)
    decreases |steps|
  {
    if steps == [] {
    } else {
      var next := Next(value, s, steps[0]);
      FileOnlyGrows(value, next, steps[1..]);
      NextOnTrack(value, s, steps[0], final);
      RunOnTrack(value, next, steps[1..], final);
    }
  }

  /** Resume offsets never move backwards, over any stretch of any schedule. */
  lemma {:induction false} OffsetsNeverDecrease(value: string -> Parsed, s: State, steps: seq<Step>)
    ensures s.offset <= Run(value, s, steps).offset
    decreases |steps|
  {
    if steps == [] {
    } else {
      OffsetsNeverDecrease(value, Next(value, s, steps[0]), steps[1..]);
    }
  }

  // ------------------------------------------------------------------ lines that are JSON texts

  /** No proper, non-empty prefix of the line is itself a JSON text (as for the objects of section 4 of RFC 8259). */
  ghost predicate SelfDelimiting(parse: string -> Parsed, line: string) {
    forall k: nat | 0 < k < |line| :: RejectsPrefix(parse, line, k)
  }

  ghost predicate RejectsPrefix(parse: string -> Parsed, line: string, k: nat)
    requires k <= |line|
  {
    parse(Trim(line[..k])).Invalid?
  }

  ghost predicate SelfDelimitingLines(parse: string -> Parsed, text: string)
    decreases |text|
  {
    text != [] ==> SelfDelimiting(parse, Trim(FirstLine(text))) && SelfDelimitingLines(parse, OtherLines(text))
  }

  /** The first half of a self-delimiting line is blank, a broken JSON text, or all of the line's text. */
  lemma {:induction false} SelfDelimitingSplit(parse: string -> Parsed, part: string, more: string)
    requires SelfDelimiting(parse, Trim(part + more))
    ensures Trim(part) == [] ==> Trim(part + more) == Trim(more)
    ensures Trim(part) != [] && !parse(Trim(part)).Invalid? ==> Trim(part + more) == Trim(part) && Trim(more) == []
  {
    TrimBlank(part);
    if Blank(part) {
      TrimStartBlankHead(part, more);
    } else {
      TrimExtend(part, more);
      TrimBlank(more);
      var line, half := Trim(part + more), Trim(part);
      var head, tail := TrimParts(part);
      TrimTight(half);
      assert line[..|half|] == half;
      assert |half| < |line| ==> RejectsPrefix(parse, line, |half|);
    }
  }

  lemma {:induction false} SelfDelimitingResumable(parse: string -> Parsed, line: string)
    requires SelfDelimiting(parse, Trim(line))
    ensures Resumable(LineReader(parse), line)
    decreases |line|
  {
    hide Trim, RejectsPrefix;
    var value := LineReader(parse);
    forall k: nat | 0 < k < |line| && !value(line[..k]).Invalid?
      ensures SplitsAt(value, line, k) && Resumable(value, line[k..])
    {
      TakeDrop(line, k);
      SelfDelimitingSplit(parse, line[..k], line[k..]);
      AppendEmpty(EventsOf(LineValue(parse, line)));
      SelfDelimitingResumable(parse, line[k..]);
    }
  }

  lemma {:induction false} SelfDelimitingLinesResumable(parse: string -> Parsed, text: string)
    requires SelfDelimitingLines(parse, text)
    ensures ResumableLines(LineReader(parse), text)
    decreases |text|
  {
    if text == [] {
    } else {
      SelfDelimitingResumable(parse, FirstLine(text));
      SelfDelimitingLinesResumable(parse, OtherLines(text));
    }
  }

  /**
   Schedule independence: after any schedule of appends (even inside a line) and
   reads with any limits, one unlimited read completes the collection to the
   events before the first line that does not parse, whatever the schedule was.
   */
  lemma {:induction false} AnyScheduleReadsEverything(parse: string -> Parsed, steps: seq<Step>, unlimited: Option<nat>)
    requires unlimited.None? || unlimited.value == 0
    requires SelfDelimitingLines(parse, Contents(Run(LineReader(parse), Fresh(), steps).file))
    ensures var value := LineReader(parse);
      var s := Run(value, Fresh(), steps);
      && s.collected <= EventsBeforeBadLine(value, Contents(s.file))
      && Next(value, s, ReadEvents(unlimited)).collected == EventsBeforeBadLine(value, Contents(s.file))
  {
    var value := LineReader(parse);
    var s := Run(value, Fresh(), steps);
    SelfDelimitingLinesResumable(parse, Contents(s.file));
    ScheduleCompletes(value, steps, unlimited);
  }

  lemma {:induction false} ScheduleCompletes(value: string -> Parsed, steps: seq<Step>, unlimited: Option<nat>)
    requires unlimited.None? || unlimited.value == 0
    requires ResumableLines(value, Contents(Run(value, Fresh(), steps).file))
    ensures var s := Run(value, Fresh(), steps);
      && s.collected <= EventsBeforeBadLine(value, Contents(s.file))
      && Next(value, s, ReadEvents(unlimited)).collected == EventsBeforeBadLine(value, Contents(s.file))
  {
    var s := Run(value, Fresh(), steps);
    var final := Contents(s.file);
    FaithfulStart(value, final);
    RunOnTrack(value, Fresh(), steps, final);
    UnlimitedReadIsComplete(value, final[s.offset..]);
    AppendEmpty(s.collected);
  }

  // ------------------------------------------------------------------ agreement with the one-shot reader

  ghost predicate NoObjectLine(value: string -> Parsed, text: string)
    decreases |text|
  {
    text != [] ==> !value(FirstLine(text)).Object? && NoObjectLine(value, OtherLines(text))
  }

  /** No object line follows a line that does not parse. */
  ghost predicate BadLinesComeLast(value: string -> Parsed, text: string)
    decreases |text|
  {
    text != [] ==>
      if value(FirstLine(text)).Invalid? then NoObjectLine(value, OtherLines(text))
      else BadLinesComeLast(value, OtherLines(text))
  }

  lemma {:induction false} NoObjectLineNoEvent(value: string -> Parsed, text: string)
    ensures NoObjectLine(value, text) <==> AllEvents(value, text) == []
    decreases |text|
  {
    if text == [] {
    } else {
      NoObjectLineNoEvent(value, OtherLines(text));
    }
  }

  lemma {:induction false} CancelFront<T>(a: seq<T>, b: seq<T>, c: seq<T>)
    ensures a + b == a + c <==> b == c
  {
    assert (a + b)[|a|..] == b && (a + c)[|a|..] == c;
  }

  lemma {:induction false} ReadersAgreeExactly(value: string -> Parsed, text: string)
    ensures EventsBeforeBadLine(value, text) == AllEvents(value, text) <==> BadLinesComeLast(value, text)
    decreases |text|
  {
    if text == [] {
    } else {
      var first, others := value(FirstLine(text)), OtherLines(text);
      if first.Invalid? {
        NoObjectLineNoEvent(value, others);
        AppendEmpty(AllEvents(value, others));
      } else {
        ReadersAgreeExactly(value, others);
        CancelFront(EventsOf(first), EventsBeforeBadLine(value, others), AllEvents(value, others));
      }
    }
  }

  /** The tail reader ends with what the one-shot reader returns exactly when no object line follows a bad one. */
  lemma {:induction false} TailAgreesWithIter(parse: string -> Parsed, steps: seq<Step>)
    requires SelfDelimitingLines(parse, Contents(Run(LineReader(parse), Fresh(), steps).file))
    ensures var value := LineReader(parse);
      var s := Run(value, Fresh(), steps);
      Next(value, s, ReadEvents(None)).collected == AllEvents(value, Contents(s.file))
      <==> BadLinesComeLast(value, Contents(s.file))
  {
    AnyScheduleReadsEverything(parse, steps, None);
    ReadersAgreeExactly(LineReader(parse), Contents(Run(LineReader(parse), Fresh(), steps).file));
  }

  // ------------------------------------------------------------------ a file on which the readers disagree

  /** A parser that knows one JSON text, the empty object. */
  function OnlyEmptyObject(text: string): Parsed {
    if text == "{}" then Object([]) else Invalid
  }

  lemma {:induction false} BrokenFileLines()
    ensures FirstLine("x\n{}\n") == "x\n" && OtherLines("x\n{}\n") == "{}\n"
    ensures FirstLine("{}\n") == "{}\n" && OtherLines("{}\n") == ""
  {
    LineLengthIs("x\n{}\n", 2);
    LineLengthIs("{}\n", 3);
    DropZero("{}\n");
  }

  lemma {:induction false} BrokenFileTexts()
    ensures Trim("x\n") == "x" && Trim("{}\n") == "{}"
  {
    TrimUnique("", "x", "\n");
    TrimUnique("", "{}", "\n");
    assert "" + "x" + "\n" == "x\n" && "" + "{}" + "\n" == "{}\n";
  }

  lemma {:induction false} EmptyObjectSelfDelimiting()
    ensures SelfDelimiting(OnlyEmptyObject, "x") && SelfDelimiting(OnlyEmptyObject, "{}")
  {
    forall k: nat | 0 < k < 2 ensures RejectsPrefix(OnlyEmptyObject, "{}", k) {
      assert |Trim("{}"[..k])| < 2;
    }
  }

  /** A line that does not parse, then an object: the one-shot reader finds the object, the tail reader never does. */
  lemma {:induction false} BrokenFileDivides()
    ensures var file, value := "x\n{}\n", LineReader(OnlyEmptyObject);
      && SelfDelimitingLines(OnlyEmptyObject, file) && !BadLinesComeLast(value, file)
      && AllEvents(value, file) == [[]] && EventsBeforeBadLine(value, file) == []
  {
    hide Trim, FirstLine, OtherLines, SelfDelimiting;
    var value := LineReader(OnlyEmptyObject);
    BrokenFileLines();
    BrokenFileTexts();
    EmptyObjectSelfDelimiting();
    assert value("x\n") == Invalid && value("{}\n") == Object([]);
    assert SelfDelimitingLines(OnlyEmptyObject, "{}\n");
    assert AllEvents(value, "{}\n") == EventsOf(value("{}\n")) + AllEvents(value, "") == [[]];
    assert AllEvents(value, "x\n{}\n") == EventsOf(value("x\n")) + AllEvents(value, "{}\n");
    assert !NoObjectLine(value, "{}\n");
  }

  lemma {:induction false} ReadersCanDisagree()
    ensures var value := LineReader(OnlyEmptyObject);
      var s := Run(value, Fresh(), [Append("x\n{}\n")]);
      && SelfDelimitingLines(OnlyEmptyObject, Contents(s.file))
      && Next(value, s, ReadEvents(None)).collected == [] && AllEvents(value, Contents(s.file)) == [[]]
  {
    hide SelfDelimitingLines, AllEvents, Next;
    var file, value := "x\n{}\n", LineReader(OnlyEmptyObject);
    BrokenFileDivides();
    AppendedFile(value, file);
    AnyScheduleReadsEverything(OnlyEmptyObject, [Append(file)], None);
  }

  lemma {:induction false} AppendedFile(value: string -> Parsed, text: string)
    ensures Run(value, Fresh(), [Append(text)]) == State(Some(text), 0, [])
  {
    var start := Fresh();
    AppendEmpty(text);
    assert [Append(text)][1..] == [];
    assert Run(value, start, [Append(text)]) == Run(value, Next(value, start, Append(text)), []);
  }
}
