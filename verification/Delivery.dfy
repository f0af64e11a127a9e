/**
 Sending chunks with retries (crates/cdr-discord/src/delivery.rs). The k-th call
 of the sender, counted over the whole delivery, answers `send(k)`: nothing on
 success, an error otherwise.
 */
module Delivery {
  import opened Options
  import opened Sequences
  import opened Text
  import opened MessageText

  datatype Failure<+E> = Failure(part: nat, totalParts: nat, attempts: nat, source: E)

  datatype Attempt = Attempt(chunk: nat, ok: bool)

  /** The attempts made from chunk `i` on, when `tried` attempts at it and `k` calls in all have been made. */
  function Trace<E>(total: nat, retries: nat, send: nat -> Option<E>, i: nat, tried: nat, k: nat): seq<Attempt>
    requires i <= total && tried <= retries
    decreases total - i, retries - tried
  {
    if i == total then []
    else if send(k).None? then [Attempt(i, true)] + Trace(total, retries, send, i + 1, 0, k + 1)
    else if tried == retries then [Attempt(i, false)]
    else [Attempt(i, false)] + Trace(total, retries, send, i, tried + 1, k + 1)
  }

  lemma {:induction false} TraceEnds<E>(total: nat, retries: nat, send: nat -> Option<E>, k: nat)
    ensures Trace(total, retries, send, total, 0, k) == []
  {
  }

  /** Up to `retries + 1` attempts at one chunk. */
  method DeliverOne<E>(total: nat, retries: nat, send: nat -> Option<E>, index: nat, before: seq<Attempt>)
    returns (error: Option<E>, attempts: seq<Attempt>)
    requires index < total
    ensures attempts != []
    ensures error.None? ==>
      && attempts[|attempts| - 1].ok
      && attempts + Trace(total, retries, send, index + 1, 0, |attempts|) ==
         before + Trace(total, retries, send, index, 0, |before|)
    ensures error.Some? ==>
      && attempts[|attempts| - 1] == Attempt(index, false) && send(|attempts| - 1) == error
      && attempts == before + Trace(total, retries, send, index, 0, |before|)
  {
    attempts := before;
    var attempt := 0;
    ghost var whole := before + Trace(total, retries, send, index, 0, |before|);
    while true
      invariant attempt <= retries
      invariant attempts + Trace(total, retries, send, index, attempt, |attempts|) == whole
      decreases retries - attempt
    {
      var answer := send(|attempts|);
      ghost var rest := Trace(total, retries, send, index, attempt, |attempts|)[1..];
      AppendAssoc(attempts, [Attempt(index, answer.None?)], rest);
      attempts := attempts + [Attempt(index, answer.None?)];
      if answer.None? {
        return None, attempts;
      }
      if attempt == retries {
        assert attempts + [] == attempts;
        return answer, attempts;
      }
      attempt := attempt + 1;
    }
  }

  /** `deliver_chunks_indexed`, with the list of attempts it made; `retries` is the number of retry delays. */
  method DeliverChunks<E>(total: nat, retries: nat, send: nat -> Option<E>)
    returns (result: Result<nat, Failure<E>>, attempts: seq<Attempt>)
    ensures attempts == Trace(total, retries, send, 0, 0, 0)
    ensures result.Ok? <==> attempts == [] || attempts[|attempts| - 1].ok
    ensures result.Ok? ==> result.value == total
    ensures result.Err? ==>
      && result.error.part == attempts[|attempts| - 1].chunk + 1
      && result.error.totalParts == total
      && result.error.attempts == retries + 1
      && send(|attempts| - 1) == Some(result.error.source)
  {
    hide Trace;
    attempts := [];
    AppendEmpty(Trace(total, retries, send, 0, 0, 0));
    for index := 0 to total
      invariant attempts + Trace(total, retries, send, index, 0, |attempts|) == Trace(total, retries, send, 0, 0, 0)
      invariant attempts == [] || attempts[|attempts| - 1].ok
    {
      var error: Option<E>;
      error, attempts := DeliverOne(total, retries, send, index, attempts);
      if error.Some? {
        return Err(Failure(index + 1, total, retries + 1, error.value)), attempts;
      }
    }
    TraceEnds(total, retries, send, |attempts|);
    AppendEmpty(attempts);
    return Ok(total), attempts;
  }

  // ------------------------------------------------------------------ what was delivered

  /** The chunks whose sending succeeded, in order. */
  function Sent(attempts: seq<Attempt>): seq<nat> {
    if attempts == [] then [] else (if attempts[0].ok then [attempts[0].chunk] else []) + Sent(attempts[1..])
  }

  function Count(attempts: seq<Attempt>, chunk: nat): nat {
    if attempts == [] then 0 else (if attempts[0].chunk == chunk then 1 else 0) + Count(attempts[1..], chunk)
  }

  function Range(from: nat, to: nat): seq<nat>
    requires from <= to
  {
    seq(to - from, i requires 0 <= i < to - from => from + i)
  }

  predicate Failed(attempts: seq<Attempt>) {
    attempts != [] && !attempts[|attempts| - 1].ok
  }

  /** Attempts go from chunk to chunk in order, each chunk's success ends its attempts. */
  ghost predicate Orderly(attempts: seq<Attempt>, from: nat) {
    && (forall a | 0 <= a < |attempts| :: attempts[a].chunk >= from)
    && (forall a, b | 0 <= a < b < |attempts| ::
          attempts[a].chunk <= attempts[b].chunk && (attempts[a].ok ==> attempts[a].chunk < attempts[b].chunk))
  }

  lemma {:induction false} OrderlyCons(head: Attempt, rest: seq<Attempt>)
    requires Orderly(rest, if head.ok then head.chunk + 1 else head.chunk)
    ensures Orderly([head] + rest, head.chunk)
  {
  }

  /** A trace taken apart: its first attempt and the rest. */
  lemma {:induction false} TraceHead<E>(total: nat, retries: nat, send: nat -> Option<E>, i: nat, tried: nat,
      k: nat) returns (rest: seq<Attempt>)
    requires i < total && tried <= retries
    ensures rest == if send(k).None? then Trace(total, retries, send, i + 1, 0, k + 1)
                    else if tried == retries then [] else Trace(total, retries, send, i, tried + 1, k + 1)
    ensures var t := Trace(total, retries, send, i, tried, k);
      && t == [Attempt(i, send(k).None?)] + rest && t[1..] == rest
      && (rest != [] ==> (Failed(t) <==> Failed(rest)) && t[|t| - 1] == rest[|rest| - 1])
  {
    var t := Trace(total, retries, send, i, tried, k);
    rest := t[1..];
  }

  lemma {:induction false} TraceOrderly<E>(total: nat, retries: nat, send: nat -> Option<E>, i: nat, tried: nat, k: nat)
    requires i <= total && tried <= retries
    ensures Orderly(Trace(total, retries, send, i, tried, k), i)
    decreases total - i, retries - tried
  {
    hide Orderly, Failed;
    if i == total {
      OrderlyNone(i);
    } else {
      var rest := TraceHead(total, retries, send, i, tried, k);
      OrderlyNone(i);
      if send(k).None? {
        TraceOrderly(total, retries, send, i + 1, 0, k + 1);
      } else if tried < retries {
        TraceOrderly(total, retries, send, i, tried + 1, k + 1);
      }
      OrderlyCons(Attempt(i, send(k).None?), rest);
    }
  }

  lemma {:induction false} OrderlyNone(from: nat)
    ensures Orderly([], from)
  {
  }

  lemma {:induction false} RangeCons(from: nat, to: nat)
    requires from < to
    ensures Range(from, to) == [from] + Range(from + 1, to)
  {
  }

  /** From chunk `from` on, every chunk succeeded once and in order, up to the last chunk or to the one that failed. */
  ghost predicate SentInOrder(attempts: seq<Attempt>, from: nat, total: nat) {
    var next := from + |Sent(attempts)|;
    && next <= total && Sent(attempts) == Range(from, next)
    && (!Failed(attempts) ==> next == total)
    && (Failed(attempts) ==> next < total && attempts[|attempts| - 1].chunk == next)
  }

  lemma {:induction false} NothingSent(total: nat)
    ensures SentInOrder([], total, total)
  {
  }

  lemma {:induction false} SentAfterSuccess(from: nat, rest: seq<Attempt>, total: nat)
    requires SentInOrder(rest, from + 1, total)
    ensures SentInOrder([Attempt(from, true)] + rest, from, total)
  {
    var attempts := [Attempt(from, true)] + rest;
    assert attempts[1..] == rest && Sent(attempts) == [from] + Sent(rest);
    RangeCons(from, from + 1 + |Sent(rest)|);
  }

  lemma {:induction false} SentAfterFailure(from: nat, rest: seq<Attempt>, total: nat)
    requires from < total && (rest == [] || SentInOrder(rest, from, total))
    requires rest == [] || rest[0].chunk == from
    ensures SentInOrder([Attempt(from, false)] + rest, from, total)
  {
    var attempts := [Attempt(from, false)] + rest;
    assert attempts[1..] == rest;
    AppendEmpty(Sent(rest));
  }

  lemma {:induction false} TraceSent<E>(total: nat, retries: nat, send: nat -> Option<E>, i: nat, tried: nat, k: nat)
    requires i <= total && tried <= retries
    ensures SentInOrder(Trace(total, retries, send, i, tried, k), i, total)
    decreases total - i, retries - tried
  {
    hide SentInOrder;
    NothingSent(total);
    if i == total {
    } else {
      var rest := TraceHead(total, retries, send, i, tried, k);
      if send(k).None? {
        TraceSent(total, retries, send, i + 1, 0, k + 1);
        SentAfterSuccess(i, rest, total);
      } else {
        if tried < retries {
          TraceSent(total, retries, send, i, tried + 1, k + 1);
        }
        SentAfterFailure(i, rest, total);
      }
    }
  }

  /** The chunk that failed was attempted once and then once per retry. */
  lemma {:induction false} TraceFailures<E>(total: nat, retries: nat, send: nat -> Option<E>, i: nat, tried: nat,
      k: nat)
    requires i <= total && tried <= retries && Failed(Trace(total, retries, send, i, tried, k))
    ensures var t := Trace(total, retries, send, i, tried, k);
      Count(t, t[|t| - 1].chunk) == retries + 1 - if t[|t| - 1].chunk == i then tried else 0
    decreases total - i, retries - tried
  {
    if i == total {
    } else {
      var rest := TraceHead(total, retries, send, i, tried, k);
      if send(k).None? {
        TraceFailures(total, retries, send, i + 1, 0, k + 1);
        TraceOrderly(total, retries, send, i + 1, 0, k + 1);
        assert rest[|rest| - 1].chunk >= i + 1;
      } else if tried < retries {
        TraceFailures(total, retries, send, i, tried + 1, k + 1);
      } else {
        assert rest == [];
      }
    }
  }

  predicate InRange(chunks: seq<string>, attempts: seq<Attempt>) {
    forall a | 0 <= a < |attempts| :: attempts[a].chunk < |chunks|
  }

  /** The messages that reached the channel, in the order of the attempts. */
  function Messages(chunks: seq<string>, attempts: seq<Attempt>): seq<string>
    requires InRange(chunks, attempts)
  {
    if attempts == [] then []
    else (if attempts[0].ok then [chunks[attempts[0].chunk]] else []) + Messages(chunks, attempts[1..])
  }

  /** The text that reached the channel. */
  function Delivered(chunks: seq<string>, attempts: seq<Attempt>): string
    requires InRange(chunks, attempts)
  {
    Concat(Messages(chunks, attempts))
  }

  /** If the successes are consecutive chunks, they are the messages. */
  lemma {:induction false} MessagesAreRange(chunks: seq<string>, attempts: seq<Attempt>, from: nat, to: nat)
    requires InRange(chunks, attempts)
    requires from <= to <= |chunks| && Sent(attempts) == Range(from, to)
    ensures Messages(chunks, attempts) == chunks[from..to]
    decreases |attempts|
  {
    if attempts == [] {
    } else {
      var rest := attempts[1..];
      if attempts[0].ok {
        SentHead(attempts, from, to);
        MessagesAreRange(chunks, rest, from + 1, to);
        Cons(chunks[from..to]);
        assert chunks[from..to][1..] == chunks[from + 1..to];
      } else {
        AppendEmpty(Sent(rest));
        MessagesAreRange(chunks, rest, from, to);
        AppendEmpty(chunks[from..to]);
      }
    }
  }

  lemma {:induction false} SentHead(attempts: seq<Attempt>, from: nat, to: nat)
    requires attempts != [] && attempts[0].ok && from <= to && Sent(attempts) == Range(from, to)
    ensures from < to && attempts[0].chunk == from && Sent(attempts[1..]) == Range(from + 1, to)
  {
    var sent := Sent(attempts);
    assert sent[0] == attempts[0].chunk;
    assert Sent(attempts[1..]) == sent[1..];
    RangeCons(from, to);
  }

  /** Only chunks of the delivery are attempted. */
  lemma {:induction false} TraceInRange<E>(total: nat, retries: nat, send: nat -> Option<E>, i: nat, tried: nat, k: nat)
    requires i <= total && tried <= retries
    ensures var t := Trace(total, retries, send, i, tried, k); forall a | 0 <= a < |t| :: t[a].chunk < total
    decreases total - i, retries - tried
  {
    if i == total {
    } else {
      var rest := TraceHead(total, retries, send, i, tried, k);
      if send(k).None? {
        TraceInRange(total, retries, send, i + 1, 0, k + 1);
      } else if tried < retries {
        TraceInRange(total, retries, send, i, tried + 1, k + 1);
      }
    }
  }

  lemma {:induction false} ConcatPrefix(chunks: seq<string>, n: nat)
    requires n <= |chunks|
    ensures Concat(chunks[..n]) <= Concat(chunks)
  {
    ConcatAppend(chunks[..n], chunks[n..]);
    assert chunks == chunks[..n] + chunks[n..];
  }

  /**
   What a delivery amounts to: exactly the first `n` chunks were sent, each once
   and in order; either these are all, or chunk `n` failed on the first attempt
   and on every retry.
   */
  ghost predicate SentFirst(chunks: seq<string>, attempts: seq<Attempt>, retries: nat, n: nat) {
    && InRange(chunks, attempts) && n <= |chunks|
    && Sent(attempts) == Range(0, n) && Messages(chunks, attempts) == chunks[..n]
    && (Failed(attempts) <==> n < |chunks|)
    && (Failed(attempts) ==> attempts[|attempts| - 1].chunk == n && Count(attempts, n) == retries + 1)
  }

  /** Every delivery sends the first chunks, whatever fails. */
  lemma {:induction false} DeliverySendsFirst<E>(chunks: seq<string>, retries: nat, send: nat -> Option<E>)
    returns (n: nat)
    ensures SentFirst(chunks, Trace(|chunks|, retries, send, 0, 0, 0), retries, n)
  {
    hide Trace, Range, Sent, Count, Messages;
    var attempts := Trace(|chunks|, retries, send, 0, 0, 0);
    TraceSent(|chunks|, retries, send, 0, 0, 0);
    TraceInRange(|chunks|, retries, send, 0, 0, 0);
    if Failed(attempts) {
      TraceFailures(|chunks|, retries, send, 0, 0, 0);
    }
    n := |Sent(attempts)|;
    MessagesAreRange(chunks, attempts, 0, n);
    assert chunks[0..n] == chunks[..n];
  }

  /**
   Delivery of a saved text without markers keeps a prefix: whatever fails, the
   chunks that were sent are the first ones and concatenate to a prefix of the
   text; success means the whole text, and failure at part p means exactly p - 1
   chunks were sent and part p failed on the first attempt and on every retry.
   */
  lemma {:induction false} DeliveryKeepsAPrefix<E>(text: string, retries: nat, send: nat -> Option<E>) returns (n: nat)
    requires text != []
    ensures var chunks := ExactDeliveryChunks(text, false);
      var attempts := Trace(|chunks|, retries, send, 0, 0, 0);
      && SentFirst(chunks, attempts, retries, n)
      && Delivered(chunks, attempts) <= text
      && (!Failed(attempts) ==> Delivered(chunks, attempts) == text)
  {
    hide Trace, Range, Sent, Count, Concat, Pieces, Messages;
    var chunks := ExactDeliveryChunks(text, false);
    PiecesAreExact(text, ExactLimit(false));
    n := DeliverySendsFirst(chunks, retries, send);
    ConcatPrefix(chunks, n);
    DropZero(chunks);
  }

  // ------------------------------------------------------------------ deliveries with markers

  /** The messages without their marker lines; a lone message has none. */
  function Unmarked(messages: seq<string>, markers: bool, total: nat): seq<string> {
    if markers && total > 1 then seq(|messages|, i requires 0 <= i < |messages| => AfterFirstLine(messages[i]))
    else messages
  }

  /** The chunks that a splitter hands to the delivery: marked if asked for and several. */
  function MarkIf(chunks: seq<string>, markers: bool): seq<string> {
    if markers && |chunks| > 1 then Mark(chunks) else chunks
  }

  lemma {:induction false} UnmarkFirst(chunks: seq<string>, markers: bool, n: nat)
    requires n <= |chunks|
    ensures |MarkIf(chunks, markers)| == |chunks|
    ensures Unmarked(MarkIf(chunks, markers)[..n], markers, |chunks|) == chunks[..n]
  {
    if markers && |chunks| > 1 {
      var marked := Mark(chunks);
      forall i: nat | i < n ensures AfterFirstLine(marked[..n][i]) == chunks[..n][i] {
        UnmarkMark(chunks, i);
      }
    }
  }

  /** Without marker lines, the messages that were sent are the first of the original chunks. */
  lemma {:induction false} MarkedDeliverySendsFirst<E>(chunks: seq<string>, markers: bool, retries: nat,
      send: nat -> Option<E>)
    returns (n: nat)
    ensures var marked := MarkIf(chunks, markers);
      var attempts := Trace(|chunks|, retries, send, 0, 0, 0);
      && |marked| == |chunks| && SentFirst(marked, attempts, retries, n)
      && Unmarked(Messages(marked, attempts), markers, |chunks|) == chunks[..n]
  {
    hide Trace, Mark, MarkIf, Messages;
    UnmarkFirst(chunks, markers, 0);
    n := DeliverySendsFirst(MarkIf(chunks, markers), retries, send);
    UnmarkFirst(chunks, markers, n);
  }

  /** `deliver_text_indexed`: the text is split at lines and delivered. */
  method DeliverText<E>(text: string, markers: bool, retries: nat, send: nat -> Option<E>)
    returns (result: Result<nat, Failure<E>>, attempts: seq<Attempt>)
    ensures attempts == Trace(|DeliveryChunks(text, markers)|, retries, send, 0, 0, 0)
    ensures result.Ok? <==> !Failed(attempts)
    ensures result.Ok? ==> result.value == |DeliveryChunks(text, markers)|
    ensures result.Err? ==> result.error.part == attempts[|attempts| - 1].chunk + 1
  {
    var chunks := SplitDeliveryChunks(text, markers);
    result, attempts := DeliverChunks(|chunks|, retries, send);
  }

  lemma {:induction false} SolidPrefix(a: string, b: string)
    requires a <= b
    ensures Solid(a) <= Solid(b)
  {
    SolidAppend(a, b[|a|..]);
    TakeDrop(b, |a|);
    assert b[..|a|] == a;
  }

  /**
   Delivery of a reply: without marker lines, the messages that were sent are the
   first chunks of the split text. Of a text that is not blank they hold a prefix
   of the characters that are not white space, and all of them on success.
   */
  lemma {:induction false} ReplyDelivery<E>(text: string, markers: bool, retries: nat, send: nat -> Option<E>)
    returns (n: nat)
    ensures var chunks, original := DeliveryChunks(text, markers), Split(text, ExactLimit(markers));
      var attempts := Trace(|chunks|, retries, send, 0, 0, 0);
      && SentFirst(chunks, attempts, retries, n) && n <= |original| == |chunks|
      && Unmarked(Messages(chunks, attempts), markers, |chunks|) == original[..n]
      && (!Blank(text) ==> Solid(Concat(original[..n])) <= Solid(text))
      && (!Blank(text) && !Failed(attempts) ==> Solid(Concat(original[..n])) == Solid(text))
  {
    hide Trace, Split, Mark, Solid, Concat, Blank, Woven, Sendable, Messages, Unmarked;
    var original := Split(text, ExactLimit(markers));
    n := MarkedDeliverySendsFirst(original, markers, retries, send);
    ConcatPrefix(original, n);
    SolidPrefix(Concat(original[..n]), Concat(original));
    DropZero(original);
    if !Blank(text) {
      SplitIsFaithful(text, ExactLimit(markers));
      WovenSolid(text, original);
    }
  }

  /** Delivery of a saved text with or without markers: without marker lines, a prefix, and all of it on success. */
  lemma {:induction false} SavedTextDelivery<E>(text: string, markers: bool, retries: nat, send: nat -> Option<E>)
    returns (n: nat)
    requires text != []
    ensures var chunks, pieces := ExactDeliveryChunks(text, markers), Pieces(text, ExactLimit(markers));
      var attempts := Trace(|chunks|, retries, send, 0, 0, 0);
      && SentFirst(chunks, attempts, retries, n) && n <= |pieces| == |chunks|
      && Unmarked(Messages(chunks, attempts), markers, |chunks|) == pieces[..n]
      && Concat(pieces[..n]) <= text
      && (!Failed(attempts) ==> Concat(pieces[..n]) == text)
  {
    hide Trace, Mark, Concat, Pieces, Messages, Unmarked;
    var pieces := Pieces(text, ExactLimit(markers));
    PiecesAreExact(text, ExactLimit(markers));
    n := MarkedDeliverySendsFirst(pieces, markers, retries, send);
    ConcatPrefix(pieces, n);
    DropZero(pieces);
  }

  // ------------------------------------------------------------------ the empty text

  /** For every pattern of failures the delivered text is a prefix of the saved one. */
  ghost predicate AlwaysAPrefix(text: string) {
    forall retries: nat, send: nat -> Option<()> ::
      Prefixed(text, retries, send)
  }

  ghost predicate Prefixed(text: string, retries: nat, send: nat -> Option<()>) {
    var chunks := ExactDeliveryChunks(text, false);
    var attempts := Trace(|chunks|, retries, send, 0, 0, 0);
    InRange(chunks, attempts) && Delivered(chunks, attempts) <= text
  }

  /** The empty text is the one exception: a placeholder is sent for it. */
  lemma {:induction false} PrefixExactlyForText(text: string)
    ensures AlwaysAPrefix(text) <==> text != []
  {
    if text != [] {
      forall retries: nat, send: nat -> Option<()> ensures Prefixed(text, retries, send) {
        var n := DeliveryKeepsAPrefix(text, retries, send);
      }
    } else {
      EmptyTextSendsPlaceholder();
    }
  }

  lemma {:induction false} EmptyTextSendsPlaceholder()
    ensures !Prefixed([], 0, (k: nat) => None)
  {
    var send: nat -> Option<()> := (k: nat) => None;
    var chunks := ExactDeliveryChunks([], false);
    assert chunks == [NO_OUTPUT];
    var rest := Trace(1, 0, send, 1, 0, 1);
    var attempts := Trace(1, 0, send, 0, 0, 0);
    assert attempts == [Attempt(0, true)] + rest && attempts[1..] == rest == [];
    AppendEmpty(NO_OUTPUT);
    assert Delivered(chunks, attempts) == NO_OUTPUT + Delivered(chunks, rest);
  }
}
