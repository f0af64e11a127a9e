/**
 Cutting text into bounded Discord messages (crates/cdr-discord/src/text.rs).
 Limits count characters.
 */
module MessageText {
  import opened Sequences
  import opened Text

  const DISCORD_MAX_LEN: nat := 1_900
  const CHUNK_MARKER_BUDGET: nat := 32
  const NO_OUTPUT: string := "(no output)"
  const TRUNCATION_SUFFIX: string := "\n\n[truncated for Discord]"

  // ------------------------------------------------------------------ splitting at lines

  /** Position of the last line break of `s`, or its length if there is none after the first character. */
  function LastBreak(s: string): (n: nat)
    requires s != []
    ensures 1 <= n <= |s|
    ensures n < |s| ==> s[n] == '\n'
    ensures forall i | n < i < |s| :: s[i] != '\n'
    ensures n == |s| ==> forall i | 0 < i < |s| :: s[i] != '\n'
  {
    if |s| == 1 then 1
    else if s[|s| - 1] == '\n' then |s| - 1
    else
      var n := LastBreak(s[..|s| - 1]);
      if n == |s| - 1 then |s| else n
  }

  /** Chunks of a text that starts with no white space. */
  function SplitFrom(remaining: string, limit: nat): seq<string>
    requires limit > 0
    decreases |remaining|
  {
    if |remaining| <= limit then (if remaining == [] then [] else [remaining])
    else
      var cut := LastBreak(remaining[..limit]);
      [Trim(remaining[..cut])] + SplitFrom(TrimStart(remaining[cut..]), limit)
  }

  function Split(text: string, limit: nat): seq<string>
    requires limit > 0
  {
    if Trim(text) == [] then [NO_OUTPUT] else SplitFrom(Trim(text), limit)
  }

  /** `split_message`. */
  method SplitMessage(text: string, limit: nat) returns (chunks: seq<string>)
    requires limit > 0
    ensures chunks == Split(text, limit)
  {
    var remaining := Trim(text);
    if remaining == [] {
      return [NO_OUTPUT];
    }
    chunks := [];
    AppendEmpty(SplitFrom(remaining, limit));
    hide Trim, TrimStart;
    while |remaining| > limit
      invariant chunks + SplitFrom(remaining, limit) == SplitFrom(Trim(text), limit)
      decreases |remaining|
    {
      var cut := LastBreak(remaining[..limit]);
      var chunk, rest := Trim(remaining[..cut]), TrimStart(remaining[cut..]);
      AppendAssoc(chunks, [chunk], SplitFrom(rest, limit));
      chunks := chunks + [chunk];
      remaining := rest;
    }
    AppendEmpty(chunks);
    if remaining != [] {
      chunks := chunks + [remaining];
    }
  }

  /** A long text is cut at the last line break within the limit, and at the limit itself only if there is none. */
  lemma {:induction false} CutsAtTheLastLineBreak(remaining: string, limit: nat, cut: nat)
    requires limit > 0 && |remaining| > limit && 1 <= cut <= limit
    requires cut < limit ==> remaining[cut] == '\n'
    requires forall i | cut < i < limit :: remaining[i] != '\n'
    requires cut == limit ==> forall i | 0 < i < limit :: remaining[i] != '\n'
    ensures SplitFrom(remaining, limit) == [Trim(remaining[..cut])] + SplitFrom(TrimStart(remaining[cut..]), limit)
  {
    var prefix := remaining[..limit];
    var n := LastBreak(prefix);
    assert n < limit ==> prefix[n] == remaining[n];
    assert cut < limit ==> prefix[cut] == remaining[cut];
    assert n == cut;
  }

  /** The chunks, in order, are everything in the text except white space between and around them. */
  ghost predicate Woven(text: string, chunks: seq<string>)
    decreases |chunks|
  {
    if chunks == [] then Blank(text)
    else exists gap: string, rest: string ::
      text == gap + chunks[0] + rest && Blank(gap) && Woven(rest, chunks[1..])
  }

  predicate Sendable(chunk: string, limit: nat) {
    chunk != [] && |chunk| <= limit && Tight(chunk)
  }

  lemma {:induction false} WovenGap(gap: string, text: string, chunks: seq<string>)
    requires Blank(gap) && Woven(text, chunks)
    ensures Woven(gap + text, chunks)
  {
    if chunks != [] {
      var g, rest :| text == g + chunks[0] + rest && Blank(g) && Woven(rest, chunks[1..]);
      assert gap + text == (gap + g) + chunks[0] + rest;
    }
  }

  lemma {:induction false} TightPrefix(s: string, n: nat)
    requires s != [] && !IsWhitespace(s[0]) && 1 <= n <= |s|
    ensures var c := Trim(s[..n]); c != [] && Tight(c) && |c| <= n && exists tail :: Blank(tail) && s[..n] == c + tail
  {
    var p := s[..n];
    assert p[0] == s[0];
    assert TrimStart(p) == p;
    var tail := TrimEndParts(p);
    assert Trim(p) == [] ==> p == tail;
    assert Trim(p) != [] ==> Trim(p)[0] == p[0];
  }

  /** One cut: the chunk in front, white space, and a tight rest. */
  lemma {:induction false} CutOnce(remaining: string, cut: nat) returns (gap: string)
    requires remaining != [] && Tight(remaining) && 1 <= cut < |remaining|
    ensures var chunk, rest := Trim(remaining[..cut]), TrimStart(remaining[cut..]);
      Sendable(chunk, cut) && rest != [] && Tight(rest) && Blank(gap) && remaining == chunk + (gap + rest)
  {
    var front, after := remaining[..cut], remaining[cut..];
    TightPrefix(remaining, cut);
    hide Trim, TrimStart, Blank;
    var tail :| Blank(tail) && front == Trim(front) + tail;
    var head := TrimStartParts(after);
    assert after[|after| - 1] == remaining[|remaining| - 1];
    RestIsTight(after, head);
    gap := tail + head;
    BlankAppend(tail, head);
    TakeDrop(remaining, cut);
    Regroup(Trim(front), tail, head, TrimStart(after));
  }

  lemma {:induction false} BlankAppend(a: string, b: string)
    requires Blank(a) && Blank(b)
    ensures Blank(a + b)
  {
  }

  lemma {:induction false} Regroup(a: string, b: string, c: string, d: string)
    ensures (a + b) + (c + d) == a + ((b + c) + d)
  {
  }

  lemma {:induction false} WovenCons(chunk: string, gap: string, rest: string, others: seq<string>)
    requires Blank(gap) && Woven(rest, others)
    ensures Woven(chunk + (gap + rest), [chunk] + others)
  {
    WovenGap(gap, rest, others);
    var text, chunks := chunk + (gap + rest), [chunk] + others;
    assert chunks[0] == chunk && chunks[1..] == others;
    assert text == [] + chunks[0] + (gap + rest) && Blank([]);
  }

  lemma {:induction false} WovenAlone(text: string)
    ensures Woven(text, [text])
  {
    assert text == [] + text + [];
    assert [text][1..] == [];
    assert Woven([], []);
  }

  lemma {:induction false} SplitFromFaithful(remaining: string, limit: nat)
    requires limit > 0 && remaining != [] && Tight(remaining)
    ensures var chunks := SplitFrom(remaining, limit);
      Woven(remaining, chunks) && forall i | 0 <= i < |chunks| :: Sendable(chunks[i], limit)
    decreases |remaining|
  {
    hide Trim, TrimStart, Tight, Blank, Woven;
    if |remaining| <= limit {
      WovenAlone(remaining);
    } else {
      var cut := LastBreak(remaining[..limit]);
      var rest := TrimStart(remaining[cut..]);
      var gap := CutOnce(remaining, cut);
      SplitFromFaithful(rest, limit);
      WovenCons(Trim(remaining[..cut]), gap, rest, SplitFrom(rest, limit));
    }
  }

  lemma {:induction false} RestIsTight(after: string, gap: string)
    requires after != [] && !IsWhitespace(after[|after| - 1]) && Blank(gap) && after == gap + TrimStart(after)
    ensures TrimStart(after) != [] && Tight(TrimStart(after))
  {
    var rest := TrimStart(after);
    assert rest == [] ==> after == gap;
    assert rest != [] ==> after[|after| - 1] == rest[|rest| - 1];
  }

  /**
   For every text that is not blank the chunks are non-empty, within the limit,
   without outer white space, and together hold everything else in order.
   */
  lemma {:induction false} SplitIsFaithful(text: string, limit: nat)
    requires limit > 0 && !Blank(text)
    ensures var chunks := Split(text, limit);
      Woven(text, chunks) && forall i | 0 <= i < |chunks| :: Sendable(chunks[i], limit)
  {
    hide Trim, Tight, Blank, Woven, Sendable, SplitFrom;
    TrimBlank(text);
    var head, tail := TrimParts(text);
    var core := Trim(text);
    SplitFromFaithful(core, limit);
    var chunks := SplitFrom(core, limit);
    WovenTail(core, tail, chunks);
    WovenGap(head, core + tail, chunks);
    AppendAssoc(head, core, tail);
  }

  lemma {:induction false} WovenTail(text: string, tail: string, chunks: seq<string>)
    requires Blank(tail) && Woven(text, chunks)
    ensures Woven(text + tail, chunks)
    decreases |chunks|
  {
    if chunks == [] {
    } else {
      var g, rest :| text == g + chunks[0] + rest && Blank(g) && Woven(rest, chunks[1..]);
      WovenTail(rest, tail, chunks[1..]);
      assert text + tail == g + chunks[0] + (rest + tail);
    }
  }

  // ------------------------------------------------------------------ lines that fit stay whole

  predicate BreakWithin(s: string, i: nat, limit: nat)
    requires i + limit < |s|
  {
    exists j | i <= j <= i + limit :: s[j] == '\n'
  }

  /** No line of the text is longer than the limit. */
  ghost predicate ShortLines(s: string, limit: nat) {
    forall i: nat | i + limit < |s| :: BreakWithin(s, i, limit)
  }

  /** Every chunk stands behind white space that holds a line break, and only white space is left over. */
  ghost predicate BrokenAtLines(text: string, chunks: seq<string>)
    decreases |chunks|
  {
    if chunks == [] then Blank(text)
    else exists gap: string, rest: string ::
      text == gap + chunks[0] + rest && Blank(gap) && '\n' in gap && BrokenAtLines(rest, chunks[1..])
  }

  lemma {:induction false} ShortLinesInside(before: string, s: string, after: string, limit: nat)
    requires ShortLines(before + s + after, limit)
    ensures ShortLines(s, limit)
  {
    var whole := before + s + after;
    forall i: nat | i + limit < |s| ensures BreakWithin(s, i, limit) {
      assert BreakWithin(whole, |before| + i, limit);
      var j :| |before| + i <= j <= |before| + i + limit && whole[j] == '\n';
      assert s[j - |before|] == whole[j];
    }
  }

  /** With short lines a cut falls on a line break. */
  lemma {:induction false} CutIsABreak(remaining: string, limit: nat)
    requires 0 < limit < |remaining| && !IsWhitespace(remaining[0]) && ShortLines(remaining, limit)
    ensures remaining[LastBreak(remaining[..limit])] == '\n'
  {
    var front := remaining[..limit];
    var n := LastBreak(front);
    assert BreakWithin(remaining, 0, limit);
    var j :| 0 <= j <= limit && remaining[j] == '\n';
    assert j < limit ==> front[j] == '\n';
    assert n < limit ==> front[n] == remaining[n];
  }

  lemma {:induction false} GapHoldsTheBreak(remaining: string, cut: nat, chunk: string, gap: string, rest: string)
    requires cut < |remaining| && remaining[cut] == '\n' && remaining == chunk + (gap + rest)
    requires |chunk| <= cut && rest == TrimStart(remaining[cut..])
    ensures '\n' in gap
  {
    var after := remaining[cut..];
    assert after[0] == '\n' && TrimStart(after) == TrimStart(after[1..]);
    assert |rest| < |after|;
    assert gap[cut - |chunk|] == '\n';
  }

  lemma {:induction false} BrokenCons(gap: string, chunk: string, rest: string, others: seq<string>)
    requires Blank(gap) && '\n' in gap && BrokenAtLines(rest, others)
    ensures BrokenAtLines(gap + chunk + rest, [chunk] + others)
  {
    var chunks := [chunk] + others;
    assert chunks[0] == chunk && chunks[1..] == others;
  }

  lemma {:induction false} SplitFromAtLines(gap: string, remaining: string, tail: string, limit: nat)
    requires limit > 0 && remaining != [] && Tight(remaining) && ShortLines(remaining, limit)
    requires Blank(gap) && '\n' in gap && Blank(tail)
    ensures BrokenAtLines(gap + remaining + tail, SplitFrom(remaining, limit))
    decreases |remaining|
  {
    hide Trim, TrimStart, Blank, BrokenAtLines, ShortLines;
    if |remaining| <= limit {
      BrokenNone(tail);
      BrokenCons(gap, remaining, tail, []);
      AppendEmpty([remaining]);
    } else {
      var cut := LastBreak(remaining[..limit]);
      var chunk, rest := Trim(remaining[..cut]), TrimStart(remaining[cut..]);
      CutIsABreak(remaining, limit);
      var between := CutOnce(remaining, cut);
      GapHoldsTheBreak(remaining, cut, chunk, between, rest);
      AppendAssoc(chunk, between, rest);
      AppendEmpty(chunk + between + rest);
      ShortLinesInside(chunk + between, rest, [], limit);
      SplitFromAtLines(between, rest, tail, limit);
      BrokenCons(gap, chunk, between + rest + tail, SplitFrom(rest, limit));
      Regroup5(gap, chunk, between, rest, tail);
    }
  }

  lemma {:induction false} BrokenNone(tail: string)
    requires Blank(tail)
    ensures BrokenAtLines(tail, [])
  {
  }

  lemma {:induction false} Regroup5(a: string, b: string, c: string, d: string, e: string)
    ensures a + b + (c + d + e) == a + (b + (c + d)) + e
  {
  }

  /**
   A text whose lines all fit is cut at line breaks only: behind a line break of
   its own, every chunk of it follows one, so no line is torn apart.
   */
  lemma {:induction false} LinesStayWhole(text: string, limit: nat)
    requires limit > 0 && !Blank(text) && ShortLines(text, limit)
    ensures BrokenAtLines("\n" + text, Split(text, limit))
  {
    hide Trim, Tight, Blank, BrokenAtLines, ShortLines, SplitFrom;
    TrimBlank(text);
    var head, tail := TrimParts(text);
    var core := Trim(text);
    ShortLinesInside(head, core, tail, limit);
    BreakBefore(head);
    SplitFromAtLines("\n" + head, core, tail, limit);
    Regroup4("\n", head, core, tail);
  }

  lemma {:induction false} BreakBefore(head: string)
    requires Blank(head)
    ensures Blank("\n" + head) && '\n' in "\n" + head
  {
    assert ("\n" + head)[0] == '\n';
  }

  lemma {:induction false} Regroup4(a: string, b: string, c: string, d: string)
    ensures a + (b + c + d) == a + b + c + d
  {
  }

  /** The characters that are not white space. */
  function Solid(s: string): string {
    if s == [] then [] else (if IsWhitespace(s[0]) then [] else [s[0]]) + Solid(s[1..])
  }

  lemma {:induction false} SolidAppend(a: string, b: string)
    ensures Solid(a + b) == Solid(a) + Solid(b)
  {
    if a == [] {
      assert a + b == b;
    } else {
      assert (a + b)[1..] == a[1..] + b;
      SolidAppend(a[1..], b);
    }
  }

  lemma {:induction false} SolidBlank(s: string)
    requires Blank(s)
    ensures Solid(s) == []
  {
    if s == [] {
    } else {
      SolidBlank(s[1..]);
    }
  }

  /** The non-white-space characters of the chunks, in order, are exactly those of the text. */
  lemma {:induction false} WovenSolid(text: string, chunks: seq<string>)
    requires Woven(text, chunks)
    ensures Solid(Concat(chunks)) == Solid(text)
    decreases |chunks|
  {
    if chunks == [] {
      SolidBlank(text);
    } else {
      var g, rest :| text == g + chunks[0] + rest && Blank(g) && Woven(rest, chunks[1..]);
      WovenSolid(rest, chunks[1..]);
      SolidBlank(g);
      SolidAppend(g + chunks[0], rest);
      SolidAppend(g, chunks[0]);
      SolidAppend(chunks[0], Concat(chunks[1..]));
    }
  }

  // ------------------------------------------------------------------ exact splitting

  /** Pieces of `limit` characters, the last one possibly shorter. */
  function Pieces(text: string, limit: nat): seq<string>
    requires limit > 0
    decreases |text|
  {
    if text == [] then []
    else if |text| <= limit then [text]
    else [text[..limit]] + Pieces(text[limit..], limit)
  }

  lemma {:induction false} PiecesAreExact(text: string, limit: nat)
    requires limit > 0
    ensures Concat(Pieces(text, limit)) == text
    ensures var pieces := Pieces(text, limit); forall i | 0 <= i < |pieces| ::
      1 <= |pieces[i]| <= limit && (i < |pieces| - 1 ==> |pieces[i]| == limit)
    decreases |text|
  {
    if text == [] {
    } else {
      if |text| <= limit {
        assert [text][1..] == [];
      } else {
        PiecesAreExact(text[limit..], limit);
        assert text == text[..limit] + text[limit..];
        assert ([text[..limit]] + Pieces(text[limit..], limit))[1..] == Pieces(text[limit..], limit);
      }
    }
  }

  // ------------------------------------------------------------------ chunk markers

  function Marker(index: nat, total: nat): string {
    "[" + Decimal(index) + "/" + Decimal(total) + "]\n"
  }

  function Mark(chunks: seq<string>): seq<string> {
    seq(|chunks|, i requires 0 <= i < |chunks| => Marker(i + 1, |chunks|) + chunks[i])
  }

  function DeliveryChunks(text: string, markers: bool): seq<string> {
    if !markers then Split(text, DISCORD_MAX_LEN)
    else
      var chunks := Split(text, DISCORD_MAX_LEN - CHUNK_MARKER_BUDGET);
      if |chunks| <= 1 then chunks else Mark(chunks)
  }

  /** `split_delivery_chunks`. */
  method SplitDeliveryChunks(text: string, markers: bool) returns (chunks: seq<string>)
    ensures chunks == DeliveryChunks(text, markers)
  {
    if !markers {
      chunks := SplitMessage(text, DISCORD_MAX_LEN);
      return;
    }
    chunks := SplitMessage(text, DISCORD_MAX_LEN - CHUNK_MARKER_BUDGET);
    if |chunks| > 1 {
      chunks := Mark(chunks);
    }
  }

  function ExactLimit(markers: bool): nat {
    DISCORD_MAX_LEN - if markers then CHUNK_MARKER_BUDGET else 0
  }

  function ExactDeliveryChunks(text: string, markers: bool): seq<string> {
    var pieces := Pieces(text, ExactLimit(markers));
    if text == [] then [NO_OUTPUT] else if markers && |pieces| > 1 then Mark(pieces) else pieces
  }

  /** `split_exact_delivery_chunks`. */
  method SplitExactDeliveryChunks(text: string, markers: bool) returns (chunks: seq<string>)
    ensures chunks == ExactDeliveryChunks(text, markers)
  {
    if text == [] {
      return [NO_OUTPUT];
    }
    var limit := ExactLimit(markers);
    var remaining := text;
    chunks := [];
    hide Mark;
    AppendEmpty(Pieces(text, limit));
    while remaining != []
      invariant chunks + Pieces(remaining, limit) == Pieces(text, limit)
      decreases |remaining|
    {
      var end := if |remaining| < limit then |remaining| else limit;
      ghost var before := chunks;
      chunks := chunks + [remaining[..end]];
      DropZero(remaining);
      AppendAssoc(before, [remaining[..end]], Pieces(remaining[end..], limit));
      AppendEmpty([remaining[..end]]);
      remaining := remaining[end..];
    }
    AppendEmpty(chunks);
    if markers && |chunks| > 1 {
      chunks := Mark(chunks);
    }
  }

  lemma {:induction false} MarkerLength(index: nat, total: nat)
    requires 1 <= index <= total < Pow10(14)
    ensures |Marker(index, total)| <= CHUNK_MARKER_BUDGET
  {
    DecimalLength(index, 14);
    DecimalLength(total, 14);
  }

  /** Marked chunks still fit a message while there are fewer than 10^14 of them. */
  lemma {:induction false} MarkedChunksFit(chunks: seq<string>, i: nat)
    requires i < |chunks| < Pow10(14) && |chunks[i]| <= DISCORD_MAX_LEN - CHUNK_MARKER_BUDGET
    ensures |Mark(chunks)| == |chunks| && 1 <= |Mark(chunks)[i]| <= DISCORD_MAX_LEN
  {
    hide Decimal;
    MarkerLength(i + 1, |chunks|);
  }

  lemma {:induction false} NoOutputFits()
    ensures NO_OUTPUT != [] && |NO_OUTPUT| <= DISCORD_MAX_LEN - CHUNK_MARKER_BUDGET
  {
  }

  /** Every chunk of either splitter fits a message, marked or not, whatever the text. */
  lemma {:induction false} DeliveryChunksFit(text: string, markers: bool, i: nat)
    requires i < |DeliveryChunks(text, markers)| < Pow10(14)
    ensures 1 <= |DeliveryChunks(text, markers)[i]| <= 1_900
  {
    var limit := ExactLimit(markers);
    var chunks := Split(text, limit);
    hide Trim, Tight, Blank, Woven, SplitFrom, Mark, Pow10;
    TrimBlank(text);
    NoOutputFits();
    if !Blank(text) {
      SplitIsFaithful(text, limit);
    }
    if markers && |chunks| > 1 {
      MarkedChunksFit(chunks, i);
    }
  }

  lemma {:induction false} ExactDeliveryChunksFit(text: string, markers: bool, i: nat)
    requires i < |ExactDeliveryChunks(text, markers)| < Pow10(14)
    ensures 1 <= |ExactDeliveryChunks(text, markers)[i]| <= 1_900
    ensures !markers && i < |ExactDeliveryChunks(text, markers)| - 1 ==>
      |ExactDeliveryChunks(text, markers)[i]| == 1_900
  {
    var limit := ExactLimit(markers);
    var pieces := Pieces(text, limit);
    hide Mark, Concat, Pow10;
    PiecesAreExact(text, limit);
    NoOutputFits();
    if markers && |pieces| > 1 {
      MarkedChunksFit(pieces, i);
    }
  }

  /** The text after the first line break. */
  function AfterFirstLine(s: string): string {
    if s == [] then [] else if s[0] == '\n' then s[1..] else AfterFirstLine(s[1..])
  }

  lemma {:induction false} AfterFirstLineIs(line: string, rest: string)
    requires '\n' !in line
    ensures AfterFirstLine(line + "\n" + rest) == rest
  {
    var s := line + "\n" + rest;
    if line == [] {
      assert s[1..] == rest;
    } else {
      assert line[0] in line && s[1..] == line[1..] + "\n" + rest;
      AfterFirstLineIs(line[1..], rest);
    }
  }

  /** Dropping the marker line of a marked chunk gives the chunk back. */
  lemma {:induction false} UnmarkMark(chunks: seq<string>, i: nat)
    requires i < |chunks|
    ensures AfterFirstLine(Mark(chunks)[i]) == chunks[i]
  {
    var line := "[" + Decimal(i + 1) + "/" + Decimal(|chunks|) + "]";
    var a, b := Decimal(i + 1), Decimal(|chunks|);
    assert forall k | 0 <= k < |line| :: line[k] != '\n' by {
      assert forall k | 0 <= k < |a| :: IsDigit(a[k]);
      assert forall k | 0 <= k < |b| :: IsDigit(b[k]);
    }
    AfterFirstLineIs(line, chunks[i]);
    assert "]\n" == "]" + "\n" && Marker(i + 1, |chunks|) == line + "\n";
    assert Mark(chunks)[i] == line + "\n" + chunks[i];
  }

  // ------------------------------------------------------------------ a single message

  /** `fit_single_message`. */
  function FitSingle(text: string, limit: nat): string {
    var core := Trim(text);
    if |core| <= limit then core
    else
      var available := if limit >= |TRUNCATION_SUFFIX| then limit - |TRUNCATION_SUFFIX| else 0;
      TrimEnd(core[..available]) + TRUNCATION_SUFFIX
  }

  /** The result fits exactly when the text did, or the limit leaves room for the truncation notice. */
  lemma {:induction false} FitSingleFitsExactly(text: string, limit: nat)
    ensures |FitSingle(text, limit)| <= limit <==> |Trim(text)| <= limit || limit >= |TRUNCATION_SUFFIX|
  {
  }

  /** A limit shorter than the notice is overrun. */
  lemma {:induction false} ShortLimitOverrun()
    ensures |FitSingle("ab", 1)| == 25
  {
    TrimTight("ab");
    assert "ab"[..0] == "";
    assert TrimEnd("") == "";
    assert |TRUNCATION_SUFFIX| == 25;
  }

  // ------------------------------------------------------------------ literal texts

  /** A blank text is delivered as a placeholder, whatever the limit and with or without markers. */
  lemma {:induction false} BlankGivesPlaceholder(text: string, limit: nat, markers: bool)
    requires limit > 0 && Blank(text)
    ensures Split(text, limit) == ["(no output)"] && DeliveryChunks(text, markers) == ["(no output)"]
    ensures ExactDeliveryChunks("", markers) == ["(no output)"]
  {
    TrimBlank(text);
  }

  /** The marker names the chunk, counted from one, and then the number of chunks. */
  lemma {:induction false} MarkedChunkReads(chunks: seq<string>, i: nat)
    requires i < |chunks|
    ensures |Mark(chunks)| == |chunks|
    ensures Mark(chunks)[i] == "[" + Decimal(i + 1) + "/" + Decimal(|chunks|) + "]\n" + chunks[i]
  {
    assert Mark(chunks)[i] == Marker(i + 1, |chunks|) + chunks[i];
  }

  /**
   A text that does not fit keeps a beginning before the notice: as much of the
   first characters that leave room for it as does not end in white space.
   */
  lemma {:induction false} FitSingleKeepsABeginning(text: string, limit: nat) returns (kept: string)
    requires |Trim(text)| > limit
    ensures FitSingle(text, limit) == kept + "\n\n[truncated for Discord]"
    ensures kept <= Trim(text) && |kept| <= (if limit >= 25 then limit - 25 else 0)
    ensures kept == [] || !IsWhitespace(kept[|kept| - 1])
    ensures Blank(Trim(text)[|kept|..if limit >= 25 then limit - 25 else 0])
  {
    hide Trim, TrimEnd;
    var core := Trim(text);
    assert |TRUNCATION_SUFFIX| == 25;
    var available := if limit >= 25 then limit - 25 else 0;
    var front := core[..available];
    kept := TrimEnd(front);
    var tail := TrimEndParts(front);
    assert core[|kept|..available] == tail;
    assert kept == core[..|kept|];
  }

  /** A text that fits is only trimmed. */
  lemma {:induction false} FitSingleKeepsAll(text: string, limit: nat)
    requires |Trim(text)| <= limit
    ensures FitSingle(text, limit) == Trim(text)
  {
  }
}
