/**
 The namespaces of conversation references (crates/cdr-codex-state/src/thread_ref.rs),
 one by one: which conversation a spelling selects as an id, a UUID, a keyword, an
 index or by mention, and which alias a conversation gets.
 */
module ReferenceNamespaces {
  import opened Options
  import opened Sequences
  import opened Text
  import opened WorkspacePaths
  import opened ThreadRefs

  // ------------------------------------------------------------------ searches

  /** `k` is the first position whose conversation passes. */
  ghost predicate FirstAt(threads: seq<ThreadInfo>, p: ThreadInfo -> bool, k: nat) {
    k < |threads| && p(threads[k]) && forall j | 0 <= j < k :: !p(threads[j])
  }

  lemma {:induction false} FindFirstAt(threads: seq<ThreadInfo>, p: ThreadInfo -> bool, k: nat)
    requires FirstAt(threads, p, k)
    ensures FindFirst(threads, p) == Some(threads[k])
  {
    if k == 0 {
    } else {
      assert !p(threads[0]);
      FindFirstAt(threads[1..], p, k - 1);
    }
  }

  predicate NoIdIs(threads: seq<ThreadInfo>, reference: string) {
    forall j | 0 <= j < |threads| :: threads[j].id != reference
  }

  lemma {:induction false} NotExact(threads: seq<ThreadInfo>, reference: string)
    requires NoIdIs(threads, reference)
    ensures FindFirst(threads, (t: ThreadInfo) => t.id == reference) == None
  {
    FindFirstNone(threads, (t: ThreadInfo) => t.id == reference);
  }

  // ------------------------------------------------------------------ no conversations, exact ids

  lemma {:induction false} NothingToResolve(cs: Charset, threadRef: string, selected: Option<string>, archived: bool)
    ensures Resolve(cs, [], threadRef, selected, archived) == Err(NoThreads(archived))
  {
  }

  /** An exact id wins over every other reading; of equal ids, the first. */
  lemma {:induction false} ExactIdResolves(cs: Charset, threads: seq<ThreadInfo>, threadRef: string, k: nat,
      selected: Option<string>, archived: bool)
    requires k < |threads| && threads[k].id == Trim(threadRef)
    requires forall j | 0 <= j < k :: threads[j].id != Trim(threadRef)
    ensures Resolve(cs, threads, threadRef, selected, archived) == Ok(threads[k])
  {
    hide Trim, RefMap, Lower;
    var reference := Trim(threadRef);
    FindFirstAt(threads, (t: ThreadInfo) => t.id == reference, k);
  }

  // ------------------------------------------------------------------ UUIDs

  predicate HexDigit(c: char) { '0' <= c <= '9' || 'a' <= c <= 'f' || 'A' <= c <= 'F' }

  /** Thirty-six characters: hexadecimal digits with dashes after the 8th, 12th, 16th and 20th. */
  predicate UuidShape(s: string) {
    && |s| == 36 && s[8] == '-' && s[13] == '-' && s[18] == '-' && s[23] == '-'
    && forall i | 0 <= i < 36 && i != 8 && i != 13 && i != 18 && i != 23 :: HexDigit(s[i])
  }

  /** The same letter, one of them a capital. */
  predicate OtherCase(c: char, d: char) {
    || ('a' <= c <= 'z' && c as int == d as int + 32)
    || ('a' <= d <= 'z' && d as int == c as int + 32)
  }

  predicate SameUpToAsciiCase(a: string, b: string) {
    |a| == |b| && forall i | 0 <= i < |a| :: a[i] == b[i] || OtherCase(a[i], b[i])
  }

  lemma {:induction false} AsciiLowerCharDecides(c: char, d: char)
    ensures AsciiLower(c) == AsciiLower(d) <==> c == d || OtherCase(c, d)
  {
  }

  lemma {:induction false} AsciiLowerDecides(a: string, b: string)
    ensures AsciiLowerAll(a) == AsciiLowerAll(b) <==> SameUpToAsciiCase(a, b)
  {
    hide OtherCase, AsciiLower, AsciiLowerAll;
    var x, y := AsciiLowerAll(a), AsciiLowerAll(b);
    if |a| == |b| {
      forall i | 0 <= i < |a| ensures x[i] == y[i] <==> a[i] == b[i] || OtherCase(a[i], b[i]) {
        AsciiLowerCharDecides(a[i], b[i]);
      }
      if SameUpToAsciiCase(a, b) {
        assert x == y;
      }
    }
  }

  /**
   A spelling in the shape of a UUID that is no exact id selects the first
   conversation whose id agrees with it up to ASCII case, and nothing else.
   */
  lemma {:induction false} UuidResolves(cs: Charset, threads: seq<ThreadInfo>, threadRef: string, k: nat,
      selected: Option<string>, archived: bool)
    requires threads != [] && UuidShape(Trim(threadRef)) && NoIdIs(threads, Trim(threadRef))
    requires k <= |threads| && forall j | 0 <= j < k :: !SameUpToAsciiCase(threads[j].id, Trim(threadRef))
    requires k < |threads| ==> SameUpToAsciiCase(threads[k].id, Trim(threadRef))
    ensures Resolve(cs, threads, threadRef, selected, archived) ==
      if k < |threads| then Ok(threads[k]) else Err(NotFound(Trim(threadRef)))
  {
    hide Trim, RefMap, Lower, AsciiLowerAll, SameUpToAsciiCase;
    var reference := Trim(threadRef);
    NotExact(threads, reference);
    var p := (t: ThreadInfo) => AsciiLowerAll(t.id) == AsciiLowerAll(reference);
    forall j | 0 <= j < |threads| ensures p(threads[j]) <==> SameUpToAsciiCase(threads[j].id, reference) {
      AsciiLowerDecides(threads[j].id, reference);
    }
    if k < |threads| {
      FindFirstAt(threads, p, k);
    } else {
      FindFirstNone(threads, p);
    }
  }

  // ------------------------------------------------------------------ keywords

  lemma {:induction false} KeywordIsNoUuid(cs: Charset, reference: string)
    requires Admissible(cs) && (Lower(cs, reference) == "other" || Lower(cs, reference) == "next")
    ensures !IsFullUuid(reference)
  {
    if IsFullUuid(reference) {
      LowerAscii(cs, reference);
    }
  }

  /**
   "other" and "next", in any case, select the first conversation that is not the
   selected one; there is no alternate exactly when every one is.
   */
  lemma {:induction false} KeywordResolves(cs: Charset, threads: seq<ThreadInfo>, threadRef: string, k: nat,
      selected: Option<string>, archived: bool)
    requires Admissible(cs) && threads != [] && NoIdIs(threads, Trim(threadRef))
    requires Lower(cs, Trim(threadRef)) == "other" || Lower(cs, Trim(threadRef)) == "next"
    requires k <= |threads| && forall j | 0 <= j < k :: selected == Some(threads[j].id)
    requires k < |threads| ==> selected != Some(threads[k].id)
    ensures Resolve(cs, threads, threadRef, selected, archived) ==
      if k < |threads| then Ok(threads[k]) else Err(NoAlternate)
  {
    hide Trim, RefMap, Lower, IsFullUuid, AsciiLowerAll;
    var reference := Trim(threadRef);
    NotExact(threads, reference);
    KeywordIsNoUuid(cs, reference);
    var p := (t: ThreadInfo) => Some(t.id) != selected;
    if k < |threads| {
      FindFirstAt(threads, p, k);
    } else {
      FindFirstNone(threads, p);
    }
  }

  // ------------------------------------------------------------------ indices

  lemma {:induction false} DigitsAreOnlyAnIndex(cs: Charset, digits: string)
    requires Admissible(cs) && AllDigits(digits)
    ensures Tight(digits) && !IsFullUuid(digits) && !IsKeyword(Lower(cs, digits))
  {
    if |digits| == 36 {
      assert IsDigit(digits[8]);
    }
    LowerAscii(cs, digits);
    var lower := AsciiLowerAll(digits);
    assert lower != [] ==> lower[0] == digits[0];
  }

  /** A string of digits that is no id selects by position, counted from one, or is out of range. */
  lemma {:induction false} DigitsSelect(cs: Charset, threads: seq<ThreadInfo>, digits: string, selected: Option<string>,
      archived: bool)
    requires Admissible(cs) && threads != [] && |threads| < 0x1_0000_0000_0000_0000
    requires AllDigits(digits) && NoIdIs(threads, digits)
    ensures Resolve(cs, threads, digits, selected, archived) ==
      if 1 <= Numeral(digits) <= |threads| then Ok(threads[Numeral(digits) - 1])
      else Err(IndexOutOfRange(digits, archived))
  {
    hide Trim, RefMap, Lower, IsFullUuid, IsKeyword, AsciiLowerAll, Numeral;
    DigitsAreOnlyAnIndex(cs, digits);
    TrimTight(digits);
    NotExact(threads, digits);
  }

  function Zeros(k: nat): string {
    seq(k, i requires 0 <= i < k => '0')
  }

  lemma {:induction false} LeadingZeros(k: nat, digits: string)
    requires AllDigits(digits)
    ensures AllDigits(Zeros(k) + digits) && Numeral(Zeros(k) + digits) == Numeral(digits)
  {
    var all := Zeros(k) + digits;
    if digits == [] {
      AppendEmpty(Zeros(k));
      if k == 0 {
      } else {
        LeadingZeros(k - 1, []);
        AppendEmpty(Zeros(k - 1));
        assert Zeros(k)[..k - 1] == Zeros(k - 1);
      }
    } else {
      InitAppend(Zeros(k), digits);
      LeadingZeros(k, digits[..|digits| - 1]);
    }
  }

  /** The decimal numeral of a position counted from one, whatever zeros precede it, selects that position. */
  lemma {:induction false} IndexResolves(cs: Charset, threads: seq<ThreadInfo>, i: nat, zeros: nat,
      selected: Option<string>, archived: bool)
    requires Admissible(cs) && i < |threads| < 0x1_0000_0000_0000_0000
    requires NoIdIs(threads, Zeros(zeros) + Decimal(i + 1))
    ensures Resolve(cs, threads, Zeros(zeros) + Decimal(i + 1), selected, archived) == Ok(threads[i])
  {
    hide Resolve, Numeral, Zeros, NoIdIs, Decimal;
    LeadingZeros(zeros, Decimal(i + 1));
    NumeralDecimal(i + 1);
    DigitsSelect(cs, threads, Zeros(zeros) + Decimal(i + 1), selected, archived);
  }

  /** Zero and every position past the end are out of range. */
  lemma {:induction false} IndexPastTheEnd(cs: Charset, threads: seq<ThreadInfo>, n: nat, zeros: nat,
      selected: Option<string>, archived: bool)
    requires Admissible(cs) && threads != [] && |threads| < 0x1_0000_0000_0000_0000 && (n == 0 || n > |threads|)
    requires NoIdIs(threads, Zeros(zeros) + Decimal(n))
    ensures Resolve(cs, threads, Zeros(zeros) + Decimal(n), selected, archived) ==
      Err(IndexOutOfRange(Zeros(zeros) + Decimal(n), archived))
  {
    hide Resolve, Numeral, Zeros, NoIdIs, Decimal;
    LeadingZeros(zeros, Decimal(n));
    NumeralDecimal(n);
    DigitsSelect(cs, threads, Zeros(zeros) + Decimal(n), selected, archived);
  }

  // ------------------------------------------------------------------ mentions

  /** The spelling falls outside the id, UUID, keyword and index namespaces. */
  ghost predicate Loose(cs: Charset, threads: seq<ThreadInfo>, reference: string) {
    && threads != [] && NoIdIs(threads, reference) && !UuidShape(reference)
    && Lower(cs, reference) != "other" && Lower(cs, reference) != "next"
    && exists i | 0 <= i < |reference| :: !('0' <= reference[i] <= '9')
  }

  /** At least four hexadecimal digits and dashes, which begin the id up to case. */
  predicate StartsId(cs: Charset, t: ThreadInfo, reference: string) {
    && |reference| >= 4 && (forall i | 0 <= i < |reference| :: HexDigit(reference[i]) || reference[i] == '-')
    && |Lower(cs, reference)| <= |Lower(cs, t.id)|
    && Lower(cs, t.id)[..|Lower(cs, reference)|] == Lower(cs, reference)
  }

  /** The four ways in which a spelling names a conversation: id prefix, alias, path and folder. */
  predicate Names(cs: Charset, threads: seq<ThreadInfo>, t: ThreadInfo, reference: string) {
    || StartsId(cs, t, reference)
    || (t.id in RefMap(cs, threads) && Lower(cs, RefMap(cs, threads)[t.id]) == Lower(cs, reference))
    || Normalized(t.cwd) == Normalized(reference)
    || Lower(cs, WorkspaceName(t)) == Lower(cs, reference)
  }

  lemma {:induction false} NamesIsMentions(cs: Charset, threads: seq<ThreadInfo>, t: ThreadInfo, reference: string)
    ensures Names(cs, threads, t, reference) <==> Mentions(cs, RefMap(cs, threads), t, reference)
  {
    hide Lower, RefMap, WorkspaceName, Normalized;
    assert IsShortId(reference) <==>
      |reference| >= 4 && forall i | 0 <= i < |reference| :: HexDigit(reference[i]) || reference[i] == '-';
  }

  /** The positions named by the spelling, in order. */
  ghost predicate Positions(cs: Charset, threads: seq<ThreadInfo>, reference: string, ks: seq<nat>) {
    && (forall a, b | 0 <= a < b < |ks| :: ks[a] < ks[b])
    && (forall a | 0 <= a < |ks| :: ks[a] < |threads|)
    && (forall i: nat | i < |threads| :: i in ks <==> Names(cs, threads, threads[i], reference))
  }

  ghost predicate PositionsOf(threads: seq<ThreadInfo>, p: ThreadInfo -> bool, ks: seq<nat>) {
    && (forall a, b | 0 <= a < b < |ks| :: ks[a] < ks[b])
    && (forall a | 0 <= a < |ks| :: ks[a] < |threads| && p(threads[ks[a]]))
    && (forall i: nat | i < |threads| && p(threads[i]) :: i in ks)
  }

  function At(threads: seq<ThreadInfo>, ks: seq<nat>): seq<ThreadInfo>
    requires forall a | 0 <= a < |ks| :: ks[a] < |threads|
  {
    seq(|ks|, a requires 0 <= a < |ks| => threads[ks[a]])
  }

  function ShiftDown(ks: seq<nat>): seq<nat>
    requires forall a | 0 <= a < |ks| :: ks[a] > 0
  {
    seq(|ks|, a requires 0 <= a < |ks| => ks[a] - 1)
  }

  lemma {:induction false} ShiftedPositions(threads: seq<ThreadInfo>, p: ThreadInfo -> bool, ks: seq<nat>)
    requires threads != [] && (forall a, b | 0 <= a < b < |ks| :: ks[a] < ks[b])
    requires forall a | 0 <= a < |ks| :: 0 < ks[a] < |threads| && p(threads[ks[a]])
    requires forall i: nat | 0 < i < |threads| && p(threads[i]) :: i in ks
    ensures PositionsOf(threads[1..], p, ShiftDown(ks))
    ensures At(threads[1..], ShiftDown(ks)) == At(threads, ks)
  {
    var down := ShiftDown(ks);
    forall i: nat | i < |threads| - 1 && p(threads[1..][i]) ensures i in down {
      assert threads[i + 1] == threads[1..][i] && i + 1 in ks;
      var a :| 0 <= a < |ks| && ks[a] == i + 1;
      assert down[a] == i;
    }
  }

  lemma {:induction false} FirstPosition(threads: seq<ThreadInfo>, p: ThreadInfo -> bool, ks: seq<nat>)
    requires PositionsOf(threads, p, ks) && threads != [] && p(threads[0])
    ensures ks != [] && ks[0] == 0
    ensures forall a | 0 <= a < |ks[1..]| :: ks[1..][a] > 0
    ensures forall i: nat | 0 < i < |threads| && p(threads[i]) :: i in ks[1..]
    ensures At(threads, ks) == [threads[0]] + At(threads, ks[1..])
  {
    assert 0 in ks && forall b | 0 < b < |ks| :: ks[0] < ks[b];
    var rest := ks[1..];
    assert forall a | 0 <= a < |rest| :: rest[a] == ks[a + 1];
    forall i: nat | 0 < i < |threads| && p(threads[i]) ensures i in rest {
      var a :| 0 <= a < |ks| && ks[a] == i;
      assert rest[a - 1] == i;
    }
  }

  lemma {:induction false} FilterIsAt(threads: seq<ThreadInfo>, p: ThreadInfo -> bool, ks: seq<nat>)
    requires PositionsOf(threads, p, ks)
    ensures Filter(threads, p) == At(threads, ks)
  {
    hide At;
    if threads == [] {
      assert ks == [];
      AtNone(threads);
    } else if p(threads[0]) {
      FirstPosition(threads, p, ks);
      ShiftedPositions(threads, p, ks[1..]);
      FilterIsAt(threads[1..], p, ShiftDown(ks[1..]));
    } else {
      assert forall a | 0 <= a < |ks| :: ks[a] != 0;
      ShiftedPositions(threads, p, ks);
      FilterIsAt(threads[1..], p, ShiftDown(ks));
      AppendEmpty(At(threads, ks));
    }
  }

  lemma {:induction false} AtNone(threads: seq<ThreadInfo>)
    ensures At(threads, []) == []
  {
  }

  function FirstTen(ks: seq<nat>): seq<nat> {
    if |ks| <= 10 then ks else ks[..10]
  }

  lemma {:induction false} LooseIsFree(cs: Charset, threads: seq<ThreadInfo>, reference: string)
    requires Loose(cs, threads, reference)
    ensures !IsFullUuid(reference) && !IsKeyword(Lower(cs, reference)) && !AllDigits(reference)
  {
    hide Lower;
    assert IsFullUuid(reference) ==> UuidShape(reference);
  }

  /** A loose spelling is decided by the conversations it names, in whichever of the four ways. */
  lemma {:induction false} LooseResolves(cs: Charset, threads: seq<ThreadInfo>, threadRef: string, ks: seq<nat>,
      selected: Option<string>, archived: bool)
    requires Loose(cs, threads, Trim(threadRef)) && Positions(cs, threads, Trim(threadRef), ks)
    ensures var reference := Trim(threadRef);
      Resolve(cs, threads, threadRef, selected, archived) ==
        if |ks| == 0 then Err(NotFound(reference))
        else if |ks| == 1 then Ok(threads[ks[0]])
        else Err(Ambiguous(reference, Join(Ids(At(threads, FirstTen(ks))), ", ")))
  {
    hide Trim, RefMap, Lower, Names, Mentions, Loose, Join, Unique, Resolve, Filter, At, FirstTen;
    var reference, refs := Trim(threadRef), RefMap(cs, threads);
    LooseIsUnique(cs, threads, threadRef, selected, archived);
    forall i: nat | i < |threads| ensures Mentions(cs, refs, threads[i], reference) <==> i in ks {
      NamesIsMentions(cs, threads, threads[i], reference);
    }
    assert forall a | 0 <= a < |ks| :: ks[a] in ks;
    FilterIsAt(threads, (t: ThreadInfo) => Mentions(cs, refs, t, reference), ks);
    UniqueAt(threads, ks, reference);
  }

  lemma {:induction false} LooseIsUnique(cs: Charset, threads: seq<ThreadInfo>, threadRef: string,
      selected: Option<string>, archived: bool)
    requires Loose(cs, threads, Trim(threadRef))
    ensures var reference, refs := Trim(threadRef), RefMap(cs, threads);
      Resolve(cs, threads, threadRef, selected, archived) ==
        Unique(Filter(threads, (t: ThreadInfo) => Mentions(cs, refs, t, reference)), reference)
  {
    hide Trim, RefMap, Lower, Mentions, IsFullUuid, IsKeyword, AllDigits, Loose, Unique, AsciiLowerAll;
    LooseIsFree(cs, threads, Trim(threadRef));
    LooseParts(cs, threads, Trim(threadRef));
    NotExact(threads, Trim(threadRef));
  }

  lemma {:induction false} UniqueAt(threads: seq<ThreadInfo>, ks: seq<nat>, reference: string)
    requires forall a | 0 <= a < |ks| :: ks[a] < |threads|
    ensures Unique(At(threads, ks), reference) ==
      if |ks| == 0 then Err(NotFound(reference))
      else if |ks| == 1 then Ok(threads[ks[0]])
      else Err(Ambiguous(reference, Join(Ids(At(threads, FirstTen(ks))), ", ")))
  {
    hide Join;
    assert |ks| > 10 ==> At(threads, ks)[..10] == At(threads, ks[..10]);
  }

  lemma {:induction false} LooseParts(cs: Charset, threads: seq<ThreadInfo>, reference: string)
    requires Loose(cs, threads, reference)
    ensures threads != [] && NoIdIs(threads, reference)
  {
  }

  // ------------------------------------------------------------------ which alias is printed

  /** Every character is alphanumeric or one of `-`, `_`, `.` and `:`. */
  predicate Printable(cs: Charset, alias: string) {
    forall i | 0 <= i < |alias| ::
      cs.alphanumeric(alias[i]) || alias[i] == '-' || alias[i] == '_' || alias[i] == '.' || alias[i] == ':'
  }

  /** No other conversation has this id or folder, up to case. */
  predicate Unclaimed(cs: Charset, threads: seq<ThreadInfo>, i: nat, alias: string)
    requires i < |threads|
  {
    forall j | 0 <= j < |threads| && j != i ::
      Lower(cs, threads[j].id) != Lower(cs, alias) && Lower(cs, WorkspaceName(threads[j])) != Lower(cs, alias)
  }

  /** The conversations up to `i` that run in a folder of the same name, up to case. */
  function SameFolder(cs: Charset, threads: seq<ThreadInfo>, i: nat): set<nat>
    requires i < |threads|
  {
    set j: nat | j <= i && Lower(cs, WorkspaceName(threads[j])) == Lower(cs, WorkspaceName(threads[i]))
  }

  lemma {:induction false} CountIsCardinality(keys: seq<string>, n: nat, key: string)
    requires n <= |keys|
    ensures Count(keys, n, key) == |set j: nat | j < n && keys[j] == key|
  {
    var now := set j: nat | j < n && keys[j] == key;
    if n == 0 {
      assert now == {};
    } else {
      CountIsCardinality(keys, n - 1, key);
      var before := set j: nat | j < n - 1 && keys[j] == key;
      assert n - 1 !in before;
      if keys[n - 1] == key {
        assert now == before + {n - 1};
      } else {
        assert now == before;
      }
    }
  }

  lemma {:induction false} UnclaimedDraftIsPrinted(cs: Charset, threads: seq<ThreadInfo>, i: nat)
    requires DistinctIds(threads) && i < |threads|
    requires Printable(cs, Draft(cs, threads, i)) && Unclaimed(cs, threads, i, Draft(cs, threads, i))
    ensures threads[i].id in RefMap(cs, threads) && RefMap(cs, threads)[threads[i].id] == Draft(cs, threads, i)
  {
    hide Draft, Lower, WorkspaceName, RefMap;
    var draft := Draft(cs, threads, i);
    RefMapAt(cs, threads, i);
    forall j | 0 <= j < |threads| && threads[j].id != threads[i].id
      ensures Lower(cs, threads[j].id) != Lower(cs, draft) && Key(cs, threads[j]) != Lower(cs, draft)
    {
      assert j != i;
    }
    assert AliasText(cs, draft);
  }

  /** A draft that cannot be printed, or that another conversation claims, gives way to the id. */
  lemma {:induction false} ClaimedDraftFallsBack(cs: Charset, threads: seq<ThreadInfo>, i: nat)
    requires DistinctIds(threads) && i < |threads|
    requires !Printable(cs, Draft(cs, threads, i)) || !Unclaimed(cs, threads, i, Draft(cs, threads, i))
    ensures threads[i].id in RefMap(cs, threads) && RefMap(cs, threads)[threads[i].id] == threads[i].id
  {
    hide Draft, Lower, WorkspaceName, RefMap;
    var draft := Draft(cs, threads, i);
    RefMapAt(cs, threads, i);
    if Printable(cs, draft) {
      var j :| 0 <= j < |threads| && j != i
        && (Lower(cs, threads[j].id) == Lower(cs, draft) || Lower(cs, WorkspaceName(threads[j])) == Lower(cs, draft));
      assert threads[j].id != threads[i].id && Key(cs, threads[j]) == Lower(cs, WorkspaceName(threads[j]));
      assert Collides(cs, threads, threads[i].id, draft);
    } else {
      assert !AliasText(cs, draft);
    }
  }

  /** A folder name is written with a character that no id has, and is no keyword. */
  predicate Distinctive(key: string) {
    && key != "other" && key != "next"
    && exists p | 0 <= p < |key| :: !HexDigit(key[p]) && key[p] != '-'
  }

  lemma {:induction false} DistinctiveIsNotReserved(key: string)
    requires Distinctive(key)
    ensures !Reserved(key)
  {
    var p :| 0 <= p < |key| && !HexDigit(key[p]) && key[p] != '-';
    assert !IsDigit(key[p]) && !IsHexDigit(key[p]);
  }

  /** A folder that no other conversation shares gives its name as the alias. */
  lemma {:induction false} LoneFolderGivesItsName(cs: Charset, threads: seq<ThreadInfo>, i: nat)
    requires DistinctIds(threads) && i < |threads|
    requires var name := WorkspaceName(threads[i]);
      Distinctive(Lower(cs, name)) && Printable(cs, name) && Unclaimed(cs, threads, i, name)
    ensures threads[i].id in RefMap(cs, threads) && RefMap(cs, threads)[threads[i].id] == WorkspaceName(threads[i])
  {
    hide Lower, WorkspaceName, RefMap, Distinctive, Reserved;
    var keys := Keys(cs, threads);
    DistinctiveIsNotReserved(keys[i]);
    CountIsCardinality(keys, |keys|, keys[i]);
    assert (set j: nat | j < |keys| && keys[j] == keys[i]) == {i};
    assert Draft(cs, threads, i) == WorkspaceName(threads[i]);
    UnclaimedDraftIsPrinted(cs, threads, i);
  }

  /** Conversations that share a folder name are numbered in the order of the list. */
  lemma {:induction false} SharedFolderIsNumbered(cs: Charset, threads: seq<ThreadInfo>, i: nat, other: nat)
    requires DistinctIds(threads) && i < |threads| && other < |threads| && other != i
    requires Lower(cs, WorkspaceName(threads[i])) == Lower(cs, WorkspaceName(threads[other]))
    requires var alias := WorkspaceName(threads[i]) + ":" + Decimal(|SameFolder(cs, threads, i)|);
      Printable(cs, alias) && Unclaimed(cs, threads, i, alias)
    ensures threads[i].id in RefMap(cs, threads)
    ensures RefMap(cs, threads)[threads[i].id] ==
      WorkspaceName(threads[i]) + ":" + Decimal(|SameFolder(cs, threads, i)|)
  {
    hide Lower, WorkspaceName, RefMap, Reserved, Decimal;
    var keys := Keys(cs, threads);
    if other < i {
      SharedNamesAreNumberedApart(keys, other, i);
    } else {
      SharedNamesAreNumberedApart(keys, i, other);
    }
    CountIsCardinality(keys, i + 1, keys[i]);
    assert (set j: nat | j < i + 1 && keys[j] == keys[i]) == SameFolder(cs, threads, i);
    UnclaimedDraftIsPrinted(cs, threads, i);
  }

  // ------------------------------------------------------------------ folder names

  /** The folder is the last component of the working directory, whatever surrounds it. */
  lemma {:induction false} FolderName(id: string, margin: string, dir: string, name: string, trailing: string,
      after: string)
    requires Blank(margin) && Blank(after) && IsName(name) && (dir == [] || IsSeparator(dir[|dir| - 1]))
    requires forall i | 0 <= i < |trailing| :: IsSeparator(trailing[i])
    requires Tight(dir + name + trailing) && !(EXTENDED <= dir + name + trailing)
    ensures WorkspaceName(ThreadInfo(id, margin + (dir + name + trailing) + after)) == name
  {
    hide Trim;
    var path := dir + name + trailing;
    TrimUnique(margin, path, after);
    TrimTight(path);
    NoExtendedPrefix(path);
    LastNameIs(dir, name, trailing);
  }

  lemma {:induction false} NoExtendedPrefix(path: string)
    requires Tight(path) && !(EXTENDED <= path)
    ensures StripExtendedPrefix(path) == path
  {
    TrimTight(path);
    ShareHasExtendedPrefix(path);
  }

  lemma {:induction false} ShareHasExtendedPrefix(path: string)
    ensures EXTENDED_UNC <= path ==> EXTENDED <= path
  {
    assert EXTENDED_UNC[..4] == EXTENDED;
    assert EXTENDED_UNC <= path ==> path[..4] == EXTENDED_UNC[..4];
  }

  /** A conversation without a working directory is in "-", one at the root in "/". */
  lemma {:induction false} FolderOfNowhere(id: string)
    ensures WorkspaceName(ThreadInfo(id, "")) == "-" && WorkspaceName(ThreadInfo(id, "/")) == "/"
  {
    TrimTight("");
    TrimTight("/");
    assert LastName("/") == LastName("/"[..0]);
  }

  /** Two backslashes, a question mark and a backslash. */
  const LONG_PREFIX: string := ['\\', '\\', '?', '\\']

  const SHARE_PREFIX: string := ['U', 'N', 'C', '\\']

  /** The Windows extended-length prefixes are dropped; that of a share keeps its two backslashes. */
  lemma {:induction false} ExtendedPrefixIsDropped(rest: string)
    requires rest != [] && Tight(rest)
    ensures StripExtendedPrefix(LONG_PREFIX + SHARE_PREFIX + rest) == ['\\', '\\'] + rest
    ensures !(SHARE_PREFIX <= rest) ==> StripExtendedPrefix(LONG_PREFIX + rest) == rest
  {
    hide Trim;
    PrefixedIsTight(LONG_PREFIX + SHARE_PREFIX, rest);
    PrefixedIsTight(LONG_PREFIX, rest);
    assert LONG_PREFIX + SHARE_PREFIX == EXTENDED_UNC && LONG_PREFIX == EXTENDED;
    assert (EXTENDED_UNC + rest)[8..] == rest && (EXTENDED + rest)[4..] == rest;
    LocalIsNoShare(rest);
  }

  lemma {:induction false} PrefixedIsTight(prefix: string, rest: string)
    requires prefix != [] && !IsWhitespace(prefix[0]) && rest != [] && Tight(rest)
    ensures Trim(prefix + rest) == prefix + rest
  {
    assert (prefix + rest)[|prefix + rest| - 1] == rest[|rest| - 1];
    TrimTight(prefix + rest);
  }

  lemma {:induction false} LocalIsNoShare(rest: string)
    ensures EXTENDED_UNC <= EXTENDED + rest ==> SHARE_PREFIX <= rest
  {
    var local := EXTENDED + rest;
    assert EXTENDED_UNC <= local ==> local[4..8] == EXTENDED_UNC[4..8] == SHARE_PREFIX;
    assert |rest| >= 4 ==> rest[..4] == local[4..8];
  }
}
