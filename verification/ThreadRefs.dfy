/**
 Conversation references (crates/cdr-codex-state/src/thread_ref.rs): the aliases
 printed for conversations and the resolver that reads them back.
 */
module ThreadRefs {
  import opened Options
  import opened Text
  import opened WorkspacePaths

  datatype ThreadInfo = ThreadInfo(id: string, cwd: string)

  datatype ResolveError =
    | NoThreads(archived: bool)
    | NoAlternate
    | IndexOutOfRange(reference: string, archived: bool)
    | Ambiguous(reference: string, options: string)
    | NotFound(reference: string)

  // ------------------------------------------------------------------ characters

  /** The character tables of the platform: lower-casing, one character at a time, and the alphanumeric class. */
  datatype Charset = Charset(lower: char -> string, alphanumeric: char -> bool)

  /**
   What the Unicode tables guarantee: ASCII lower-casing, and no white space or
   path separator that is alphanumeric.
   */
  ghost predicate Admissible(cs: Charset) {
    && (forall c: char | c as int < 128 :: cs.lower(c) == [AsciiLower(c)])
    && (forall c: char | cs.alphanumeric(c) :: !IsWhitespace(c) && c != '/' && c != '\\')
  }

  function Lower(cs: Charset, s: string): string {
    if s == [] then [] else cs.lower(s[0]) + Lower(cs, s[1..])
  }

  predicate IsHexDigit(c: char) { IsDigit(c) || 'a' <= c <= 'f' || 'A' <= c <= 'F' }

  predicate IsFullUuid(s: string) {
    |s| == 36 && forall i | 0 <= i < 36 :: if i in {8, 13, 18, 23} then s[i] == '-' else IsHexDigit(s[i])
  }

  predicate IsShortId(s: string) {
    |s| >= 4 && forall i | 0 <= i < |s| :: IsHexDigit(s[i]) || s[i] == '-'
  }

  predicate IsKeyword(s: string) { s == "other" || s == "next" }

  predicate Reserved(s: string) {
    IsKeyword(s) || AllDigits(s) || IsFullUuid(s) || IsShortId(s)
  }

  lemma {:induction false} LowerAppend(cs: Charset, a: string, b: string)
    ensures Lower(cs, a + b) == Lower(cs, a) + Lower(cs, b)
  {
    if a == [] {
      assert a + b == b;
    } else {
      LowerAppend(cs, a[1..], b);
      assert (a + b)[1..] == a[1..] + b;
    }
  }

  lemma {:induction false} LowerAscii(cs: Charset, s: string)
    requires Admissible(cs) && forall i | 0 <= i < |s| :: s[i] as int < 128
    ensures Lower(cs, s) == AsciiLowerAll(s)
  {
    if s == [] {
    } else {
      LowerAscii(cs, s[1..]);
    }
  }

  /** A name that reads as an id, an index or a UUID still does so after lower-casing. */
  lemma {:induction false} ReservedShapesSurviveLower(cs: Charset, s: string)
    requires Admissible(cs) && (AllDigits(s) || IsFullUuid(s) || IsShortId(s))
    ensures Reserved(Lower(cs, s))
  {
    if IsFullUuid(s) {
      assert IsShortId(s);
    }
    LowerAscii(cs, s);
  }

  // ------------------------------------------------------------------ folder names

  predicate IsSeparator(c: char) { c == '/' || c == '\\' }

  /** The longest suffix without a separator. */
  function LastStretch(s: string): string {
    if s == [] || IsSeparator(s[|s| - 1]) then [] else LastStretch(s[..|s| - 1]) + [s[|s| - 1]]
  }

  /** The last non-empty stretch between separators, empty if there is none. */
  function LastName(s: string): string {
    if s == [] then [] else if IsSeparator(s[|s| - 1]) then LastName(s[..|s| - 1]) else LastStretch(s)
  }

  /** `workspace_name`: the folder a conversation runs in. */
  function WorkspaceName(t: ThreadInfo): (name: string)
    ensures name != []
  {
    var cwd := StripExtendedPrefix(Trim(t.cwd));
    if LastName(cwd) != [] then LastName(cwd) else if cwd == [] then "-" else cwd
  }

  predicate IsName(s: string) {
    s != [] && forall i | 0 <= i < |s| :: !IsSeparator(s[i])
  }

  lemma {:induction false} LastStretchIs(dir: string, name: string)
    requires forall i | 0 <= i < |name| :: !IsSeparator(name[i])
    requires dir == [] || IsSeparator(dir[|dir| - 1])
    ensures LastStretch(dir + name) == name
  {
    if name == [] {
      assert dir + name == dir;
    } else {
      var n := |name| - 1;
      assert (dir + name)[..|dir + name| - 1] == dir + name[..n];
      LastStretchIs(dir, name[..n]);
    }
  }

  /** The folder name is the last component, however many separators follow it. */
  lemma {:induction false} LastNameIs(dir: string, name: string, trailing: string)
    requires IsName(name) && (dir == [] || IsSeparator(dir[|dir| - 1]))
    requires forall i | 0 <= i < |trailing| :: IsSeparator(trailing[i])
    ensures LastName(dir + name + trailing) == name
    decreases |trailing|
  {
    var s := dir + name + trailing;
    if trailing == [] {
      assert s == dir + name;
      assert s[|s| - 1] == name[|name| - 1];
      LastStretchIs(dir, name);
    } else {
      var n := |trailing| - 1;
      assert s[|s| - 1] == trailing[n];
      assert s[..|s| - 1] == dir + name + trailing[..n];
      LastNameIs(dir, name, trailing[..n]);
    }
  }

  // ------------------------------------------------------------------ the alias printer

  function Key(cs: Charset, t: ThreadInfo): string { Lower(cs, WorkspaceName(t)) }

  function Ids(threads: seq<ThreadInfo>): seq<string> {
    seq(|threads|, i requires 0 <= i < |threads| => threads[i].id)
  }

  function Names(threads: seq<ThreadInfo>): seq<string> {
    seq(|threads|, i requires 0 <= i < |threads| => WorkspaceName(threads[i]))
  }

  function Keys(cs: Charset, threads: seq<ThreadInfo>): seq<string> {
    seq(|threads|, i requires 0 <= i < |threads| => Key(cs, threads[i]))
  }

  /** How many of the first `n` keys are `key`. */
  function Count(keys: seq<string>, n: nat, key: string): nat
    requires n <= |keys|
  {
    if n == 0 then 0 else Count(keys, n - 1, key) + if keys[n - 1] == key then 1 else 0
  }

  predicate Numbered(keys: seq<string>, i: nat)
    requires i < |keys|
  {
    Reserved(keys[i]) || Count(keys, |keys|, keys[i]) > 1
  }

  /** The first-pass alias: the folder name, numbered when it is reserved or shared. */
  function DraftOf(name: string, keys: seq<string>, i: nat): string
    requires i < |keys|
  {
    if Numbered(keys, i) then name + ":" + Decimal(Count(keys, i + 1, keys[i])) else name
  }

  function Draft(cs: Charset, threads: seq<ThreadInfo>, i: nat): string
    requires i < |threads|
  {
    DraftOf(WorkspaceName(threads[i]), Keys(cs, threads), i)
  }

  /** The first `n` values filed under their ids; a repeated id keeps the last. */
  function FileUnder(ids: seq<string>, values: seq<string>, n: nat): map<string, string>
    requires n <= |ids| && n <= |values|
  {
    if n == 0 then map[] else FileUnder(ids, values, n - 1)[ids[n - 1] := values[n - 1]]
  }

  predicate AliasText(cs: Charset, alias: string) {
    forall i | 0 <= i < |alias| :: cs.alphanumeric(alias[i]) || alias[i] in {'-', '_', '.', ':'}
  }

  /** The alias is unprintable, or spells another conversation's id or folder. */
  predicate Collides(cs: Charset, threads: seq<ThreadInfo>, id: string, alias: string) {
    || !AliasText(cs, alias)
    || exists j | 0 <= j < |threads| ::
         && threads[j].id != id
         && (Lower(cs, threads[j].id) == Lower(cs, alias) || Key(cs, threads[j]) == Lower(cs, alias))
  }

  /** Second pass: a colliding alias falls back to the conversation's own id. */
  function RefMap(cs: Charset, threads: seq<ThreadInfo>): map<string, string> {
    var drafts := FileUnder(Ids(threads), DraftNames(Names(threads), Keys(cs, threads)), |threads|);
    map id | id in drafts :: Repair(cs, threads, id, drafts[id])
  }

  /** The counter map after the first `n` keys. */
  ghost predicate Tallies(counts: map<string, nat>, keys: seq<string>, n: nat)
    requires n <= |keys|
  {
    forall k: string :: (k in counts <==> Count(keys, n, k) > 0) && (k in counts ==> counts[k] == Count(keys, n, k))
  }

  function Bump(counts: map<string, nat>, key: string): map<string, nat> {
    counts[key := if key in counts then counts[key] + 1 else 1]
  }

  lemma {:induction false} BumpTallies(counts: map<string, nat>, keys: seq<string>, n: nat)
    requires n < |keys| && Tallies(counts, keys, n)
    ensures Tallies(Bump(counts, keys[n]), keys, n + 1)
  {
    forall k: string
      ensures (k in Bump(counts, keys[n]) <==> Count(keys, n + 1, k) > 0)
      ensures k in Bump(counts, keys[n]) ==> Bump(counts, keys[n])[k] == Count(keys, n + 1, k)
    {
      assert k in counts <==> Count(keys, n, k) > 0;
    }
  }

  method Totals(keys: seq<string>) returns (totals: map<string, nat>)
    ensures Tallies(totals, keys, |keys|)
  {
    totals := map[];
    for i := 0 to |keys|
      invariant Tallies(totals, keys, i)
    {
      BumpTallies(totals, keys, i);
      totals := Bump(totals, keys[i]);
    }
  }

  function DraftNames(names: seq<string>, keys: seq<string>): seq<string>
    requires |names| == |keys|
  {
    seq(|names|, i requires 0 <= i < |names| => DraftOf(names[i], keys, i))
  }

  method FirstPass(ids: seq<string>, names: seq<string>, keys: seq<string>, totals: map<string, nat>)
    returns (drafts: map<string, string>)
    requires |ids| == |names| == |keys| && Tallies(totals, keys, |keys|)
    ensures drafts == FileUnder(ids, DraftNames(names, keys), |ids|)
  {
    var seen: map<string, nat> := map[];
    drafts := map[];
    for i := 0 to |ids|
      invariant Tallies(seen, keys, i)
      invariant drafts == FileUnder(ids, DraftNames(names, keys), i)
    {
      var key := keys[i];
      BumpTallies(seen, keys, i);
      seen := Bump(seen, key);
      var total := if key in totals then totals[key] else 0;
      assert total == Count(keys, |keys|, key) && seen[key] == Count(keys, i + 1, key);
      var reference := if Reserved(key) || total > 1 then names[i] + ":" + Decimal(seen[key]) else names[i];
      drafts := drafts[ids[i] := reference];
    }
  }

  function Repair(cs: Charset, threads: seq<ThreadInfo>, id: string, alias: string): string {
    if Collides(cs, threads, id, alias) then id else alias
  }

  method SecondPass(cs: Charset, threads: seq<ThreadInfo>, drafts: map<string, string>)
    returns (refs: map<string, string>)
    ensures refs == map id | id in drafts :: Repair(cs, threads, id, drafts[id])
  {
    refs := map[];
    var todo := drafts.Keys;
    while todo != {}
      invariant todo <= drafts.Keys && refs.Keys == drafts.Keys - todo
      invariant forall id | id in refs :: refs[id] == Repair(cs, threads, id, drafts[id])
      decreases |todo|
    {
      var id :| id in todo;
      refs := refs[id := Repair(cs, threads, id, drafts[id])];
      todo := todo - {id};
    }
  }

  /** `workspace_ref_map`. */
  method WorkspaceRefMap(cs: Charset, threads: seq<ThreadInfo>) returns (refs: map<string, string>)
    ensures refs == RefMap(cs, threads)
  {
    var totals := Totals(Keys(cs, threads));
    var drafts := FirstPass(Ids(threads), Names(threads), Keys(cs, threads), totals);
    refs := SecondPass(cs, threads, drafts);
  }

  // ------------------------------------------------------------------ the resolver

  function FindFirst(threads: seq<ThreadInfo>, p: ThreadInfo -> bool): Option<ThreadInfo> {
    if threads == [] then None else if p(threads[0]) then Some(threads[0]) else FindFirst(threads[1..], p)
  }

  function Filter(threads: seq<ThreadInfo>, p: ThreadInfo -> bool): seq<ThreadInfo> {
    if threads == [] then [] else (if p(threads[0]) then [threads[0]] else []) + Filter(threads[1..], p)
  }

  function OrElse<E>(found: Option<ThreadInfo>, error: E): Result<ThreadInfo, E> {
    if found.Some? then Ok(found.value) else Err(error)
  }

  const USIZE_LIMIT: nat := 0x1_0000_0000_0000_0000

  /** A decimal index; one that does not fit a machine word reads as zero. */
  function ParseIndex(reference: string): nat
    requires AllDigits(reference)
  {
    if Numeral(reference) < USIZE_LIMIT then Numeral(reference) else 0
  }

  /** The spelling names this conversation in one of the four free namespaces. */
  predicate Mentions(cs: Charset, refs: map<string, string>, t: ThreadInfo, reference: string) {
    var normalized := Lower(cs, reference);
    || (IsShortId(reference) && normalized <= Lower(cs, t.id))
    || (t.id in refs && Lower(cs, refs[t.id]) == normalized)
    || Normalized(t.cwd) == Normalized(reference)
    || Key(cs, t) == normalized
  }

  /** `unique_reference`, with the final not-found error. */
  function Unique(matches: seq<ThreadInfo>, reference: string): Result<ThreadInfo, ResolveError> {
    if matches == [] then Err(NotFound(reference))
    else if |matches| == 1 then Ok(matches[0])
    else Err(Ambiguous(reference, Join(Ids(if |matches| <= 10 then matches else matches[..10]), ", ")))
  }

  /** `resolve_thread_ref`. */
  function Resolve(cs: Charset, threads: seq<ThreadInfo>, threadRef: string, selected: Option<string>, archived: bool)
    : Result<ThreadInfo, ResolveError>
  {
    var reference := Trim(threadRef);
    var exact := FindFirst(threads, (t: ThreadInfo) => t.id == reference);
    if threads == [] then Err(NoThreads(archived))
    else if exact.Some? then Ok(exact.value)
    else if IsFullUuid(reference) then
      OrElse(FindFirst(threads, (t: ThreadInfo) => AsciiLowerAll(t.id) == AsciiLowerAll(reference)),
          NotFound(reference))
    else if IsKeyword(Lower(cs, reference)) then
      OrElse(FindFirst(threads, (t: ThreadInfo) => Some(t.id) != selected), NoAlternate)
    else if AllDigits(reference) then
      var index := ParseIndex(reference);
      if 0 < index <= |threads| then Ok(threads[index - 1]) else Err(IndexOutOfRange(reference, archived))
    else
      var refs := RefMap(cs, threads);
      Unique(Filter(threads, (t: ThreadInfo) => Mentions(cs, refs, t, reference)), reference)
  }

  // ------------------------------------------------------------------ aliases read back

  ghost predicate DistinctIds(threads: seq<ThreadInfo>) {
    forall i, j | 0 <= i < j < |threads| :: threads[i].id != threads[j].id
  }

  ghost predicate TrimmedIds(threads: seq<ThreadInfo>) {
    forall i | 0 <= i < |threads| :: Tight(threads[i].id)
  }

  lemma {:induction false} FiledAt(ids: seq<string>, values: seq<string>, n: nat, i: nat)
    requires i < n <= |ids| && n <= |values| && forall j | i < j < n :: ids[j] != ids[i]
    ensures ids[i] in FileUnder(ids, values, n) && FileUnder(ids, values, n)[ids[i]] == values[i]
  {
    if i < n - 1 {
      FiledAt(ids, values, n - 1, i);
    }
  }

  /** The alias printed for the i-th conversation. */
  function Alias(cs: Charset, threads: seq<ThreadInfo>, i: nat): string
    requires i < |threads|
  {
    Repair(cs, threads, threads[i].id, Draft(cs, threads, i))
  }

  lemma {:induction false} RefMapAt(cs: Charset, threads: seq<ThreadInfo>, i: nat)
    requires DistinctIds(threads) && i < |threads|
    ensures threads[i].id in RefMap(cs, threads) && RefMap(cs, threads)[threads[i].id] == Alias(cs, threads, i)
  {
    FiledAt(Ids(threads), DraftNames(Names(threads), Keys(cs, threads)), |threads|, i);
  }

  lemma {:induction false} CountGrows(keys: seq<string>, m: nat, n: nat, key: string)
    requires m <= n <= |keys|
    ensures Count(keys, m, key) <= Count(keys, n, key)
    decreases n
  {
    if m < n {
      CountGrows(keys, m, n - 1, key);
    }
  }

  /** Conversations of one folder name get different numbers, and the name counts as shared. */
  lemma {:induction false} SharedNamesAreNumberedApart(keys: seq<string>, i: nat, j: nat)
    requires i < j < |keys| && keys[i] == keys[j]
    ensures Numbered(keys, i) && Numbered(keys, j)
    ensures Count(keys, i + 1, keys[i]) < Count(keys, j + 1, keys[j])
  {
    CountGrows(keys, i + 1, j, keys[i]);
    CountGrows(keys, j + 1, |keys|, keys[i]);
  }

  lemma {:induction false} LastColonUnique(key1: string, n1: string, key2: string, n2: string)
    requires AllDigits(n1) && AllDigits(n2) && key1 + ":" + n1 == key2 + ":" + n2
    ensures key1 == key2 && n1 == n2
  {
    var s := key1 + ":" + n1;
    assert s[|key1|] == ':' && s[|key2|] == ':';
    assert forall p | |key1| < p < |s| :: s[p] == n1[p - |key1| - 1];
    assert forall p | |key2| < p < |s| :: s[p] == n2[p - |key2| - 1];
    assert |key1| == |key2|;
    assert key1 == s[..|key1|] && key2 == s[..|key2|];
    assert n1 == s[|key1| + 1..] && n2 == s[|key2| + 1..];
  }

  lemma {:induction false} LowerNumbered(cs: Charset, name: string, n: nat)
    requires Admissible(cs)
    ensures Lower(cs, name + ":" + Decimal(n)) == Lower(cs, name) + ":" + Decimal(n)
  {
    LowerAppend(cs, name + ":", Decimal(n));
    LowerAppend(cs, name, ":");
    LowerAscii(cs, ":");
    LowerAscii(cs, Decimal(n));
    assert AsciiLowerAll(Decimal(n)) == Decimal(n);
    assert AsciiLowerAll(":") == ":";
  }

  /** First-pass aliases that are both numbered, or both bare, never agree up to case. */
  lemma {:induction false} DraftsDiffer(cs: Charset, threads: seq<ThreadInfo>, i: nat, j: nat)
    requires Admissible(cs) && i < j < |threads| && Numbered(Keys(cs, threads), i) == Numbered(Keys(cs, threads), j)
    ensures Lower(cs, Draft(cs, threads, i)) != Lower(cs, Draft(cs, threads, j))
  {
    var keys := Keys(cs, threads);
    if keys[i] == keys[j] {
      SharedNamesAreNumberedApart(keys, i, j);
    }
    if Numbered(keys, i) {
      var m, n := Count(keys, i + 1, keys[i]), Count(keys, j + 1, keys[j]);
      LowerNumbered(cs, WorkspaceName(threads[i]), m);
      LowerNumbered(cs, WorkspaceName(threads[j]), n);
      NumeralDecimal(m);
      NumeralDecimal(n);
      if Lower(cs, Draft(cs, threads, i)) == Lower(cs, Draft(cs, threads, j)) {
        LastColonUnique(keys[i], Decimal(m), keys[j], Decimal(n));
      }
    }
  }

  /** The text is not read as a keyword, an index, a UUID or an id prefix. */
  predicate Free(cs: Charset, d: string) {
    d != [] && !IsKeyword(Lower(cs, d)) && !AllDigits(d) && !IsFullUuid(d) && !IsShortId(d)
  }

  lemma {:induction false} NumberedIsFree(cs: Charset, name: string, n: nat)
    requires Admissible(cs)
    ensures Free(cs, name + ":" + Decimal(n))
  {
    var d := name + ":" + Decimal(n);
    LowerNumbered(cs, name, n);
    assert d[|name|] == ':';
    assert Lower(cs, d)[|Lower(cs, name)|] == ':';
  }

  lemma {:induction false} BareIsFree(cs: Charset, name: string)
    requires Admissible(cs) && name != [] && !Reserved(Lower(cs, name))
    ensures Free(cs, name)
  {
    if AllDigits(name) || IsFullUuid(name) || IsShortId(name) {
      ReservedShapesSurviveLower(cs, name);
    }
  }

  lemma {:induction false} DraftIsFree(cs: Charset, threads: seq<ThreadInfo>, i: nat)
    requires Admissible(cs) && i < |threads|
    ensures Free(cs, Draft(cs, threads, i))
  {
    var name, keys := WorkspaceName(threads[i]), Keys(cs, threads);
    if Numbered(keys, i) {
      NumberedIsFree(cs, name, Count(keys, i + 1, keys[i]));
    } else {
      assert keys[i] == Lower(cs, name);
      BareIsFree(cs, name);
    }
  }

  /**
   An alias that is not its conversation's own id differs, up to case, from the
   id, the folder name and the alias of every other conversation.
   */
  lemma {:induction false} AliasStandsApart(cs: Charset, threads: seq<ThreadInfo>, i: nat, j: nat)
    requires Admissible(cs) && DistinctIds(threads) && i < |threads| && j < |threads| && i != j
    requires Alias(cs, threads, i) != threads[i].id
    ensures var alias := Lower(cs, Alias(cs, threads, i));
      alias != Lower(cs, threads[j].id) && alias != Key(cs, threads[j]) && alias != Lower(cs, Alias(cs, threads, j))
  {
    hide WorkspaceName, Lower, Reserved, AliasText;
    var d, e := Draft(cs, threads, i), Draft(cs, threads, j);
    assert threads[i].id != threads[j].id;
    assert Lower(cs, threads[j].id) != Lower(cs, d) && Key(cs, threads[j]) != Lower(cs, d);
    if Alias(cs, threads, j) != threads[j].id {
      if Numbered(Keys(cs, threads), i) == Numbered(Keys(cs, threads), j) {
        if i < j { DraftsDiffer(cs, threads, i, j); } else { DraftsDiffer(cs, threads, j, i); }
      } else {
        assert Key(cs, threads[i]) != Lower(cs, e);
      }
    }
  }

  /** Printed aliases are pairwise distinct. */
  lemma {:induction false} AliasesAreDistinct(cs: Charset, threads: seq<ThreadInfo>, i: nat, j: nat)
    requires Admissible(cs) && DistinctIds(threads) && i < j < |threads|
    ensures Alias(cs, threads, i) != Alias(cs, threads, j)
  {
    if Alias(cs, threads, i) != threads[i].id {
      AliasStandsApart(cs, threads, i, j);
    } else if Alias(cs, threads, j) != threads[j].id {
      AliasStandsApart(cs, threads, j, i);
    }
  }

  lemma {:induction false} FindFirstOnly(threads: seq<ThreadInfo>, p: ThreadInfo -> bool, i: nat)
    requires i < |threads| && forall j | 0 <= j < |threads| :: p(threads[j]) <==> threads[j] == threads[i]
    ensures FindFirst(threads, p) == Some(threads[i])
  {
    if !p(threads[0]) {
      FindFirstOnly(threads[1..], p, i - 1);
    }
  }

  lemma {:induction false} FindFirstNone(threads: seq<ThreadInfo>, p: ThreadInfo -> bool)
    requires forall j | 0 <= j < |threads| :: !p(threads[j])
    ensures FindFirst(threads, p) == None
  {
    if threads == [] {
    } else {
      FindFirstNone(threads[1..], p);
    }
  }

  lemma {:induction false} FilterNone(threads: seq<ThreadInfo>, p: ThreadInfo -> bool)
    requires forall j | 0 <= j < |threads| :: !p(threads[j])
    ensures Filter(threads, p) == []
  {
    if threads == [] {
    } else {
      FilterNone(threads[1..], p);
    }
  }

  lemma {:induction false} FilterHas(threads: seq<ThreadInfo>, p: ThreadInfo -> bool, i: nat)
    requires i < |threads| && p(threads[i])
    ensures |Filter(threads, p)| >= 1
  {
    if i == 0 {
    } else {
      FilterHas(threads[1..], p, i - 1);
    }
  }

  /** A filter keeps just the i-th element exactly when no other element passes it. */
  lemma {:induction false} FilterSingle(threads: seq<ThreadInfo>, p: ThreadInfo -> bool, i: nat)
    requires i < |threads| && p(threads[i])
    ensures |Filter(threads, p)| == 1 <==> forall j | 0 <= j < |threads| && j != i :: !p(threads[j])
    ensures |Filter(threads, p)| == 1 ==> Filter(threads, p) == [threads[i]]
  {
    var rest := threads[1..];
    assert forall j | 0 < j < |threads| :: threads[j] == rest[j - 1];
    if i == 0 {
      if forall j | 0 <= j < |rest| :: !p(rest[j]) {
        FilterNone(rest, p);
      } else {
        var j :| 0 <= j < |rest| && p(rest[j]);
        FilterHas(rest, p, j);
        assert p(threads[j + 1]);
      }
    } else {
      FilterSingle(rest, p, i - 1);
      FilterHas(rest, p, i - 1);
      assert p(threads[0]) || forall j | 0 <= j < |threads| && j != i :: p(threads[j]) ==> p(rest[j - 1]);
      assert forall j | 0 <= j < |rest| && j != i - 1 :: threads[j + 1] == rest[j];
    }
  }

  lemma {:induction false} FilterPasses(threads: seq<ThreadInfo>, p: ThreadInfo -> bool, k: nat)
    requires k < |Filter(threads, p)|
    ensures Filter(threads, p)[k] in threads && p(Filter(threads, p)[k])
  {
    if p(threads[0]) {
      if k > 0 { FilterPasses(threads[1..], p, k - 1); }
    } else {
      FilterPasses(threads[1..], p, k);
    }
  }

  /**
   A spelling outside the id, keyword and index namespaces selects a conversation
   exactly when that conversation, and no other, is mentioned by it.
   */
  lemma {:induction false} FreeSpellingSelectsTheOnlyMention(cs: Charset, threads: seq<ThreadInfo>,
      threadRef: string, i: nat, selected: Option<string>, archived: bool)
    requires DistinctIds(threads) && i < |threads|
    requires var reference := Trim(threadRef);
      && (forall j | 0 <= j < |threads| :: threads[j].id != reference)
      && !IsFullUuid(reference) && !IsKeyword(Lower(cs, reference)) && !AllDigits(reference)
    ensures Resolve(cs, threads, threadRef, selected, archived) == Ok(threads[i])
      <==> forall j | 0 <= j < |threads| :: Mentions(cs, RefMap(cs, threads), threads[j], Trim(threadRef)) <==> i == j
  {
    var reference, refs := Trim(threadRef), RefMap(cs, threads);
    FindFirstNone(threads, (t: ThreadInfo) => t.id == reference);
    var p := (t: ThreadInfo) => Mentions(cs, refs, t, reference);
    var matches := Filter(threads, p);
    assert Resolve(cs, threads, threadRef, selected, archived) == Unique(matches, reference);
    if p(threads[i]) {
      FilterSingle(threads, p, i);
    } else if |matches| == 1 {
      FilterPasses(threads, p, 0);
      assert matches[0] != threads[i];
    }
  }

  lemma {:induction false} AliasTextIsTight(cs: Charset, alias: string)
    requires Admissible(cs) && alias != [] && AliasText(cs, alias)
    ensures Tight(alias) && '/' !in alias && '\\' !in alias
  {
  }

  /** Only the conversation itself and conversations reached by path can answer to an alias that is not an id. */
  lemma {:induction false} AliasMentions(cs: Charset, threads: seq<ThreadInfo>, i: nat, j: nat)
    requires Admissible(cs) && DistinctIds(threads) && i < |threads| && j < |threads|
    requires Alias(cs, threads, i) != threads[i].id
    ensures Mentions(cs, RefMap(cs, threads), threads[j], Alias(cs, threads, i))
            <==> i == j || Normalized(threads[j].cwd) == Normalized(Alias(cs, threads, i))
  {
    RefMapAt(cs, threads, j);
    DraftIsFree(cs, threads, i);
    if i != j {
      AliasStandsApart(cs, threads, i, j);
    }
  }

  /** No other conversation's working directory is a spelling of the alias read as a path. */
  ghost predicate PathIsFree(threads: seq<ThreadInfo>, i: nat, alias: string)
    requires i < |threads|
  {
    forall j | 0 <= j < |threads| && j != i :: Normalized(threads[j].cwd) != Normalized(alias)
  }

  lemma {:induction false} IdResolves(cs: Charset, threads: seq<ThreadInfo>, i: nat, selected: Option<string>,
      archived: bool)
    requires DistinctIds(threads) && TrimmedIds(threads) && i < |threads|
    ensures Resolve(cs, threads, threads[i].id, selected, archived) == Ok(threads[i])
  {
    var id := threads[i].id;
    TrimTight(id);
    FindFirstOnly(threads, (t: ThreadInfo) => t.id == id, i);
  }

  /**
   Round trip: the printed alias resolves to its own conversation exactly when it
   is the id or no other working directory normalizes to the alias as a path.
   */
  lemma {:induction false} AliasRoundTrip(cs: Charset, threads: seq<ThreadInfo>, i: nat, selected: Option<string>,
      archived: bool)
    requires Admissible(cs) && DistinctIds(threads) && TrimmedIds(threads) && i < |threads|
    ensures threads[i].id in RefMap(cs, threads)
    ensures var alias := RefMap(cs, threads)[threads[i].id];
      Resolve(cs, threads, alias, selected, archived) == Ok(threads[i])
      <==> alias == threads[i].id || PathIsFree(threads, i, alias)
  {
    RefMapAt(cs, threads, i);
    var alias, refs := Alias(cs, threads, i), RefMap(cs, threads);
    if alias == threads[i].id {
      IdResolves(cs, threads, i, selected, archived);
    } else {
      DraftIsFree(cs, threads, i);
      AliasTextIsTight(cs, alias);
      TrimTight(alias);
      forall j | 0 <= j < |threads| ensures threads[j].id != alias {
        if j != i { AliasStandsApart(cs, threads, i, j); }
      }
      FindFirstNone(threads, (t: ThreadInfo) => t.id == alias);
      forall j | 0 <= j < |threads|
        ensures Mentions(cs, refs, threads[j], alias) <==> i == j || Normalized(threads[j].cwd) == Normalized(alias)
      {
        AliasMentions(cs, threads, i, j);
      }
      FilterSingle(threads, (t: ThreadInfo) => Mentions(cs, refs, t, alias), i);
    }
  }

  /** With absolute working directories every printed alias resolves to its own conversation. */
  lemma {:induction false} AliasRoundTripAbsolute(cs: Charset, threads: seq<ThreadInfo>, i: nat,
      selected: Option<string>, archived: bool)
    requires Admissible(cs) && DistinctIds(threads) && TrimmedIds(threads) && i < |threads|
    requires forall j | 0 <= j < |threads| :: Absolute(threads[j].cwd)
    ensures threads[i].id in RefMap(cs, threads)
    ensures Resolve(cs, threads, RefMap(cs, threads)[threads[i].id], selected, archived) == Ok(threads[i])
  {
    AliasRoundTrip(cs, threads, i, selected, archived);
    RefMapAt(cs, threads, i);
    var alias := Alias(cs, threads, i);
    if alias != threads[i].id {
      DraftIsFree(cs, threads, i);
      AliasTextIsTight(cs, alias);
      forall j | 0 <= j < |threads| && j != i ensures Normalized(threads[j].cwd) != Normalized(alias) {
        NameIsNotAbsolute(alias, threads[j].cwd);
      }
    }
  }

  lemma {:induction false} NameInFolder(dir: string, name: string, id: string)
    requires IsName(name) && Tight(dir + name) && dir != [] && dir[0] != '\\' && IsSeparator(dir[|dir| - 1])
    ensures WorkspaceName(ThreadInfo(id, dir + name)) == name
    ensures StripExtendedPrefix(dir + name) == dir + name
  {
    TrimTight(dir + name);
    assert (dir + name)[0] == dir[0];
    LastNameIs(dir, name, []);
    assert dir + name + [] == dir + name;
  }

  lemma {:induction false} LoneNameIsAlias(cs: Charset, a: ThreadInfo, b: ThreadInfo, name: string)
    requires Admissible(cs) && a.id != b.id && WorkspaceName(a) == name && !Reserved(Lower(cs, name))
      && AliasText(cs, name)
    requires Key(cs, b) != Lower(cs, name) && Lower(cs, b.id) != Lower(cs, name)
    ensures a.id in RefMap(cs, [a, b]) && RefMap(cs, [a, b])[a.id] == name
  {
    hide WorkspaceName, Lower, RefMap, Reserved, AliasText;
    var threads := [a, b];
    var keys := Keys(cs, threads);
    assert keys[0] == Lower(cs, name) && keys[1] != keys[0];
    assert Count(keys, 2, keys[0]) == Count(keys, 1, keys[0]) == Count(keys, 0, keys[0]) + 1;
    assert Draft(cs, threads, 0) == name;
    RefMapAt(cs, threads, 0);
  }

  /** Two conversations of which the second works in a path that normalizes to the folder name of the first. */
  lemma {:induction false} PathReadingBreaksRoundTrip(cs: Charset, a: ThreadInfo, b: ThreadInfo, name: string,
      selected: Option<string>, archived: bool)
    requires Admissible(cs) && a.id != b.id && WorkspaceName(a) == name && !Reserved(Lower(cs, name))
      && AliasText(cs, name)
    requires Key(cs, b) != Lower(cs, name) && Lower(cs, b.id) != Lower(cs, name)
    requires Tight(a.id) && Tight(b.id) && a.id != name && Normalized(b.cwd) == Normalized(name)
    ensures a.id in RefMap(cs, [a, b]) && RefMap(cs, [a, b])[a.id] == name
    ensures Resolve(cs, [a, b], name, selected, archived) != Ok(a)
  {
    hide WorkspaceName, Lower, Resolve, RefMap, Reserved, AliasText, Normalized, Tight;
    var threads := [a, b];
    LoneNameIsAlias(cs, a, b, name);
    AliasRoundTrip(cs, threads, 0, selected, archived);
    assert threads[1] == b;
    assert !PathIsFree(threads, 0, name);
  }

  lemma {:induction false} RootName(name: string, id: string)
    requires name != [] && Tight(name) && '/' !in name && '\\' !in name
    ensures WorkspaceName(ThreadInfo(id, "/" + name)) == name
  {
    assert ("/" + name)[|name|] == name[|name| - 1];
    assert forall i | 0 <= i < |name| :: name[i] in name;
    NameInFolder("/", name, id);
  }

  lemma {:induction false} LowerOfDot(cs: Charset)
    requires Admissible(cs)
    ensures Lower(cs, ".") == "."
  {
    LowerAscii(cs, ".");
    assert AsciiLowerAll(".") == ".";
  }

  lemma {:induction false} FolderThenDot(name: string)
    requires name != [] && Tight(name) && '\\' !in name
    ensures var dir := name + "/";
      dir[0] != '\\' && IsSeparator(dir[|dir| - 1]) && IsName(".") && Tight(dir + ".")
  {
    var dir := name + "/";
    assert name[0] in name && dir[0] == name[0];
    assert (dir + ".")[0] == name[0] && (dir + ".")[|dir|] == '.';
  }

  lemma {:induction false} DotName(cs: Charset, name: string, id: string)
    requires Admissible(cs) && name != [] && Tight(name) && '\\' !in name
    ensures Key(cs, ThreadInfo(id, name + "/" + ".")) == "."
  {
    hide WorkspaceName, Lower, Tight, IsName, IsSeparator, StripExtendedPrefix;
    FolderThenDot(name);
    NameInFolder(name + "/", ".", id);
    LowerOfDot(cs);
  }

  /**
   A relative working directory can break the round trip: a conversation in
   `name/.` makes the alias `name` of the conversation in `/name` ambiguous.
   */
  lemma {:induction false} RelativeFolderBreaksRoundTrip(cs: Charset, name: string, id1: string, id2: string,
      selected: Option<string>, archived: bool)
    requires Admissible(cs) && Ordinary(name) && AliasText(cs, name) && !Reserved(Lower(cs, name))
      && Lower(cs, name) != "."
    requires id1 != id2 && Tight(id1) && Tight(id2) && id1 != name && Lower(cs, id2) != Lower(cs, name)
    ensures var threads := [ThreadInfo(id1, "/" + name), ThreadInfo(id2, name + "/" + ".")];
      && id1 in RefMap(cs, threads) && RefMap(cs, threads)[id1] == name
      && Resolve(cs, threads, name, selected, archived) != Ok(threads[0])
  {
    AliasTextIsTight(cs, name);
    assert name[0] in name;
    RootName(name, id1);
    DotName(cs, name, id2);
    DotPath(name);
    var a, b := ThreadInfo(id1, "/" + name), ThreadInfo(id2, name + "/" + ".");
    PathReadingBreaksRoundTrip(cs, a, b, name, selected, archived);
  }

  /** The same, with the folder `foo`. */
  lemma {:induction false} FooBreaksRoundTrip(cs: Charset)
    requires Admissible(cs) && cs.alphanumeric('f') && cs.alphanumeric('o')
    ensures var threads := [ThreadInfo("id-a", "/" + "foo"), ThreadInfo("id-b", "foo" + "/" + ".")];
      && "id-a" in RefMap(cs, threads)
      && Resolve(cs, threads, RefMap(cs, threads)["id-a"], None, false) != Ok(threads[0])
  {
    LowerAscii(cs, "foo");
    LowerAscii(cs, "id-b");
    RelativeFolderBreaksRoundTrip(cs, "foo", "id-a", "id-b", None, false);
  }
}
