/**
 The byte strings fed to SHA-256: the file-tree digest of a plugin
 (crates/cdr-pro/src/fingerprint.rs) and the nonce of a Discord message
 (crates/cdr-discord/src/idempotent_message.rs). The hash itself stays abstract.
 */
module DigestInputs {
  import opened Octets
  import opened Options
  import opened Sequences

  type Bytes = seq<byte>

  const WORD: nat := 0x1_0000_0000_0000_0000
  const NONCE_LIMIT: nat := 0x8000_0000_0000_0000

  // ------------------------------------------------------------------ big-endian words

  /** The lowest `k` bytes of `n`, most significant first. */
  function BigEndian(n: nat, k: nat): (bytes: Bytes)
    ensures |bytes| == k
  {
    if k == 0 then [] else BigEndian(n / 256, k - 1) + [(n % 256) as byte]
  }

  function Value(bytes: Bytes): nat {
    if bytes == [] then 0 else 256 * Value(bytes[..|bytes| - 1]) + bytes[|bytes| - 1] as int
  }

  function Pow256(k: nat): (p: nat)
    ensures p >= 1
  {
    if k == 0 then 1 else 256 * Pow256(k - 1)
  }

  lemma {:induction false} ValueOfBigEndian(n: nat, k: nat)
    requires n < Pow256(k)
    ensures Value(BigEndian(n, k)) == n
  {
    if k == 0 {
    } else {
      ValueOfBigEndian(n / 256, k - 1);
      var bytes := BigEndian(n, k);
      assert bytes[..k - 1] == BigEndian(n / 256, k - 1);
    }
  }

  lemma {:induction false} BigEndianOfValue(bytes: Bytes)
    ensures Value(bytes) < Pow256(|bytes|) && BigEndian(Value(bytes), |bytes|) == bytes
  {
    if bytes == [] {
    } else {
      var n := |bytes| - 1;
      BigEndianOfValue(bytes[..n]);
      assert Value(bytes) / 256 == Value(bytes[..n]) && Value(bytes) % 256 == bytes[n] as int;
      Snoc(bytes);
    }
  }

  lemma {:induction false} EightBytesHoldAWord()
    ensures Pow256(8) == WORD
  {
    assert Pow256(2) == 65_536;
    assert Pow256(4) == 65_536 * Pow256(2);
    assert Pow256(6) == 65_536 * Pow256(4);
    assert Pow256(8) == 65_536 * Pow256(6);
  }

  /** `u64::to_be_bytes`. */
  function Word(n: nat): Bytes
    requires n < WORD
  {
    BigEndian(n, 8)
  }

  lemma {:induction false} WordInjective(a: nat, b: nat)
    requires a < WORD && b < WORD && Word(a) == Word(b)
    ensures a == b
  {
    ValueOfWord(a);
    ValueOfWord(b);
  }

  /** Every eight bytes are the word of their value. */
  lemma {:induction false} WordOfValue(bytes: Bytes)
    requires |bytes| == 8
    ensures Value(bytes) < WORD && Word(Value(bytes)) == bytes
  {
    EightBytesHoldAWord();
    BigEndianOfValue(bytes);
  }

  /** Eight bytes are the word of their weighted sum, the first byte with the greatest weight. */
  lemma {:induction false} WordReadsBytes(bytes: Bytes)
    requires |bytes| == 8
    ensures var n :=
        0x100_0000_0000_0000 * (bytes[0] as nat) + 0x1_0000_0000_0000 * (bytes[1] as nat)
        + 0x100_0000_0000 * (bytes[2] as nat) + 0x1_0000_0000 * (bytes[3] as nat) + 0x100_0000 * (bytes[4] as nat)
        + 0x1_0000 * (bytes[5] as nat) + 0x100 * (bytes[6] as nat) + (bytes[7] as nat);
      n < WORD && Word(n) == bytes
  {
    hide BigEndian;
    WordOfValue(bytes);
    ValueOfFour(bytes[..4]);
    ValueOfEight(bytes);
  }

  lemma {:induction false} ValueSnoc(bytes: Bytes, last: byte)
    ensures Value(bytes + [last]) == 256 * Value(bytes) + last as int
  {
    InitAppend(bytes, [last]);
    AppendEmpty(bytes);
  }

  lemma {:induction false} ValueOfFour(bytes: Bytes)
    requires |bytes| == 4
    ensures Value(bytes) == 0x100_0000 * (bytes[0] as nat) + 0x1_0000 * (bytes[1] as nat) + 0x100 * (bytes[2] as nat)
                            + (bytes[3] as nat)
  {
    hide Value;
    ValueSnoc(bytes[..3], bytes[3]);
    ValueSnoc(bytes[..2], bytes[2]);
    ValueSnoc(bytes[..1], bytes[1]);
    ValueSnoc([], bytes[0]);
    NoValue();
    assert bytes == bytes[..3] + [bytes[3]] && bytes[..3] == bytes[..2] + [bytes[2]];
    assert bytes[..2] == bytes[..1] + [bytes[1]] && bytes[..1] == [] + [bytes[0]];
  }

  lemma {:induction false} NoValue()
    ensures Value([]) == 0
  {
  }

  lemma {:induction false} ValueOfEight(bytes: Bytes)
    requires |bytes| == 8
    ensures Value(bytes) == 0x1_0000_0000 * Value(bytes[..4]) + 0x100_0000 * (bytes[4] as nat)
                            + 0x1_0000 * (bytes[5] as nat) + 0x100 * (bytes[6] as nat) + (bytes[7] as nat)
  {
    hide Value;
    ValueSnoc(bytes[..7], bytes[7]);
    ValueSnoc(bytes[..6], bytes[6]);
    ValueSnoc(bytes[..5], bytes[5]);
    ValueSnoc(bytes[..4], bytes[4]);
    assert bytes == bytes[..7] + [bytes[7]] && bytes[..7] == bytes[..6] + [bytes[6]];
    assert bytes[..6] == bytes[..5] + [bytes[5]] && bytes[..5] == bytes[..4] + [bytes[4]];
  }

  lemma {:induction false} ValueOfWord(n: nat)
    requires n < WORD
    ensures Value(Word(n)) == n
  {
    EightBytesHoldAWord();
    ValueOfBigEndian(n, 8);
  }

  /** A byte string behind its length. */
  function Prefixed(s: Bytes): Bytes
    requires |s| < WORD
  {
    Word(|s|) + s
  }

  lemma {:induction false} WordSplit(m: nat, n: nat, x: Bytes, y: Bytes)
    requires m < WORD && n < WORD && Word(m) + x == Word(n) + y
    ensures m == n && x == y
  {
    var a, b := Word(m) + x, Word(n) + y;
    assert Word(m) == a[..8] && Word(n) == b[..8];
    assert x == a[8..] && y == b[8..];
    WordInjective(m, n);
  }

  /** A length-prefixed string and what follows it can be told apart in one way only. */
  lemma {:induction false} PrefixedSplit(s: Bytes, t: Bytes, x: Bytes, y: Bytes)
    requires |s| < WORD && |t| < WORD && Prefixed(s) + x == Prefixed(t) + y
    ensures s == t && x == y
  {
    assert Prefixed(s) + x == Word(|s|) + (s + x) && Prefixed(t) + y == Word(|t|) + (t + y);
    WordSplit(|s|, |t|, s + x, t + y);
    assert s == (s + x)[..|s|] && t == (t + y)[..|t|];
    assert x == (s + x)[|s|..] && y == (t + y)[|t|..];
  }

  // ------------------------------------------------------------------ the tree digest

  const SLASH: byte := 47
  const BACKSLASH: byte := 92

  /** The path as it is hashed: every backslash becomes a slash. */
  function Slashed(path: Bytes): Bytes {
    seq(|path|, i requires 0 <= i < |path| => if path[i] == BACKSLASH then SLASH else path[i])
  }

  predicate Plain(path: Bytes) { BACKSLASH !in path }

  /** A file of the tree: its path, the size its metadata reported and the content that was read. */
  datatype File = File(path: Bytes, reported: nat, content: Bytes)

  predicate Sized(f: File) {
    |f.path| < WORD && f.reported < WORD
  }

  function Entry(f: File): Bytes
    requires Sized(f)
  {
    Prefixed(Slashed(f.path)) + Word(f.reported) + f.content
  }

  predicate AllSized(files: seq<File>) {
    forall i | 0 <= i < |files| :: Sized(files[i])
  }

  function TreeInput(files: seq<File>): Bytes
    requires AllSized(files)
  {
    if files == [] then [] else TreeInput(files[..|files| - 1]) + Entry(files[|files| - 1])
  }

  function Flatten(blocks: seq<Bytes>): Bytes {
    if blocks == [] then [] else blocks[0] + Flatten(blocks[1..])
  }

  method AppendBlocks(digest: Bytes, blocks: seq<Bytes>) returns (updated: Bytes)
    ensures updated == digest + Flatten(blocks)
  {
    updated := digest;
    var remaining := blocks;
    while remaining != []
      invariant updated + Flatten(remaining) == digest + Flatten(blocks)
      decreases |remaining|
    {
      AppendAssoc(updated, remaining[0], Flatten(remaining[1..]));
      updated := updated + remaining[0];
      remaining := remaining[1..];
    }
    AppendEmpty(updated);
  }

  /** `hash_file`: the content arrives in the blocks that the reads return. */
  method HashFile(digest: Bytes, path: Bytes, reported: nat, blocks: seq<Bytes>) returns (updated: Bytes)
    requires |path| < WORD && reported < WORD
    ensures updated == digest + Entry(File(path, reported, Flatten(blocks)))
  {
    var relative := Slashed(path);
    updated := digest + Word(|relative|);
    updated := updated + relative;
    updated := updated + Word(reported);
    assert updated == digest + (Prefixed(relative) + Word(reported));
    updated := AppendBlocks(updated, blocks);
  }

  /** `tree_digest`: one entry per file, in the order of the walk. */
  method TreeDigestInput(files: seq<File>, blocks: seq<seq<Bytes>>) returns (digest: Bytes)
    requires AllSized(files) && |blocks| == |files|
    requires forall i | 0 <= i < |files| :: Flatten(blocks[i]) == files[i].content
    ensures digest == TreeInput(files)
  {
    digest := [];
    for i := 0 to |files|
      invariant digest == TreeInput(files[..i])
    {
      digest := HashFile(digest, files[i].path, files[i].reported, blocks[i]);
      assert files[..i + 1][..i] == files[..i];
    }
    DropZero(files);
  }

  /** The reported size is the size that was read. */
  predicate Honest(f: File) {
    Sized(f) && f.reported == |f.content|
  }

  predicate AllHonest(files: seq<File>) {
    AllSized(files) && forall i | 0 <= i < |files| :: Honest(files[i])
  }

  predicate AllPlain(files: seq<File>) {
    forall i | 0 <= i < |files| :: Plain(files[i].path)
  }

  function SlashedFile(f: File): File {
    f.(path := Slashed(f.path))
  }

  /** The files under the paths that are hashed. */
  function SlashedAll(files: seq<File>): seq<File> {
    seq(|files|, i requires 0 <= i < |files| => SlashedFile(files[i]))
  }

  lemma {:induction false} SlashedIsPlain(path: Bytes)
    ensures Plain(Slashed(path)) && (Slashed(path) == path <==> Plain(path))
  {
    var s := Slashed(path);
    assert forall i | 0 <= i < |path| :: s[i] == if path[i] == BACKSLASH then SLASH else path[i];
  }

  lemma {:induction false} SlashedAllIsPlain(files: seq<File>)
    ensures AllPlain(SlashedAll(files)) && (SlashedAll(files) == files <==> AllPlain(files))
  {
    forall i | 0 <= i < |files| ensures
      Plain(SlashedAll(files)[i].path) && (SlashedAll(files)[i] == files[i] <==> Plain(files[i].path))
    {
      SlashedIsPlain(files[i].path);
    }
  }

  // ------------------------------------------------------------------ decoding the tree digest input

  /** The same input, built from the front. */
  function TreeInputFront(files: seq<File>): Bytes
    requires AllSized(files)
  {
    if files == [] then [] else Entry(files[0]) + TreeInputFront(files[1..])
  }

  lemma {:induction false} FrontAppend(files: seq<File>, f: File)
    requires Sized(f) && AllSized(files)
    ensures TreeInputFront(files + [f]) == TreeInputFront(files) + Entry(f)
  {
    hide Entry;
    if files == [] {
      AppendEmpty([f]);
      AppendEmpty(Entry(f));
      assert [f][1..] == [];
    } else {
      TailAppend(files, [f]);
      FrontAppend(files[1..], f);
      AppendAssoc(Entry(files[0]), TreeInputFront(files[1..]), Entry(f));
    }
  }

  lemma {:induction false} TreeInputIsFront(files: seq<File>)
    requires AllSized(files)
    ensures TreeInput(files) == TreeInputFront(files)
  {
    hide Entry;
    if files == [] {
    } else {
      var n := |files| - 1;
      TreeInputIsFront(files[..n]);
      FrontAppend(files[..n], files[n]);
      Snoc(files);
    }
  }

  /** The length-prefixed string in front of some bytes, and the bytes after it. */
  function Unprefixed(bytes: Bytes): (r: Option<(Bytes, Bytes)>)
    ensures r.Some? ==> |r.value.1| + 8 <= |bytes|
  {
    if |bytes| < 8 || |bytes| - 8 < Value(bytes[..8]) then None
    else var n := 8 + Value(bytes[..8]); Some((bytes[8..n], bytes[n..]))
  }

  lemma {:induction false} UnprefixedReads(s: Bytes, rest: Bytes)
    requires |s| < WORD
    ensures Unprefixed(Prefixed(s) + rest) == Some((s, rest))
  {
    var bytes := Prefixed(s) + rest;
    ValueOfWord(|s|);
    assert bytes[..8] == Word(|s|);
    assert bytes[8..8 + |s|] == s && bytes[8 + |s|..] == rest;
  }

  lemma {:induction false} UnprefixedSound(bytes: Bytes)
    requires Unprefixed(bytes).Some?
    ensures var r := Unprefixed(bytes).value; |r.0| < WORD && bytes == Prefixed(r.0) + r.1
  {
    var n := 8 + Value(bytes[..8]);
    WordOfValue(bytes[..8]);
    assert bytes == bytes[..8] + bytes[8..n] + bytes[n..];
  }

  /** The files that a digest input spells out, each with the size of its content; nothing if it spells out none. */
  function Decode(bytes: Bytes): Option<seq<File>>
    decreases |bytes|
  {
    if bytes == [] then Some([])
    else
      var path := Unprefixed(bytes);
      if path.None? || !Plain(path.value.0) then None
      else
        var content := Unprefixed(path.value.1);
        if content.None? then None
        else
          var rest := Decode(content.value.1);
          if rest.None? then None
          else Some([File(path.value.0, |content.value.0|, content.value.0)] + rest.value)
  }

  lemma {:induction false} EntryParts(f: File)
    requires Honest(f)
    ensures Entry(f) == Prefixed(Slashed(f.path)) + Prefixed(f.content)
  {
    AppendAssoc(Prefixed(Slashed(f.path)), Word(f.reported), f.content);
  }

  lemma {:induction false} DecodeEntry(f: File, rest: Bytes)
    requires Honest(f)
    ensures Decode(Entry(f) + rest) ==
      if Decode(rest).None? then None else Some([SlashedFile(f)] + Decode(rest).value)
  {
    hide Prefixed, Unprefixed, Entry, Slashed, Plain;
    var path := Slashed(f.path);
    EntryParts(f);
    SlashedIsPlain(f.path);
    SlashedLength(f.path);
    AppendAssoc(Prefixed(path), Prefixed(f.content), rest);
    UnprefixedReads(path, Prefixed(f.content) + rest);
    UnprefixedReads(f.content, rest);
    assert Entry(f) + rest != [] by { EntryNotEmpty(f); }
  }

  lemma {:induction false} SlashedLength(path: Bytes)
    ensures |Slashed(path)| == |path|
  {
  }

  lemma {:induction false} EntryNotEmpty(f: File)
    requires Sized(f)
    ensures |Entry(f)| >= 16
  {
  }

  /** Decoding the input of an honest list gives it back, under the paths that were hashed. */
  lemma {:induction false} DecodeInput(files: seq<File>)
    requires AllHonest(files)
    ensures Decode(TreeInput(files)) == Some(SlashedAll(files))
  {
    TreeInputIsFront(files);
    DecodeFront(files);
  }

  lemma {:induction false} DecodeFront(files: seq<File>)
    requires AllHonest(files)
    ensures Decode(TreeInputFront(files)) == Some(SlashedAll(files))
  {
    if files == [] {
    } else {
      DecodeFront(files[1..]);
      DecodeEntry(files[0], TreeInputFront(files[1..]));
      assert SlashedAll(files) == [SlashedFile(files[0])] + SlashedAll(files[1..]);
    }
  }

  /** Whatever decodes, decodes to an honest list of plain paths whose input it is. */
  lemma {:induction false} DecodeSound(bytes: Bytes)
    requires Decode(bytes).Some?
    ensures var files := Decode(bytes).value; AllHonest(files) && AllPlain(files) && TreeInput(files) == bytes
    decreases |bytes|
  {
    if bytes == [] {
    } else {
      var path := Unprefixed(bytes).value;
      var content := Unprefixed(path.1).value;
      var f, rest := File(path.0, |content.0|, content.0), Decode(content.1).value;
      DecodeSound(content.1);
      UnprefixedSound(bytes);
      UnprefixedSound(path.1);
      ConsHonest(f, rest);
      AppendAssoc(Prefixed(path.0), Prefixed(content.0), content.1);
    }
  }

  lemma {:induction false} ConsHonest(f: File, rest: seq<File>)
    requires Honest(f) && Plain(f.path) && AllHonest(rest) && AllPlain(rest)
    ensures AllHonest([f] + rest) && AllPlain([f] + rest)
    ensures TreeInput([f] + rest) == Prefixed(f.path) + Prefixed(f.content) + TreeInput(rest)
  {
    hide Entry, Prefixed, Plain;
    var files := [f] + rest;
    assert files[0] == f && files[1..] == rest;
    EntryParts(f);
    SlashedIsPlain(f.path);
    TreeInputIsFront(files);
    TreeInputIsFront(rest);
  }

  // ------------------------------------------------------------------ what the tree digest input determines

  /** Honest lists feed the same bytes exactly when they agree under the hashed paths, for lists of any length. */
  lemma {:induction false} TreeInputDecodable(a: seq<File>, b: seq<File>)
    requires AllHonest(a) && AllHonest(b)
    ensures TreeInput(a) == TreeInput(b) <==> SlashedAll(a) == SlashedAll(b)
  {
    DecodeInput(a);
    DecodeInput(b);
    SlashedInput(a);
    SlashedInput(b);
  }

  lemma {:induction false} SlashedInput(files: seq<File>)
    requires AllHonest(files)
    ensures AllHonest(SlashedAll(files)) && TreeInput(SlashedAll(files)) == TreeInput(files)
  {
    DecodeInput(files);
    DecodeSound(TreeInput(files));
  }

  /**
   The paths themselves are determined exactly when they hold no backslash: read
   without backslashes, the input gives the list back, and no other list.
   */
  lemma {:induction false} PathsDeterminedExactly(a: seq<File>)
    requires AllHonest(a)
    ensures AllPlain(a) <==> forall b | AllHonest(b) && AllPlain(b) && TreeInput(b) == TreeInput(a) :: b == a
  {
    SlashedAllIsPlain(a);
    SlashedInput(a);
    forall b | AllHonest(b) && AllPlain(b) && TreeInput(b) == TreeInput(a) ensures b == SlashedAll(a) {
      SlashedAllIsPlain(b);
      TreeInputDecodable(a, b);
    }
  }

  /** Another list, of honest sizes, feeds the same bytes. */
  ghost predicate Imitated(a: seq<File>)
    requires AllSized(a)
  {
    exists b :: AllHonest(b) && b != a && TreeInput(b) == TreeInput(a)
  }

  predicate IsSeparator(c: byte) { c == SLASH || c == BACKSLASH }

  predicate HasSeparator(f: File) {
    exists i | 0 <= i < |f.path| :: IsSeparator(f.path[i])
  }

  /** Some file lies below the root of the tree, or its name holds a backslash. */
  predicate Nested(files: seq<File>) {
    exists i | 0 <= i < |files| :: HasSeparator(files[i])
  }

  /** The same path with the other separator at one place. */
  lemma {:induction false} Respelled(f: File) returns (g: File)
    requires HasSeparator(f)
    ensures g != f && SlashedFile(g) == SlashedFile(f) && |g.path| == |f.path|
  {
    var i :| 0 <= i < |f.path| && IsSeparator(f.path[i]);
    var path := f.path[i := if f.path[i] == SLASH then BACKSLASH else SLASH];
    g := f.(path := path);
    assert path[i] != f.path[i];
    assert Slashed(path) == Slashed(f.path);
  }

  lemma {:induction false} NestedIsImitated(a: seq<File>)
    requires AllHonest(a) && Nested(a)
    ensures Imitated(a)
  {
    var i :| 0 <= i < |a| && HasSeparator(a[i]);
    var g := Respelled(a[i]);
    var b := a[i := g];
    assert b[i] != a[i];
    assert SlashedFile(g).reported == a[i].reported && SlashedFile(g).content == a[i].content;
    assert SlashedAll(b) == SlashedAll(a);
    TreeInputDecodable(a, b);
  }

  lemma {:induction false} FlatPathKept(f: File, g: File)
    requires !HasSeparator(f) && SlashedFile(g) == SlashedFile(f)
    ensures g == f
  {
    forall i | 0 <= i < |f.path| ensures g.path[i] == f.path[i] {
      assert Slashed(g.path)[i] == Slashed(f.path)[i] && !IsSeparator(f.path[i]);
    }
    assert |Slashed(g.path)| == |Slashed(f.path)|;
    assert g.path == f.path;
  }

  lemma {:induction false} FlatIsNotImitated(a: seq<File>)
    requires AllHonest(a) && !Nested(a)
    ensures !Imitated(a)
  {
    forall b | AllHonest(b) && TreeInput(b) == TreeInput(a) ensures b == a {
      TreeInputDecodable(a, b);
      assert |SlashedAll(b)| == |SlashedAll(a)|;
      forall i | 0 <= i < |a| ensures b[i] == a[i] {
        assert SlashedAll(b)[i] == SlashedAll(a)[i];
        FlatPathKept(a[i], b[i]);
      }
    }
  }

  /**
   Exactly which lists share their input with another, honest one: a list with a
   wrong size if its input happens to decode, and a list of right sizes if one
   of its paths can be spelled with the other separator.
   */
  lemma {:induction false} ImitatedExactly(a: seq<File>)
    requires AllSized(a)
    ensures Imitated(a) <==> if AllHonest(a) then Nested(a) else Decode(TreeInput(a)).Some?
  {
    if AllHonest(a) {
      if Nested(a) { NestedIsImitated(a); } else { FlatIsNotImitated(a); }
    } else {
      forall b | AllHonest(b) && TreeInput(b) == TreeInput(a) ensures Decode(TreeInput(a)).Some? {
        DecodeInput(b);
      }
      if Decode(TreeInput(a)).Some? {
        DecodeSound(TreeInput(a));
      }
    }
  }

  /** The one-file trees `a\b` and `a/b` with equal content feed the same bytes. */
  lemma {:induction false} BackslashCollides(content: Bytes)
    requires |content| < WORD
    ensures var x, y := [File([97, 92, 98], |content|, content)], [File([97, 47, 98], |content|, content)];
      x != y && AllHonest(x) && AllHonest(y) && TreeInput(x) == TreeInput(y)
  {
    var f, g := File([97, 92, 98], |content|, content), File([97, 47, 98], |content|, content);
    assert f.path[1] != g.path[1];
    assert Slashed(f.path) == Slashed(g.path);
    assert [f] != [g] by { assert [f][0] != [g][0]; }
    assert SlashedAll([f]) == SlashedAll([g]);
    TreeInputDecodable([f], [g]);
  }

  /**
   The size and the content come from two separate reads of the file system. If
   the reported size were wrong, one file could imitate two.
   */
  lemma {:induction false} MisreportedSizeCollides(p: Bytes, q: Bytes)
    requires |p| < WORD && |q| < WORD
    ensures var one := [File(p, 0, Entry(File(q, 0, [])))];
      var two := [File(p, 0, []), File(q, 0, [])];
      one != two && TreeInput(one) == TreeInput(two) && !Honest(one[0]) && Honest(two[0]) && Honest(two[1])
  {
    hide Slashed, Prefixed, TreeInput;
    var f, g, h := File(p, 0, Entry(File(q, 0, []))), File(p, 0, []), File(q, 0, []);
    OneAndTwoEntries(f, g, h);
    EntryNotEmpty(h);
    SlashedLength(p);
    AppendEmpty(Prefixed(Slashed(p)) + Word(0));
    assert |[f]| != |[g, h]|;
  }

  lemma {:induction false} OneAndTwoEntries(f: File, g: File, h: File)
    requires Sized(f) && Sized(g) && Sized(h)
    ensures TreeInput([f]) == Entry(f) && TreeInput([g, h]) == Entry(g) + Entry(h)
  {
    hide Entry;
    assert [f][..0] == [] && [g, h][..1] == [g] && [g][..0] == [];
    AppendEmpty(Entry(f));
    AppendEmpty(Entry(g));
    assert TreeInput([g]) == Entry(g);
  }

  // ------------------------------------------------------------------ the message nonce

  /** One logical message chunk. */
  datatype Identity = Identity(domain: Bytes, channel: nat, key: Bytes, chunk: nat)

  predicate Encodable(m: Identity) {
    |m.domain| < WORD && m.channel < WORD && |m.key| < WORD && m.chunk < WORD
  }

  function Ascii(s: string): Bytes {
    seq(|s|, i requires 0 <= i < |s| => (s[i] as int % 256) as byte)
  }

  const NONCE_CONTEXT: string := "cdr-discord/idempotent-message/v1"

  function NonceInput(m: Identity): Bytes
    requires Encodable(m)
  {
    Ascii(NONCE_CONTEXT) + (Prefixed(m.domain) + (Word(m.channel) + (Prefixed(m.key) + Word(m.chunk))))
  }

  /** `message_nonce`: the first eight bytes of the hash, without the sign bit. */
  method MessageNonce(hash: Bytes -> Bytes, m: Identity) returns (nonce: nat)
    requires Encodable(m) && forall b: Bytes :: |hash(b)| == 32
    ensures nonce < NONCE_LIMIT
    ensures nonce == Value(hash(NonceInput(m))[..8]) % NONCE_LIMIT
  {
    var digest := Ascii(NONCE_CONTEXT);
    digest := digest + Word(|m.domain|) + m.domain;
    digest := digest + Word(m.channel);
    digest := digest + Word(|m.key|) + m.key;
    digest := digest + Word(m.chunk);
    assert digest == NonceInput(m);
    nonce := Value(hash(digest)[..8]) % NONCE_LIMIT;
  }

  /** The nonce input determines the domain, the channel, the logical key and the chunk index. */
  lemma {:induction false} NonceInputDecodable(a: Identity, b: Identity)
    requires Encodable(a) && Encodable(b)
    ensures NonceInput(a) == NonceInput(b) <==> a == b
  {
    if NonceInput(a) == NonceInput(b) {
      var context := Ascii(NONCE_CONTEXT);
      var x := Word(a.channel) + (Prefixed(a.key) + Word(a.chunk));
      var y := Word(b.channel) + (Prefixed(b.key) + Word(b.chunk));
      assert NonceInput(a)[|context|..] == Prefixed(a.domain) + x;
      assert NonceInput(b)[|context|..] == Prefixed(b.domain) + y;
      PrefixedSplit(a.domain, b.domain, x, y);
      WordSplit(a.channel, b.channel, Prefixed(a.key) + Word(a.chunk), Prefixed(b.key) + Word(b.chunk));
      PrefixedSplit(a.key, b.key, Word(a.chunk), Word(b.chunk));
      WordInjective(a.chunk, b.chunk);
    }
  }

  // ------------------------------------------------------------------ layouts

  /** An entry, place by place: the length of the path, the path, the reported size, the content. */
  lemma {:induction false} EntryLayout(f: File)
    requires Sized(f)
    ensures var entry, n := Entry(f), |f.path|;
      && |entry| == 16 + n + |f.content|
      && Value(entry[..8]) == n && entry[8..8 + n] == Slashed(f.path)
      && Value(entry[8 + n..16 + n]) == f.reported && entry[16 + n..] == f.content
  {
    hide Slashed, BigEndian, Value;
    var entry, n := Entry(f), |f.path|;
    SlashedLength(f.path);
    ValueOfWord(n);
    ValueOfWord(f.reported);
    assert entry[..8] == Word(n) && entry[8 + n..16 + n] == Word(f.reported);
  }

  /**
   A nonce input, place by place: the context, the domain behind its length, the
   channel, the key behind its length, the chunk.
   */
  lemma {:induction false} NonceLayout(m: Identity)
    requires Encodable(m)
    ensures var input, d, k := NonceInput(m), |m.domain|, |m.key|;
      && |input| == 33 + 32 + d + k
      && input[..33] == Ascii("cdr-discord/idempotent-message/v1")
      && Value(input[33..41]) == d && input[41..41 + d] == m.domain
      && Value(input[41 + d..49 + d]) == m.channel
      && Value(input[49 + d..57 + d]) == k && input[57 + d..57 + d + k] == m.key
      && Value(input[57 + d + k..]) == m.chunk
  {
    hide BigEndian, Value;
    var input, d, k := NonceInput(m), |m.domain|, |m.key|;
    ValueOfWord(d);
    ValueOfWord(m.channel);
    ValueOfWord(k);
    ValueOfWord(m.chunk);
    assert |Ascii(NONCE_CONTEXT)| == 33;
    assert input[33..41] == Word(d) && input[41 + d..49 + d] == Word(m.channel);
    assert input[49 + d..57 + d] == Word(k) && input[57 + d + k..] == Word(m.chunk);
  }
}
