/** Unicode white space, trimming, decimal numerals and lower-casing of strings. */
module Text {
  import opened Sequences

  /** Rust's `char::is_whitespace`: the Unicode White_Space property, complete. */
  predicate IsWhitespace(c: char) {
    var n := c as int;
    || 0x09 <= n <= 0x0D || n == 0x20 || n == 0x85 || n == 0xA0 || n == 0x1680
    || 0x2000 <= n <= 0x200A || n == 0x2028 || n == 0x2029 || n == 0x202F
    || n == 0x205F || n == 0x3000
  }

  ghost predicate Blank(s: string) {
    forall i | 0 <= i < |s| :: IsWhitespace(s[i])
  }

  /** Neither end of `s` is white space. */
  predicate Tight(s: string) {
    s == [] || (!IsWhitespace(s[0]) && !IsWhitespace(s[|s| - 1]))
  }

  function TrimStart(s: string): (r: string)
    ensures |r| <= |s|
    ensures r == [] || !IsWhitespace(r[0])
  {
    if s != [] && IsWhitespace(s[0]) then TrimStart(s[1..]) else s
  }

  function TrimEnd(s: string): (r: string)
    ensures |r| <= |s|
    ensures r == [] || !IsWhitespace(r[|r| - 1])
  {
    if s != [] && IsWhitespace(s[|s| - 1]) then TrimEnd(s[..|s| - 1]) else s
  }

  /** Rust's `str::trim`. */
  function Trim(s: string): (r: string)
    ensures |r| <= |s|
    ensures r == [] || !IsWhitespace(r[|r| - 1])
  {
    TrimEnd(TrimStart(s))
  }

  lemma {:induction false} TrimStartParts(s: string) returns (head: string)
    ensures Blank(head) && s == head + TrimStart(s)
  {
    if s != [] && IsWhitespace(s[0]) {
      var h := TrimStartParts(s[1..]);
      head := [s[0]] + h;
      Cons(s);
      AppendAssoc([s[0]], h, TrimStart(s));
    } else {
      head := [];
    }
  }

  lemma {:induction false} TrimEndParts(s: string) returns (tail: string)
    ensures Blank(tail) && s == TrimEnd(s) + tail
  {
    if s != [] && IsWhitespace(s[|s| - 1]) {
      var t := TrimEndParts(s[..|s| - 1]);
      tail := t + [s[|s| - 1]];
      assert s == s[..|s| - 1] + [s[|s| - 1]];
    } else {
      tail := [];
    }
  }

  lemma {:induction false} TrimStartBlankHead(head: string, s: string)
    requires Blank(head)
    ensures TrimStart(head + s) == TrimStart(s)
  {
    if head == [] {
      assert head + s == s;
    } else {
      TrimStartBlankHead(head[1..], s);
      assert (head + s)[1..] == head[1..] + s;
    }
  }

  lemma {:induction false} TrimEndBlankTail(s: string, tail: string)
    requires Blank(tail)
    ensures TrimEnd(s + tail) == TrimEnd(s)
  {
    if tail == [] {
      assert s + tail == s;
    } else {
      var n := |tail| - 1;
      TrimEndBlankTail(s, tail[..n]);
      assert (s + tail)[..|s + tail| - 1] == s + tail[..n];
      assert (s + tail)[|s + tail| - 1] == tail[n];
    }
  }

  lemma {:induction false} TightFront(core: string, tail: string)
    requires core + tail == [] || !IsWhitespace((core + tail)[0])
    requires core == [] || !IsWhitespace(core[|core| - 1])
    ensures Tight(core)
  {
    assert core != [] ==> (core + tail)[0] == core[0];
  }

  /** Trimming removes exactly a blank head and a blank tail. */
  lemma {:induction false} TrimParts(s: string) returns (head: string, tail: string)
    ensures Blank(head) && Blank(tail) && s == head + Trim(s) + tail
    ensures Tight(Trim(s))
  {
    hide TrimStart, TrimEnd, Blank;
    head := TrimStartParts(s);
    tail := TrimEndParts(TrimStart(s));
    AppendAssoc(head, Trim(s), tail);
    TightFront(Trim(s), tail);
  }

  /** The trimmed text is the only tight text left between two blank margins. */
  lemma {:induction false} TrimUnique(head: string, core: string, tail: string)
    requires Blank(head) && Blank(tail) && core != [] && Tight(core)
    ensures Trim(head + core + tail) == core
  {
    assert head + core + tail == head + (core + tail);
    TrimStartBlankHead(head, core + tail);
    assert (core + tail)[0] == core[0];
    TrimEndBlankTail(core, tail);
  }

  lemma {:induction false} TrimBlank(s: string)
    ensures Blank(s) <==> Trim(s) == []
  {
    if Blank(s) {
      TrimStartBlankHead(s, []);
      assert s + [] == s;
    } else {
      var h, t := TrimParts(s);
      assert Trim(s) == [] ==> s == h + t;
    }
  }

  lemma {:induction false} TrimStartExtend(s: string, more: string)
    requires !Blank(s)
    ensures TrimStart(s + more) == TrimStart(s) + more
  {
    if IsWhitespace(s[0]) {
      assert !Blank(s[1..]) by { assert s == [s[0]] + s[1..]; }
      TrimStartExtend(s[1..], more);
      assert (s + more)[1..] == s[1..] + more;
    }
  }

  lemma {:induction false} TrimEndExtend(s: string, more: string)
    requires !Blank(more)
    ensures TrimEnd(s + more) == s + TrimEnd(more)
  {
    var n := |more| - 1;
    if IsWhitespace(more[n]) {
      Snoc(more);
      TrimEndExtend(s, more[..n]);
      InitAppend(s, more);
    }
  }

  /** Appending to a line keeps its trimmed text as a prefix, and as the whole only if the addition is blank. */
  lemma {:induction false} TrimExtend(s: string, more: string)
    requires !Blank(s)
    ensures Trim(s) <= Trim(s + more)
    ensures Trim(s) == Trim(s + more) <==> Blank(more)
  {
    TrimStartExtend(s, more);
    var m := TrimStart(s);
    if Blank(more) {
      TrimEndBlankTail(m, more);
    } else {
      TrimEndExtend(m, more);
      var tail := TrimEndParts(m);
      var rest := TrimEndParts(more);
      assert TrimEnd(more) == [] ==> more == rest;
    }
  }

  lemma {:induction false} TrimTight(s: string)
    requires Tight(s)
    ensures Trim(s) == s
  {
    if s != [] {
      TrimUnique([], s, []);
      assert [] + s + [] == s;
    }
  }

  // ------------------------------------------------------------------ numerals

  predicate IsDigit(c: char) { '0' <= c <= '9' }

  predicate AllDigits(s: string) { forall i | 0 <= i < |s| :: IsDigit(s[i]) }

  function Digit(d: nat): (c: char)
    requires d < 10
    ensures IsDigit(c)
  {
    '0' + d as char
  }

  /** Decimal numeral of `n`, as Rust's `{}` prints an unsigned integer. */
  function Decimal(n: nat): (s: string)
    ensures s != [] && AllDigits(s)
  {
    if n < 10 then [Digit(n)] else Decimal(n / 10) + [Digit(n % 10)]
  }

  /** Value of a digit string; the empty string is zero. */
  function Numeral(s: string): nat
    requires AllDigits(s)
  {
    if s == [] then 0 else 10 * Numeral(s[..|s| - 1]) + (s[|s| - 1] as int - '0' as int)
  }

  lemma {:induction false} NumeralDecimal(n: nat)
    ensures Numeral(Decimal(n)) == n
  {
    var s := Decimal(n);
    if n < 10 {
      assert s[..0] == [];
    } else {
      NumeralDecimal(n / 10);
      assert s[..|s| - 1] == Decimal(n / 10);
    }
  }

  function Pow10(k: nat): (r: nat)
    ensures r >= 1
  {
    if k == 0 then 1 else 10 * Pow10(k - 1)
  }

  lemma {:induction false} DecimalLength(n: nat, k: nat)
    requires k >= 1 && n < Pow10(k)
    ensures |Decimal(n)| <= k
  {
    assert Pow10(1) == 10;
    if n >= 10 {
      DecimalLength(n / 10, k - 1);
    }
  }

  // ------------------------------------------------------------------ lower-casing

  function AsciiLower(c: char): char {
    if 'A' <= c <= 'Z' then c + 32 as char else c
  }

  function AsciiLowerAll(s: string): (r: string)
    ensures |r| == |s| && forall i | 0 <= i < |s| :: r[i] == AsciiLower(s[i])
  {
    if s == [] then [] else [AsciiLower(s[0])] + AsciiLowerAll(s[1..])
  }

  // ------------------------------------------------------------------ pieces

  /** The first `n` characters, or all if there are fewer. */
  function Take(s: string, n: nat): string {
    if |s| <= n then s else s[..n]
  }

  function Concat(parts: seq<string>): string {
    if parts == [] then [] else parts[0] + Concat(parts[1..])
  }

  lemma {:induction false} ConcatAppend(a: seq<string>, b: seq<string>)
    ensures Concat(a + b) == Concat(a) + Concat(b)
  {
    AppendEmpty(Concat(b));
    if a == [] {
      AppendEmpty(b);
    } else {
      ConcatAppend(a[1..], b);
      TailAppend(a, b);
      AppendAssoc(a[0], Concat(a[1..]), Concat(b));
    }
  }

  function Join(parts: seq<string>, separator: string): string {
    if parts == [] then []
    else if |parts| == 1 then parts[0]
    else parts[0] + separator + Join(parts[1..], separator)
  }

  // ------------------------------------------------------------------ readings

  /** Among ASCII characters, white space is tab to carriage return, and the blank. */
  lemma {:induction false} AsciiWhitespace(c: char)
    requires c as int < 128
    ensures IsWhitespace(c) <==> c in {'\t', '\n', '\U{0B}', '\U{0C}', '\r', ' '}
  {
  }

  /** Numerals are read with the most significant digit first. */
  lemma {:induction false} DecimalReads()
    ensures Decimal(0) == "0" && Decimal(7) == "7" && Decimal(10) == "10" && Decimal(1_230) == "1230"
  {
    assert Decimal(1) == "1";
    assert Decimal(12) == Decimal(1) + "2";
    assert Decimal(123) == Decimal(12) + "3";
  }
}
