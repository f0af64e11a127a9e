/**
 The bounded ring of diagnostic lines (crates/cdr-app-server/src/diagnostics.rs).
 Lines are byte sequences.
 */
module Diagnostics {
  import opened Octets
  import opened Sequences

  type Line = seq<byte>

  const MAX_LINES: nat := 512
  const MAX_BYTES: nat := 65_536

  function Truncate(line: Line): (r: Line)
    ensures r <= line && |r| == if |line| <= 65_536 then |line| else 65_536
  {
    if |line| > MAX_BYTES then line[..MAX_BYTES] else line
  }

  function Bytes(lines: seq<Line>): nat {
    if lines == [] then 0 else |lines[0]| + Bytes(lines[1..])
  }

  predicate Fits(lines: seq<Line>) {
    |lines| <= MAX_LINES && Bytes(lines) <= MAX_BYTES
  }

  /** Lines left after dropping from the front until the rest fits. */
  function Trimmed(lines: seq<Line>): seq<Line> {
    if Fits(lines) || lines == [] then lines else Trimmed(lines[1..])
  }

  function SaturatingSub(a: nat, b: nat): nat {
    if a >= b then a - b else 0
  }

  /** The ring, with every line it was given as a ghost. */
  class BoundedDiagnostics {
    var lines: seq<Line>
    var retainedBytes: nat
    var droppedLines: nat
    ghost var history: seq<Line>

    ghost predicate Valid()
      reads this
    {
      && lines == Retained(history)
      && retainedBytes == Bytes(lines)
      && droppedLines + |lines| == |history|
    }

    constructor ()
      ensures Valid() && history == []
    {
      lines, retainedBytes, droppedLines := [], 0, 0;
      history := [];
    }

    /** `push`. */
    method Push(line: Line)
      requires Valid()
      modifies this
      ensures Valid() && history == old(history) + [line]
      ensures lines == Trimmed(old(lines) + [Truncate(line)])
    {
      var kept := line;
      if |kept| > MAX_BYTES {
        kept := kept[..MAX_BYTES];
      }
      retainedBytes := retainedBytes + |kept|;
      lines := lines + [kept];
      BytesAppend(old(lines), [kept]);
      while |lines| > MAX_LINES || retainedBytes > MAX_BYTES
        invariant retainedBytes == Bytes(lines)
        invariant Trimmed(lines) == Trimmed(old(lines) + [kept])
        invariant droppedLines + |lines| == old(droppedLines) + old(|lines|) + 1
        invariant history == old(history)
        decreases |lines|
      {
        retainedBytes := SaturatingSub(retainedBytes, |lines[0]|);
        lines := lines[1..];
        droppedLines := droppedLines + 1;
      }
      history := history + [line];
      RetainedOneMore(old(history), line);
    }

    /** `snapshot`: the longest suffix of all lines within both bounds, its exact size and the count of the others. */
    method Snapshot() returns (snapshot: seq<Line>, bytes: nat, dropped: nat)
      requires Valid()
      ensures LongestFittingSuffix(snapshot, TruncateAll(history))
      ensures bytes == Bytes(snapshot) && dropped + |snapshot| == |history|
      ensures |snapshot| <= 512 && bytes <= 65_536
      ensures forall m: nat | |snapshot| < m <= |history| ::
        m > 512 || Bytes(Suffix(TruncateAll(history), m)) > 65_536
      ensures history != [] ==> snapshot != []
    {
      RetainedIsLongestSuffix(history);
      if history != [] {
        NewestIsRetained(history);
      }
      return lines, retainedBytes, droppedLines;
    }
  }

  lemma {:induction false} BytesAppend(a: seq<Line>, b: seq<Line>)
    ensures Bytes(a + b) == Bytes(a) + Bytes(b)
  {
    if a == [] {
      AppendEmpty(b);
    } else {
      TailAppend(a, b);
      BytesAppend(a[1..], b);
    }
  }

  // ------------------------------------------------------------------ the ring against the whole history

  function TruncateAll(history: seq<Line>): seq<Line> {
    seq(|history|, i requires 0 <= i < |history| => Truncate(history[i]))
  }

  /** The lines retained after pushing the whole history. */
  function Retained(history: seq<Line>): seq<Line> {
    if history == [] then []
    else Trimmed(Retained(history[..|history| - 1]) + [Truncate(history[|history| - 1])])
  }

  lemma {:induction false} RetainedOneMore(history: seq<Line>, line: Line)
    ensures Retained(history + [line]) == Trimmed(Retained(history) + [Truncate(line)])
  {
    InitAppend(history, [line]);
    AppendEmpty(history);
  }

  /** The last `m` lines. */
  function Suffix(lines: seq<Line>, m: nat): seq<Line>
    requires m <= |lines|
  {
    lines[|lines| - m..]
  }

  /** `kept` is a suffix of `all` that fits, and no longer suffix does. */
  ghost predicate LongestFittingSuffix(kept: seq<Line>, all: seq<Line>) {
    && |kept| <= |all| && kept == Suffix(all, |kept|)
    && Fits(kept)
    && forall m: nat | |kept| < m <= |all| :: !Fits(Suffix(all, m))
  }

  lemma {:induction false} SuffixOfRest(lines: seq<Line>, m: nat)
    requires m < |lines|
    ensures Suffix(lines, m) == Suffix(lines[1..], m)
  {
    DropDrop(lines, 1, |lines| - 1 - m);
  }

  lemma {:induction false} TrimmedIsLongest(lines: seq<Line>)
    ensures LongestFittingSuffix(Trimmed(lines), lines)
  {
    hide Fits, Suffix;
    SuffixOfAll(lines);
    if lines == [] || Fits(lines) {
      NoneFits();
    } else {
      var rest := lines[1..];
      TrimmedIsLongest(rest);
      var kept := Trimmed(rest);
      SuffixOfRest(lines, |kept|);
      forall m: nat | |kept| < m <= |lines| ensures !Fits(Suffix(lines, m)) {
        if m < |lines| { SuffixOfRest(lines, m); }
      }
    }
  }

  lemma {:induction false} SuffixOfAll(lines: seq<Line>)
    ensures Suffix(lines, |lines|) == lines
  {
    DropZero(lines);
  }

  lemma {:induction false} NoneFits()
    ensures Fits([])
  {
  }

  /** A suffix that reaches further back than one that is too long is too long as well. */
  lemma {:induction false} LongerNeverFits(all: seq<Line>, line: Line, m: nat)
    requires m <= |all| && !Fits(Suffix(all, m))
    ensures !Fits(Suffix(all + [line], m + 1))
  {
    var head := Suffix(all, m);
    assert Suffix(all + [line], m + 1) == head + [line];
    BytesAppend(head, [line]);
  }

  lemma {:induction false} SuffixOfMore(kept: seq<Line>, all: seq<Line>, line: Line, m: nat)
    requires |kept| <= |all| && kept == Suffix(all, |kept|) && m <= |kept| + 1
    ensures Suffix(all + [line], m) == Suffix(kept + [line], m)
  {
    var k := |all| - |kept|;
    assert (all + [line])[k..] == kept + [line];
    assert (all + [line])[|all| + 1 - m..] == (all + [line])[k..][|kept| + 1 - m..];
  }

  /** Adding a line to the longest fitting suffix and trimming again gives that of the longer sequence. */
  lemma {:induction false} LongestAppend(kept: seq<Line>, all: seq<Line>, line: Line)
    requires LongestFittingSuffix(kept, all)
    ensures LongestFittingSuffix(Trimmed(kept + [line]), all + [line])
  {
    var more := kept + [line];
    TrimmedIsLongest(more);
    SuffixOfMore(kept, all, line, |Trimmed(more)|);
    forall m: nat | |Trimmed(more)| < m <= |all| + 1 ensures !Fits(Suffix(all + [line], m)) {
      if m > |more| {
        LongerNeverFits(all, line, m - 1);
      } else {
        SuffixOfMore(kept, all, line, m);
      }
    }
  }

  lemma {:induction false} LongestOfNone()
    ensures LongestFittingSuffix([], [])
  {
  }

  lemma {:induction false} NewestIsKept(kept: seq<Line>, all: seq<Line>, line: Line)
    requires LongestFittingSuffix(kept, all + [line]) && |line| <= MAX_BYTES
    ensures kept != []
  {
    assert Suffix(all + [line], 1) == [line];
    assert Bytes([line]) == |line| + Bytes([]);
    assert Fits([line]);
  }

  /**
   After any pushes the ring holds the longest suffix of all (truncated) lines
   within both limits.
   */
  lemma {:induction false} RetainedIsLongestSuffix(history: seq<Line>)
    ensures LongestFittingSuffix(Retained(history), TruncateAll(history))
  {
    hide LongestFittingSuffix, Trimmed;
    if history == [] {
      LongestOfNone();
    } else {
      var n := |history| - 1;
      var prior, line := history[..n], Truncate(history[n]);
      RetainedIsLongestSuffix(prior);
      assert TruncateAll(history) == TruncateAll(prior) + [line];
      LongestAppend(Retained(prior), TruncateAll(prior), line);
    }
  }

  /** The newest line is always kept. */
  lemma {:induction false} NewestIsRetained(history: seq<Line>)
    requires history != []
    ensures Retained(history) != [] && Retained(history)[|Retained(history)| - 1] == Truncate(history[|history| - 1])
  {
    hide LongestFittingSuffix, Retained, Truncate;
    var n := |history| - 1;
    var line, kept := Truncate(history[n]), Retained(history);
    RetainedIsLongestSuffix(history);
    assert TruncateAll(history) == TruncateAll(history[..n]) + [line];
    NewestIsKept(kept, TruncateAll(history[..n]), line);
    LastOfSuffix(kept, TruncateAll(history));
  }

  lemma {:induction false} LastOfSuffix(kept: seq<Line>, all: seq<Line>)
    requires LongestFittingSuffix(kept, all) && kept != []
    ensures all != [] && kept[|kept| - 1] == all[|all| - 1]
  {
  }
}
