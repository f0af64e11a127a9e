/** Facts about sequences, stated once so that proofs can cite them. */
module Sequences {

  lemma {:induction false} AppendAssoc<T>(a: seq<T>, b: seq<T>, c: seq<T>)
    ensures a + (b + c) == (a + b) + c
  {
  }

  lemma {:induction false} AppendEmpty<T>(a: seq<T>)
    ensures a + [] == a && [] + a == a
  {
  }

  lemma {:induction false} DropDrop<T>(s: seq<T>, m: nat, n: nat)
    requires m + n <= |s|
    ensures s[m..][n..] == s[m + n..]
  {
  }

  lemma {:induction false} TakeDrop<T>(s: seq<T>, n: nat)
    requires n <= |s|
    ensures s[..n] + s[n..] == s
  {
  }

  lemma {:induction false} DropPrefix<T>(part: seq<T>, full: seq<T>, n: nat)
    requires part <= full && n <= |part|
    ensures part[n..] <= full[n..]
  {
  }

  lemma {:induction false} DropZero<T>(s: seq<T>)
    ensures s[0..] == s && s[..|s|] == s
  {
  }

  lemma {:induction false} Cons<T>(s: seq<T>)
    requires s != []
    ensures s == [s[0]] + s[1..]
  {
  }

  /** The last element apart. */
  lemma {:induction false} Snoc<T>(s: seq<T>)
    requires s != []
    ensures s == s[..|s| - 1] + [s[|s| - 1]]
  {
  }

  /** Appending keeps the tail of the first part in place. */
  lemma {:induction false} TailAppend<T>(a: seq<T>, b: seq<T>)
    requires a != []
    ensures (a + b)[1..] == a[1..] + b && (a + b)[0] == a[0]
  {
  }

  lemma {:induction false} InitAppend<T>(a: seq<T>, b: seq<T>)
    requires b != []
    ensures (a + b)[..|a + b| - 1] == a + b[..|b| - 1] && (a + b)[|a + b| - 1] == b[|b| - 1]
  {
  }
}
