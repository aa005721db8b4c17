/** Failure-compatible wrappers and the Python sequence rules (indexing,
    slicing) that the documentation extractor relies on. */
module Common {

  /** A value that may be absent; Python's `None` for a missing lookup. */
  datatype Option<+T> = None | Some(value: T) {
    function GetOr(default: T): T {
      match this
      case Some(v) => v
      case None => default
    }
  }

  /** The outcome of a computation that the source may abort with an exception. */
  datatype Result<+T, +E> = Ok(value: T) | Err(error: E) {
    predicate IsFailure() {
      Err?
    }

    function PropagateFailure<U>(): Result<U, E>
      requires Err?
    {
      Err(error)
    }

    function Extract(): T
      requires Ok?
    {
      value
    }
  }

  /** Python `xs[i]` where an `IndexError` is caught and becomes `None`:
      a negative index counts from the end, anything further out is absent. */
  function PyIndex<T>(xs: seq<T>, i: int): Option<T> {
    if 0 <= i < |xs| then Some(xs[i])
    else if -|xs| <= i < 0 then Some(xs[|xs| + i])
    else None
  }

  /** Python indexing reaches every index in `-|xs|..|xs| - 1`, and there
      the element at the index's residue modulo `|xs|`. */
  lemma PyIndexResidue<T>(xs: seq<T>, i: int)
    ensures PyIndex(xs, i).None? <==> i >= |xs| || i < -|xs|
    ensures PyIndex(xs, i).Some? ==> PyIndex(xs, i).value == xs[i % |xs|]
  {
  }

  /** Python `xs[:stop]`, including a negative `stop`. */
  function PySliceTo<T>(xs: seq<T>, stop: int): (r: seq<T>)
    ensures |r| <= |xs| && r == xs[..|r|]
    ensures 0 <= stop ==> |r| == if stop <= |xs| then stop else |xs|
    ensures stop < 0 ==> |r| == if -stop <= |xs| then |xs| + stop else 0
  {
    if 0 <= stop then
      (if stop <= |xs| then xs[..stop] else xs)
    else if -stop <= |xs| then xs[..|xs| + stop]
    else []
  }

  /** `n` copies of `x`. */
  function Repeat<T>(x: T, n: nat): (r: seq<T>)
    ensures |r| == n
    ensures forall k :: 0 <= k < n ==> r[k] == x
  {
    if n == 0 then [] else Repeat(x, n - 1) + [x]
  }

  /** Python `reversed(xs)`, collected into a sequence. */
  function Reverse<T>(xs: seq<T>): (r: seq<T>)
    ensures |r| == |xs|
    ensures forall k :: 0 <= k < |xs| ==> r[k] == xs[|xs| - 1 - k]
  {
    if |xs| == 0 then [] else [xs[|xs| - 1]] + Reverse(xs[..|xs| - 1])
  }

  /** Python `''.join(parts)`. */
  function Join(parts: seq<string>): string {
    if |parts| == 0 then "" else Join(parts[..|parts| - 1]) + parts[|parts| - 1]
  }

  /** Python `list(s)`: the one-character strings of `s`, in order. */
  function Characters(s: string): (r: seq<string>)
    ensures |r| == |s|
    ensures forall k :: 0 <= k < |s| ==> r[k] == [s[k]]
  {
    seq(|s|, k requires 0 <= k < |s| => [s[k]])
  }

  /** Joining the characters of a string gives the string back. */
  lemma {:induction false} JoinCharacters(s: string)
    ensures Join(Characters(s)) == s
  {
    if |s| > 0 {
      JoinCharacters(s[..|s| - 1]);
      assert Characters(s)[..|s| - 1] == Characters(s[..|s| - 1]);
      assert s == s[..|s| - 1] + [s[|s| - 1]];
    }
  }

  /** Joining two lists of strings one after the other joins each. */
  lemma {:induction false} JoinAppend(a: seq<string>, b: seq<string>)
    ensures Join(a + b) == Join(a) + Join(b)
    decreases |b|
  {
    if |b| == 0 {
      assert a + b == a;
    } else {
      var init := b[..|b| - 1];
      JoinAppend(a, init);
      assert (a + b)[..|a + b| - 1] == a + init;
      assert Join(a + b) == Join(a + init) + b[|b| - 1];
    }
  }
}

/** ASCII stand-ins for the Unicode character classes Python's `str`
    methods test on a one-character string. */
module Ascii {

  /** `c.isalpha()` restricted to ASCII. */
  predicate IsAlpha(c: char) {
    'a' <= c <= 'z' || 'A' <= c <= 'Z'
  }

  /** `c.isidentifier()` for a single ASCII character: a letter or `_`. */
  predicate IsIdentifier(c: char) {
    IsAlpha(c) || c == '_'
  }

  /** `c.isnumeric()` restricted to ASCII. */
  predicate IsNumeric(c: char) {
    '0' <= c <= '9'
  }

  /** `c.isspace()` restricted to ASCII: blank, tab, line feed, vertical
      tab, form feed, carriage return and the four separators 0x1C-0x1F. */
  predicate IsSpace(c: char) {
    c == ' ' || c == '\t' || c == '\n' || c == '\r' || c == '\U{000B}' || c == '\U{000C}'
    || c == '\U{001C}' || c == '\U{001D}' || c == '\U{001E}' || c == '\U{001F}'
  }
}
