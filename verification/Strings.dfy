/** Lexicographic order and common prefixes of the strings that start at two
  * places of one buffer. */
module Strings {
  import opened Words

  /** The first `n` bytes at `a` and at `b` agree. */
  ghost predicate Same(d: seq<Byte>, a: nat, b: nat, n: nat)
    requires a + n <= |d| && b + n <= |d|
    decreases n
  {
    n == 0 || (d[a] == d[b] && Same(d, a + 1, b + 1, n - 1))
  }

  /** The string at `a` does not exceed the one at `b` in their first `n` bytes. */
  ghost predicate Le(d: seq<Byte>, a: nat, b: nat, n: nat)
    requires a + n <= |d| && b + n <= |d|
    decreases n
  {
    n == 0 || d[a] < d[b] || (d[a] == d[b] && Le(d, a + 1, b + 1, n - 1))
  }

  lemma {:induction false} SameAt(d: seq<Byte>, a: nat, b: nat, n: nat, i: nat)
    requires i < n && a + n <= |d| && b + n <= |d|
    requires Same(d, a, b, n)
    ensures d[a + i] == d[b + i]
    decreases n
  {
    if i > 0 {
      SameAt(d, a + 1, b + 1, n - 1, i - 1);
    }
  }

  lemma {:induction false} SamePrefix(d: seq<Byte>, a: nat, b: nat, n: nat, m: nat)
    requires m <= n && a + n <= |d| && b + n <= |d|
    requires Same(d, a, b, n)
    ensures Same(d, a, b, m)
    decreases n
  {
    if m > 0 {
      SamePrefix(d, a + 1, b + 1, n - 1, m - 1);
    }
  }

  lemma {:induction false} SameExtend(d: seq<Byte>, a: nat, b: nat, n: nat)
    requires a + n < |d| && b + n < |d|
    requires Same(d, a, b, n) && d[a + n] == d[b + n]
    ensures Same(d, a, b, n + 1)
    decreases n
  {
    if n > 0 {
      SameExtend(d, a + 1, b + 1, n - 1);
    }
  }

  lemma {:induction false} LeRefl(d: seq<Byte>, a: nat, n: nat)
    requires a + n <= |d|
    ensures Le(d, a, a, n)
    decreases n
  {
    if n > 0 {
      LeRefl(d, a + 1, n - 1);
    }
  }

  lemma {:induction false} LeTrans(d: seq<Byte>, a: nat, b: nat, c: nat, n: nat)
    requires a + n <= |d| && b + n <= |d| && c + n <= |d|
    requires Le(d, a, b, n) && Le(d, b, c, n)
    ensures Le(d, a, c, n)
    decreases n
  {
    if n > 0 && d[a] == d[b] == d[c] {
      LeTrans(d, a + 1, b + 1, c + 1, n - 1);
    }
  }

  lemma {:induction false} LePrefix(d: seq<Byte>, a: nat, b: nat, n: nat, m: nat)
    requires m <= n && a + n <= |d| && b + n <= |d|
    requires Le(d, a, b, n)
    ensures Le(d, a, b, m)
    decreases n
  {
    if m > 0 && d[a] == d[b] {
      LePrefix(d, a + 1, b + 1, n - 1, m - 1);
    }
  }

  /** A string between two others shares every prefix the two share. */
  lemma {:induction false} Sandwich(d: seq<Byte>, a: nat, b: nat, c: nat, x: nat, n: nat, m: nat)
    requires m <= n && a + n <= |d| && b + n <= |d| && c + n <= |d| && x + n <= |d|
    requires Le(d, a, b, n) && Le(d, b, c, n)
    requires Same(d, a, x, m) && Same(d, c, x, m)
    ensures Same(d, b, x, m)
    decreases n
  {
    if m > 0 {
      Sandwich(d, a + 1, b + 1, c + 1, x + 1, n - 1, m - 1);
    }
  }

  /** The first difference decides the order. */
  lemma {:induction false} LeAtDifference(d: seq<Byte>, a: nat, b: nat, n: nat, k: nat)
    requires k < n && a + n <= |d| && b + n <= |d|
    requires Same(d, a, b, k) && d[a + k] < d[b + k]
    ensures Le(d, a, b, n)
    decreases n
  {
    if k > 0 {
      LeAtDifference(d, a + 1, b + 1, n - 1, k - 1);
    }
  }

  lemma {:induction false} SameFlips(d: seq<Byte>, a: nat, b: nat, n: nat)
    requires a + n <= |d| && b + n <= |d|
    requires Same(d, a, b, n)
    ensures Same(d, b, a, n) && Le(d, a, b, n) && Le(d, b, a, n)
    decreases n
  {
    if n > 0 {
      SameFlips(d, a + 1, b + 1, n - 1);
    }
  }

  /** The length of the common prefix, up to `n`. */
  ghost function Lcp(d: seq<Byte>, a: nat, b: nat, n: nat): (k: nat)
    requires a + n <= |d| && b + n <= |d|
    ensures k <= n && Same(d, a, b, k) && (k < n ==> d[a + k] != d[b + k])
    decreases n
  {
    if n == 0 || d[a] != d[b] then 0 else 1 + Lcp(d, a + 1, b + 1, n - 1)
  }

  lemma {:induction false} LcpUnique(d: seq<Byte>, a: nat, b: nat, n: nat, k: nat)
    requires k <= n && a + n <= |d| && b + n <= |d|
    requires Same(d, a, b, k) && (k < n ==> d[a + k] != d[b + k])
    ensures Lcp(d, a, b, n) == k
    decreases n
  {
    if k > 0 {
      LcpUnique(d, a + 1, b + 1, n - 1, k - 1);
    }
  }
}
