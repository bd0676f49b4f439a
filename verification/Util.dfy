/** Sums over sequences, duplicate-free sequences and 64-bit words, shared by all components. */
module Util {
  const U64: nat := 0x1_0000_0000_0000_0000

  /** A C `u64`. */
  type Word = w: int | 0 <= w < U64

  datatype Option<+T> = None | Some(value: T)

  function Max(a: nat, b: nat): nat {
    if a < b then b else a
  }

  /** The sum of f over the elements of s. */
  function Sum<T>(f: T -> nat, s: seq<T>): nat {
    if s == [] then 0 else f(s[0]) + Sum(f, s[1..])
  }

  function Identity(n: nat): nat {
    n
  }

  ghost predicate NoDup<T>(s: seq<T>) {
    forall i, j | 0 <= i < j < |s| :: s[i] != s[j]
  }

  /** Replacing one element changes a sum by the difference of the two values. */
  lemma {:induction false} SumUpdate<T>(f: T -> nat, s: seq<T>, i: nat, x: T)
    requires i < |s|
    ensures Sum(f, s[i := x]) + f(s[i]) == Sum(f, s) + f(x)
  {
    if i == 0 {
      assert s[i := x][1..] == s[1..];
    } else {
      assert s[i := x][1..] == s[1..][i - 1 := x];
      SumUpdate(f, s[1..], i - 1, x);
    }
  }

  lemma {:induction false} SumAppend<T>(f: T -> nat, s: seq<T>, x: T)
    ensures Sum(f, s + [x]) == Sum(f, s) + f(x)
  {
    if s == [] {
      assert s + [x] == [x];
    } else {
      assert (s + [x])[1..] == s[1..] + [x];
      SumAppend(f, s[1..], x);
    }
  }

  /** If every element counts at most b, the sum is at most b times the length. */
  lemma {:induction false} SumAtMost<T>(f: T -> nat, s: seq<T>, b: nat)
    requires forall k | 0 <= k < |s| :: f(s[k]) <= b
    ensures Sum(f, s) <= b * |s|
  {
    if s != [] {
      SumAtMost(f, s[1..], b);
      assert b * |s| == b + b * |s[1..]| by {
        assert |s| == 1 + |s[1..]|;
      }
    }
  }

  /** If every element counts exactly b, the sum is b times the length. */
  lemma {:induction false} SumConstant<T>(f: T -> nat, s: seq<T>, b: nat)
    requires forall k | 0 <= k < |s| :: f(s[k]) == b
    ensures Sum(f, s) == b * |s|
  {
    if s != [] {
      SumConstant(f, s[1..], b);
      assert b * |s| == b + b * |s[1..]| by {
        assert |s| == 1 + |s[1..]|;
      }
    }
  }

  /** Each element is bounded by the sum. */
  lemma {:induction false} SumAtLeast<T>(f: T -> nat, s: seq<T>, i: nat)
    requires i < |s|
    ensures f(s[i]) <= Sum(f, s)
  {
    if i > 0 {
      SumAtLeast(f, s[1..], i - 1);
    }
  }

  /** Counting in 64 bits is counting modulo 2^64. */
  lemma IncrementWraps(n: nat)
    ensures (n % U64 + 1) % U64 == (n + 1) % U64
  {
  }

  lemma {:induction false} SumSame<T>(f: T -> nat, g: T -> nat, s: seq<T>)
    requires forall k | 0 <= k < |s| :: f(s[k]) == g(s[k])
    ensures Sum(f, s) == Sum(g, s)
  {
    if s != [] {
      SumSame(f, g, s[1..]);
    }
  }

  lemma {:induction false} SumConcat<T>(f: T -> nat, a: seq<T>, b: seq<T>)
    ensures Sum(f, a + b) == Sum(f, a) + Sum(f, b)
  {
    if a == [] {
      assert a + b == b;
    } else {
      assert (a + b)[1..] == a[1..] + b;
      SumConcat(f, a[1..], b);
    }
  }

  /** Sums compare pointwise, across element types. */
  lemma {:induction false} SumMonotone<T, U>(f: T -> nat, a: seq<T>, g: U -> nat, b: seq<U>)
    requires |a| == |b| && forall k | 0 <= k < |a| :: f(a[k]) <= g(b[k])
    ensures Sum(f, a) <= Sum(g, b)
    decreases |a|
  {
    if a != [] {
      SumMonotone(f, a[1..], g, b[1..]);
    }
  }
}
