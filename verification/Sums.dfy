/** Finite sums: of sequences, and over index ranges of integers and of reals; and powers of two. */
module Sums {

  ghost function SumInt(n: nat, f: nat -> int): int {
    if n == 0 then 0 else SumInt(n - 1, f) + f(n - 1)
  }

  ghost function Sum(n: nat, f: nat -> real): real {
    if n == 0 then 0.0 else Sum(n - 1, f) + f(n - 1)
  }

  function Pow2(k: nat): nat {
    if k == 0 then 1 else 2 * Pow2(k - 1)
  }

  // ---------------------------------------------------------------- sequences

  function SumSeq(c: seq<nat>): nat {
    if c == [] then 0 else SumSeq(c[..|c| - 1]) + c[|c| - 1]
  }

  lemma {:induction false} SumUpdate(c: seq<nat>, i: nat, v: nat)
    requires i < |c|
    ensures SumSeq(c[i := v]) == SumSeq(c) - c[i] + v
  {
    var n := |c| - 1;
    if i == n {
      assert c[i := v][..n] == c[..n];
    } else {
      SumUpdate(c[..n], i, v);
      assert c[i := v][..n] == c[..n][i := v];
    }
  }

  // ---------------------------------------------------------------- integers

  lemma {:induction false} SumIntEq(n: nat, f: nat -> int, h: nat -> int)
    requires forall i: nat :: i < n ==> f(i) == h(i)
    ensures SumInt(n, f) == SumInt(n, h)
  {
    if n > 0 {
      SumIntEq(n - 1, f, h);
    }
  }

  lemma {:induction false} SumIntAdd(n: nat, f: nat -> int, h: nat -> int)
    ensures SumInt(n, (i: nat) => f(i) + h(i)) == SumInt(n, f) + SumInt(n, h)
  {
    if n > 0 {
      SumIntAdd(n - 1, f, h);
    }
  }

  lemma {:induction false} SumIntZero(n: nat, f: nat -> int)
    requires forall i: nat :: i < n ==> f(i) == 0
    ensures SumInt(n, f) == 0
  {
    if n > 0 {
      SumIntZero(n - 1, f);
    }
  }

  /** A sum in which only index k contributes. */
  lemma {:induction false} SumIntSingle(n: nat, k: nat, f: nat -> int)
    requires k < n && forall i: nat :: i < n && i != k ==> f(i) == 0
    ensures SumInt(n, f) == f(k)
  {
    if k == n - 1 {
      SumIntZero(n - 1, f);
    } else {
      SumIntSingle(n - 1, k, f);
    }
  }

  lemma {:induction false} SumIntPositive(n: nat, f: nat -> int)
    requires forall i: nat :: i < n ==> f(i) >= 0
    ensures SumInt(n, f) >= 0
    ensures SumInt(n, f) > 0 <==> exists i: nat :: i < n && f(i) > 0
  {
    if n > 0 {
      SumIntPositive(n - 1, f);
    }
  }

  // ---------------------------------------------------------------- reals

  lemma {:induction false} SumEq(n: nat, f: nat -> real, h: nat -> real)
    requires forall i: nat :: i < n ==> f(i) == h(i)
    ensures Sum(n, f) == Sum(n, h)
  {
    if n > 0 {
      SumEq(n - 1, f, h);
    }
  }

  lemma {:induction false} SumAdd(n: nat, f: nat -> real, h: nat -> real)
    ensures Sum(n, (i: nat) => f(i) + h(i)) == Sum(n, f) + Sum(n, h)
  {
    if n > 0 {
      SumAdd(n - 1, f, h);
    }
  }

  lemma ScaleSum(x: real, y: real, c: real)
    ensures (x + y) * c == x * c + y * c
  {
  }

  /** f is h scaled by c. */
  lemma {:induction false} SumScaled(n: nat, f: nat -> real, h: nat -> real, c: real)
    requires forall i: nat :: i < n ==> f(i) == h(i) * c
    ensures Sum(n, f) == Sum(n, h) * c
  {
    if n > 0 {
      SumScaled(n - 1, f, h, c);
      ScaleSum(Sum(n - 1, h), h(n - 1), c);
    }
  }

  /** f is the scaled total of h and k. */
  lemma {:induction false} SumScaledPair(n: nat, f: nat -> real, h: nat -> real, k: nat -> real, c: real)
    requires forall i: nat :: i < n ==> f(i) == (h(i) + k(i)) * c
    ensures Sum(n, f) == (Sum(n, h) + Sum(n, k)) * c
  {
    if n > 0 {
      SumScaledPair(n - 1, f, h, k, c);
      assert Sum(n, h) + Sum(n, k) == (Sum(n - 1, h) + Sum(n - 1, k)) + (h(n - 1) + k(n - 1));
      ScaleSum(Sum(n - 1, h) + Sum(n - 1, k), h(n - 1) + k(n - 1), c);
    }
  }

  lemma {:induction false} SumZero(n: nat, f: nat -> real)
    requires forall i: nat :: i < n ==> f(i) == 0.0
    ensures Sum(n, f) == 0.0
  {
    if n > 0 {
      SumZero(n - 1, f);
    }
  }

  lemma {:induction false} SumSwap(n: nat, m: nat, f: (nat, nat) -> real)
    ensures Sum(n, (i: nat) => Sum(m, (j: nat) => f(i, j))) == Sum(m, (j: nat) => Sum(n, (i: nat) => f(i, j)))
  {
    if n == 0 {
      SumZero(m, (j: nat) => Sum(n, (i: nat) => f(i, j)));
    } else {
      SumSwap(n - 1, m, f);
      var rest := (j: nat) => Sum(n - 1, (i: nat) => f(i, j));
      var last := (j: nat) => f(n - 1, j);
      SumAdd(m, rest, last);
      SumEq(m, (j: nat) => Sum(n, (i: nat) => f(i, j)), (j: nat) => rest(j) + last(j));
    }
  }

  lemma {:induction false} SumSingle(n: nat, k: nat, f: nat -> real)
    requires k < n && forall i: nat :: i < n && i != k ==> f(i) == 0.0
    ensures Sum(n, f) == f(k)
  {
    if k == n - 1 {
      SumZero(n - 1, f);
    } else {
      SumSingle(n - 1, k, f);
    }
  }

  lemma {:induction false} SumPositive(n: nat, f: nat -> real)
    requires forall i: nat :: i < n ==> f(i) >= 0.0
    ensures Sum(n, f) >= 0.0
    ensures Sum(n, f) > 0.0 <==> exists i: nat :: i < n && f(i) > 0.0
  {
    if n > 0 {
      SumPositive(n - 1, f);
    }
  }
}
