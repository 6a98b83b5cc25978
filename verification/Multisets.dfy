/** Rearranging and cancelling multiset sums, and permutations. */
module Multisets {
  import opened Sets

  lemma SumSwap<T>(a: multiset<T>, b: multiset<T>, c: multiset<T>)
    ensures a + b + c == a + c + b
  {
  }

  lemma SumPairs<T>(a: multiset<T>, b: multiset<T>, c: multiset<T>, d: multiset<T>)
    ensures (a + b) + (c + d) == (a + c) + (b + d)
  {
  }

  lemma Cancel<T>(a: multiset<T>, b: multiset<T>, c: multiset<T>)
    requires a + c == b + c
    ensures a == b
  {
    forall x ensures a[x] == b[x] {
      assert (a + c)[x] == a[x] + c[x] && (b + c)[x] == b[x] + c[x];
    }
  }

  predicate Permuted(a: seq<nat>, b: seq<nat>) {
    multiset(a) == multiset(b)
  }

  /** What stands at two places counts twice. */
  lemma CountTwice(q: seq<nat>, i: nat, j: nat)
    requires i < j < |q| && q[i] == q[j]
    ensures multiset(q)[q[i]] >= 2
  {
    assert q == q[..j] + q[j..];
    assert q[..j][i] == q[i] && q[j..][0] == q[i];
    assert multiset(q[..j])[q[i]] >= 1 && multiset(q[j..])[q[i]] >= 1;
  }

  lemma {:induction false} DistinctOnce(q: seq<nat>, x: nat)
    requires Distinct(q)
    ensures multiset(q)[x] <= 1
  {
    if q != [] {
      var most := q[..|q| - 1];
      DistinctOnce(most, x);
      assert q == most + [q[|q| - 1]];
      if q[|q| - 1] == x {
        assert x !in most;
      }
    }
  }

  lemma PermutedDistinct(a: seq<nat>, b: seq<nat>)
    requires Permuted(a, b) && Distinct(a)
    ensures Distinct(b)
  {
    forall i, j | 0 <= i < j < |b| ensures b[i] != b[j] {
      if b[i] == b[j] {
        CountTwice(b, i, j);
        DistinctOnce(a, b[i]);
      }
    }
  }
}
