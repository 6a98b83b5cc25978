/** Cardinality facts about finite sets of vertices, and the smaller of two numbers. */
module Sets {

  function Min(a: int, b: int): int {
    if a <= b then a else b
  }

  lemma {:induction false} SubsetCard<T>(s: set<T>, t: set<T>)
    requires s <= t
    ensures |s| <= |t|
  {
    if s != {} {
      var x :| x in s;
      SubsetCard(s - {x}, t - {x});
    }
  }

  lemma ProperSubsetCard<T>(s: set<T>, t: set<T>)
    requires s < t
    ensures |s| < |t|
  {
    var x :| x in t && x !in s;
    SubsetCard(s, t - {x});
  }

  lemma {:induction false} RangeCard(s: set<nat>, n: nat)
    requires forall x :: x in s ==> x < n
    ensures |s| <= n
  {
    if n > 0 {
      RangeCard(s - {n - 1}, n - 1);
    } else {
      assert s == {};
    }
  }

  /** Two finite sets related one to one have the same size. */
  lemma {:induction false} BijectionCard<S(!new), T(!new)>(s: set<S>, t: set<T>, f: S -> T)
    requires forall x :: x in s ==> f(x) in t
    requires forall x, y :: x in s && y in s && f(x) == f(y) ==> x == y
    requires forall z :: z in t ==> exists x :: x in s && f(x) == z
    ensures |s| == |t|
  {
    if s == {} {
      assert t == {};
    } else {
      var x :| x in s;
      forall z | z in t - {f(x)} ensures exists y :: y in s - {x} && f(y) == z {
        var y :| y in s && f(y) == z;
        assert y in s - {x};
      }
      BijectionCard(s - {x}, t - {f(x)}, f);
    }
  }

  ghost predicate Distinct<T>(q: seq<T>) {
    forall i, j :: 0 <= i < j < |q| ==> q[i] != q[j]
  }

  /** A duplicate-free sequence of values below n has at most n elements. */
  lemma {:induction false} DistinctBound(q: seq<nat>, n: nat)
    requires Distinct(q)
    requires forall i :: 0 <= i < |q| ==> q[i] < n
    ensures |q| <= n
  {
    DistinctCard(q);
    RangeCard((set x | x in q), n);
  }

  lemma {:induction false} DistinctCard<T>(q: seq<T>)
    requires Distinct(q)
    ensures |(set x | x in q)| == |q|
  {
    if q != [] {
      var r := q[..|q| - 1];
      DistinctCard(r);
      assert (set x | x in q) == (set x | x in r) + {q[|q| - 1]};
    }
  }

  /** A duplicate-free list of a set has its size. */
  lemma {:induction false} ListedCard<T>(q: seq<T>, s: set<T>)
    requires Distinct(q) && forall x :: x in q <==> x in s
    ensures |q| == |s|
  {
    if q != [] {
      var r, last := q[..|q| - 1], q[|q| - 1];
      assert forall x :: x in q <==> x in r || x == last;
      assert last in s && last !in r;
      ListedCard(r, s - {last});
    } else {
      assert forall x :: x !in s;
      assert s == {};
    }
  }

  /** The vertices whose mark, a parent or a depth, is still negative. */
  ghost function Unvisited(marks: seq<int>): set<nat> {
    set v: nat | v < |marks| && marks[v] < 0
  }
}
