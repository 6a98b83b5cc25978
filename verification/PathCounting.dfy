/** Walk counts, shortest-path counts and Brandes dependencies, as plain definitions over a graph with
    parallel edges, and the two recurrences that the betweenness kernel rests on. */
module PathCounting {
  import opened Graphs
  import opened Sums

  /** The number of walks of exactly k edges from u to t. */
  ghost function Walks(g: Adj, u: nat, t: nat, k: nat): nat
    decreases k, 0
  {
    if k == 0 then (if u == t then 1 else 0)
    else if u < |g| then WalksVia(g, g[u], |g[u]|, t, k - 1) else 0
  }

  /** Walks of k edges to t from the first m listed vertices together. */
  ghost function WalksVia(g: Adj, from: seq<nat>, m: nat, t: nat, k: nat): nat
    requires m <= |from|
    decreases k, m + 1
  {
    if m == 0 then 0 else WalksVia(g, from, m - 1, t, k) + Walks(g, from[m - 1], t, k)
  }

  /** The number of parallel edges from u to v among the first m of u's list. */
  function Mult(g: Adj, u: nat, v: nat, m: nat): nat
    requires u < |g| && m <= |g[u]|
  {
    if m == 0 then 0 else Mult(g, u, v, m - 1) + if g[u][m - 1] == v then 1 else 0
  }

  ghost function Edges(g: Adj, u: nat, v: nat): nat {
    if u < |g| then Mult(g, u, v, |g[u]|) else 0
  }

  lemma {:induction false} MultPositive(g: Adj, u: nat, v: nat, m: nat)
    requires u < |g| && m <= |g[u]|
    ensures Mult(g, u, v, m) > 0 <==> v in g[u][..m]
  {
    if m > 0 {
      MultPositive(g, u, v, m - 1);
      assert g[u][..m] == g[u][..m - 1] + [g[u][m - 1]];
    }
  }

  lemma EdgesPositive(g: Adj, u: nat, v: nat)
    ensures Edges(g, u, v) > 0 <==> HasEdge(g, u, v)
  {
    if u < |g| {
      MultPositive(g, u, v, |g[u]|);
      assert g[u][..|g[u]|] == g[u];
    }
  }

  // ---------------------------------------------------------------- last-edge recurrence

  /** Walks of k edges from s to u, extended over one of the edges from u to v. */
  ghost function Extended(g: Adj, s: nat, v: nat, k: nat, u: nat): int {
    Walks(g, s, u, k) * Edges(g, u, v)
  }

  ghost predicate ByLastEdge(g: Adj, s: nat, v: nat, k: nat) {
    Walks(g, s, v, k + 1) == SumInt(|g|, (u: nat) => Extended(g, s, v, k, u))
  }

  lemma {:induction false} ViaIsSum(g: Adj, from: seq<nat>, m: nat, v: nat, k: nat)
    requires Valid(g) && m <= |from| && forall j :: 0 <= j < |from| ==> from[j] < |g|
    requires forall u: nat :: u < |g| ==> ByLastEdge(g, u, v, k)
    ensures WalksVia(g, from, m, v, k + 1) == SumInt(|g|, (x: nat) => WalksVia(g, from, m, x, k) * Edges(g, x, v))
  {
    var total := (x: nat) => WalksVia(g, from, m, x, k) * Edges(g, x, v);
    if m == 0 {
      SumIntZero(|g|, total);
    } else {
      ViaIsSum(g, from, m - 1, v, k);
      assert ByLastEdge(g, from[m - 1], v, k);
      var rest := (x: nat) => WalksVia(g, from, m - 1, x, k) * Edges(g, x, v);
      var last := (x: nat) => Extended(g, from[m - 1], v, k, x);
      SumIntAdd(|g|, rest, last);
      forall x: nat | x < |g| ensures total(x) == rest(x) + last(x) {
        Distribute(WalksVia(g, from, m - 1, x, k), Walks(g, from[m - 1], x, k), Edges(g, x, v));
      }
      SumIntEq(|g|, total, (x: nat) => rest(x) + last(x));
    }
  }

  lemma Distribute(a: int, b: int, c: int)
    ensures (a + b) * c == a * c + b * c
  {
  }

  /** Counting by the last edge gives the same number as counting by the first. */
  lemma {:induction false} WalksByLastEdge(g: Adj, s: nat, v: nat, k: nat)
    requires Valid(g) && s < |g|
    ensures ByLastEdge(g, s, v, k)
    decreases k
  {
    if k == 0 {
      var f := (u: nat) => Extended(g, s, v, 0, u);
      SumIntSingle(|g|, s, f);
      ViaZero(g, s, v, |g[s]|);
    } else {
      var k' := k - 1;
      forall u: nat | u < |g| ensures ByLastEdge(g, u, v, k') {
        WalksByLastEdge(g, u, v, k');
      }
      ViaIsSum(g, g[s], |g[s]|, v, k - 1);
      SumIntEq(|g|, (x: nat) => WalksVia(g, g[s], |g[s]|, x, k - 1) * Edges(g, x, v),
               (u: nat) => Extended(g, s, v, k, u));
    }
  }

  lemma {:induction false} ViaZero(g: Adj, s: nat, v: nat, m: nat)
    requires s < |g| && m <= |g[s]|
    ensures WalksVia(g, g[s], m, v, 0) == Mult(g, s, v, m)
  {
    if m > 0 {
      ViaZero(g, s, v, m - 1);
    }
  }

  /** Walk counts are positive exactly where a walk exists. */
  lemma {:induction false} WalksPositive(g: Adj, s: nat, v: nat, k: nat)
    requires Valid(g) && s < |g|
    ensures Walks(g, s, v, k) > 0 <==> Reach(g, s, v, k)
    decreases k
  {
    if k > 0 {
      WalksByLastEdge(g, s, v, k - 1);
      var f := (u: nat) => Extended(g, s, v, k - 1, u);
      SumIntPositive(|g|, f);
      forall u: nat | u < |g| ensures f(u) > 0 <==> Reach(g, s, u, k - 1) && HasEdge(g, u, v) {
        WalksPositive(g, s, u, k - 1);
        EdgesPositive(g, u, v);
        ProductPositive(Walks(g, s, u, k - 1), Edges(g, u, v));
      }
      if Reach(g, s, v, k) {
        var u: nat :| Reach(g, s, u, k - 1) && HasEdge(g, u, v);
        assert f(u) > 0;
      }
    }
  }

  lemma ProductPositive(a: nat, b: nat)
    ensures a * b > 0 <==> a > 0 && b > 0
  {
  }

  lemma {:induction false} ReachCompose(g: Adj, s: nat, v: nat, t: nat, a: nat, b: nat)
    requires Reach(g, s, v, a) && Reach(g, v, t, b)
    ensures Reach(g, s, t, a + b)
    decreases b
  {
    if b > 0 {
      var u: nat :| Reach(g, v, u, b - 1) && HasEdge(g, u, t);
      ReachCompose(g, s, v, u, a, b - 1);
      ReachStep(g, s, u, t, a + b - 1);
    }
  }

  // ---------------------------------------------------------------- shortest paths and dependencies

  /** The number of shortest paths from s to v. */
  ghost function PathCount(g: Adj, s: nat, dist: seq<int>, v: nat): nat {
    if v < |dist| && dist[v] >= 0 then Walks(g, s, v, dist[v]) else 0
  }

  lemma PathCountPositive(g: Adj, s: nat, dist: seq<int>, v: nat)
    requires Valid(g) && s < |g| && Depths(g, s, dist) && v < |g| && dist[v] >= 0
    ensures PathCount(g, s, dist, v) > 0
  {
    WalksPositive(g, s, v, dist[v]);
  }

  /** w out of c. */
  ghost function Ratio(w: nat, c: nat): real {
    if c == 0 then 0.0 else w as real / c as real
  }

  /** Walks from u that reach t in exactly the remaining number of edges, per shortest path to t.
      Zero unless t is strictly deeper than u. */
  ghost function Tail(g: Adj, s: nat, dist: seq<int>, u: nat, t: nat): real {
    if u < |dist| && t < |dist| && 0 <= dist[u] < dist[t]
    then Ratio(Walks(g, u, t, dist[t] - dist[u]), PathCount(g, s, dist, t))
    else 0.0
  }

  /** The fraction of the shortest paths to t that run through u, summed over all t below u:
      paths to u, times tails from u. This is Brandes' dependency of the source on u. */
  ghost function Dependency(g: Adj, s: nat, dist: seq<int>, u: nat): real {
    Sum(|g|, (t: nat) => PathCount(g, s, dist, u) as real * Tail(g, s, dist, u, t))
  }

  ghost function Tails(g: Adj, s: nat, dist: seq<int>, u: nat): real {
    Sum(|g|, (t: nat) => Tail(g, s, dist, u, t))
  }

  lemma DependencyIsTails(g: Adj, s: nat, dist: seq<int>, u: nat)
    ensures Dependency(g, s, dist, u) == Tails(g, s, dist, u) * PathCount(g, s, dist, u) as real
  {
    hide Tail, PathCount;
    SumScaled(|g|, (t: nat) => PathCount(g, s, dist, u) as real * Tail(g, s, dist, u, t),
              (t: nat) => Tail(g, s, dist, u, t), PathCount(g, s, dist, u) as real);
  }

  predicate OneDown(g: Adj, dist: seq<int>, u: nat, j: nat) {
    u < |g| && u < |dist| && j < |g[u]| && g[u][j] < |dist| && dist[g[u][j]] == dist[u] + 1
  }

  /** What the successor at list position j of u contributes to u's dependency. */
  ghost function Credit(g: Adj, s: nat, dist: seq<int>, u: nat, j: nat): real {
    if OneDown(g, dist, u, j)
    then Ratio(PathCount(g, s, dist, u), PathCount(g, s, dist, g[u][j])) * (1.0 + Dependency(g, s, dist, g[u][j]))
    else 0.0
  }

  /** Tails from u to t whose first edge is list position j. */
  ghost function TailVia(g: Adj, s: nat, dist: seq<int>, u: nat, j: nat, t: nat): real {
    if OneDown(g, dist, u, j) && t < |dist| && 0 < dist[g[u][j]] <= dist[t]
    then Ratio(Walks(g, g[u][j], t, dist[t] - dist[g[u][j]]), PathCount(g, s, dist, t))
    else 0.0
  }

  ghost function TailsVia(g: Adj, s: nat, dist: seq<int>, u: nat, j: nat): real {
    Sum(|g|, (t: nat) => TailVia(g, s, dist, u, j, t))
  }

  // ---------------------------------------------------------------- Brandes' recurrence

  lemma CreditArithmetic(a: nat, b: nat, tails: real)
    requires b > 0
    ensures Ratio(a, b) * (1.0 + tails * b as real) == (Ratio(1, b) + tails) * a as real
  {
    var x, y := a as real, b as real;
    assert Ratio(a, b) == x / y && Ratio(1, b) == 1.0 / y;
    assert x / y * (tails * y) == tails * x by {
      assert x / y * y == x;
      assert x / y * (tails * y) == (x / y * y) * tails;
    }
    assert 1.0 / y * x == x / y;
  }

  /** One successor's credit is u's path count times the tails that start with its edge. */
  lemma CreditIsTails(g: Adj, s: nat, dist: seq<int>, u: nat, j: nat)
    requires Valid(g) && s < |g| && Depths(g, s, dist) && u < |g| && dist[u] >= 0 && j < |g[u]|
    ensures Credit(g, s, dist, u, j)
            == TailsVia(g, s, dist, u, j) * PathCount(g, s, dist, u) as real
  {
    var v := g[u][j];
    var via := (t: nat) => TailVia(g, s, dist, u, j, t);
    if dist[v] != dist[u] + 1 {
      SumZero(|g|, via);
    } else {
      PathCountPositive(g, s, dist, v);
      SuccessorTails(g, s, dist, u, j);
      DependencyIsTails(g, s, dist, v);
      CreditArithmetic(PathCount(g, s, dist, u), PathCount(g, s, dist, v), Tails(g, s, dist, v));
    }
  }

  lemma SuccessorTails(g: Adj, s: nat, dist: seq<int>, u: nat, j: nat)
    requires Valid(g) && s < |g| && Depths(g, s, dist) && u < |g| && dist[u] >= 0 && j < |g[u]|
    requires dist[g[u][j]] == dist[u] + 1
    ensures TailsVia(g, s, dist, u, j)
            == Ratio(1, PathCount(g, s, dist, g[u][j])) + Tails(g, s, dist, g[u][j])
  {
    var v := g[u][j];
    var via := (t: nat) => TailVia(g, s, dist, u, j, t);
    var self := (t: nat) => if t == v then Ratio(1, PathCount(g, s, dist, v)) else 0.0;
    var below := (t: nat) => Tail(g, s, dist, v, t);
    forall t: nat | t < |g| ensures via(t) == (self(t) + below(t)) * 1.0 {
      assert Walks(g, v, t, 0) == if t == v then 1 else 0;
      assert Ratio(0, PathCount(g, s, dist, t)) == 0.0;
    }
    SumScaledPair(|g|, via, self, below, 1.0);
    SumSingle(|g|, v, self);
  }

  /** Over an edge that is not one level down no shortest path continues. */
  lemma OnlyOneDown(g: Adj, s: nat, dist: seq<int>, u: nat, j: nat, t: nat)
    requires Valid(g) && s < |g| && Depths(g, s, dist) && u < |g| && t < |g| && 0 <= dist[u] < dist[t] && j < |g[u]|
    requires dist[g[u][j]] != dist[u] + 1
    ensures Walks(g, g[u][j], t, dist[t] - dist[u] - 1) == 0
  {
    var v := g[u][j];
    var k := dist[t] - dist[u] - 1;
    assert HasEdge(g, u, v);
    var e := DistEdge(g, s, u, v, dist[u]);
    assert Reachable(g, s, v);
    DistUnique(g, s, v, e, dist[v]);
    WalksPositive(g, v, t, k);
    if Reach(g, v, t, k) {
      ReachCompose(g, s, v, t, dist[v], k);
    }
  }

  lemma {:induction false} RatioOfVia(g: Adj, from: seq<nat>, m: nat, t: nat, k: nat, c: nat, f: nat -> real)
    requires m <= |from| && forall j: nat :: j < m ==> f(j) == Ratio(Walks(g, from[j], t, k), c)
    ensures Sum(m, f) == Ratio(WalksVia(g, from, m, t, k), c)
  {
    if m > 0 {
      RatioOfVia(g, from, m - 1, t, k, c, f);
      RatioAdd(WalksVia(g, from, m - 1, t, k), Walks(g, from[m - 1], t, k), c);
    } else {
      assert Ratio(0, c) == 0.0;
    }
  }

  lemma RatioAdd(a: nat, b: nat, c: nat)
    ensures Ratio(a + b, c) == Ratio(a, c) + Ratio(b, c)
  {
  }

  /** The tails of u to t are those over its list positions together. */
  lemma TailByFirstEdge(g: Adj, s: nat, dist: seq<int>, u: nat, t: nat, via: nat -> real)
    requires Valid(g) && s < |g| && Depths(g, s, dist) && u < |g| && dist[u] >= 0 && t < |g|
    requires forall j: nat :: via(j) == TailVia(g, s, dist, u, j, t)
    ensures Sum(|g[u]|, via) == Tail(g, s, dist, u, t)
  {
    if dist[t] <= dist[u] {
      SumZero(|g[u]|, via);
    } else {
      var k, c := dist[t] - dist[u] - 1, PathCount(g, s, dist, t);
      forall j: nat | j < |g[u]| ensures via(j) == Ratio(Walks(g, g[u][j], t, k), c) {
        if dist[g[u][j]] != dist[u] + 1 {
          OnlyOneDown(g, s, dist, u, j, t);
          assert Ratio(0, c) == 0.0;
        }
      }
      RatioOfVia(g, g[u], |g[u]|, t, k, c, via);
    }
  }

  lemma TailsByFirstEdge(g: Adj, s: nat, dist: seq<int>, u: nat)
    requires Valid(g) && s < |g| && Depths(g, s, dist) && u < |g| && dist[u] >= 0
    ensures Tails(g, s, dist, u)
            == Sum(|g[u]|, (j: nat) => TailsVia(g, s, dist, u, j))
  {
    var via := (j: nat, t: nat) => TailVia(g, s, dist, u, j, t);
    SumSwap(|g[u]|, |g|, via);
    forall j: nat | j < |g[u]|
      ensures TailsVia(g, s, dist, u, j) == Sum(|g|, (t: nat) => via(j, t))
    {
      SumEq(|g|, (t: nat) => TailVia(g, s, dist, u, j, t), (t: nat) => via(j, t));
    }
    SumEq(|g[u]|, (j: nat) => TailsVia(g, s, dist, u, j),
          (j: nat) => Sum(|g|, (t: nat) => via(j, t)));
    forall t: nat | t < |g| ensures Sum(|g[u]|, (j: nat) => via(j, t)) == Tail(g, s, dist, u, t) {
      TailByFirstEdge(g, s, dist, u, t, (j: nat) => via(j, t));
    }
    SumEq(|g|, (t: nat) => Sum(|g[u]|, (j: nat) => via(j, t)), (t: nat) => Tail(g, s, dist, u, t));
  }

  /** The dependency on u is the credit of its successors one level down. */
  lemma DependencyRecurrence(g: Adj, s: nat, dist: seq<int>, u: nat)
    requires Valid(g) && s < |g| && Depths(g, s, dist) && u < |g| && dist[u] >= 0
    ensures Dependency(g, s, dist, u) == Sum(|g[u]|, (j: nat) => Credit(g, s, dist, u, j))
  {
    hide Credit, TailsVia, Tails, PathCount, Dependency, Depths;
    forall j: nat | j < |g[u]|
      ensures Credit(g, s, dist, u, j)
              == TailsVia(g, s, dist, u, j) * PathCount(g, s, dist, u) as real
    {
      CreditIsTails(g, s, dist, u, j);
    }
    SumScaled(|g[u]|, (j: nat) => Credit(g, s, dist, u, j),
              (j: nat) => TailsVia(g, s, dist, u, j), PathCount(g, s, dist, u) as real);
    TailsByFirstEdge(g, s, dist, u);
    DependencyIsTails(g, s, dist, u);
  }

  // ---------------------------------------------------------------- which dependencies are positive

  lemma RatioSign(w: nat, c: nat)
    ensures Ratio(w, c) >= 0.0 && (w > 0 && c > 0 ==> Ratio(w, c) > 0.0)
  {
  }

  lemma TailSign(g: Adj, s: nat, dist: seq<int>, u: nat, t: nat)
    ensures Tail(g, s, dist, u, t) >= 0.0
  {
    hide Ratio, PathCount, Walks;
    if u < |dist| && t < |dist| && 0 <= dist[u] < dist[t] {
      RatioSign(Walks(g, u, t, dist[t] - dist[u]), PathCount(g, s, dist, t));
    }
  }

  lemma TailsSign(g: Adj, s: nat, dist: seq<int>, u: nat)
    ensures Tails(g, s, dist, u) >= 0.0
    ensures Tails(g, s, dist, u) > 0.0 <==> exists t: nat :: t < |g| && Tail(g, s, dist, u, t) > 0.0
  {
    hide Tail;
    forall t: nat ensures Tail(g, s, dist, u, t) >= 0.0 {
      TailSign(g, s, dist, u, t);
    }
    var f := (t: nat) => Tail(g, s, dist, u, t);
    SumPositive(|g|, f);
    assert forall t: nat :: f(t) == Tail(g, s, dist, u, t);
  }

  lemma DependencySign(g: Adj, s: nat, dist: seq<int>, u: nat)
    ensures Dependency(g, s, dist, u) >= 0.0
    ensures Dependency(g, s, dist, u) > 0.0 <==> PathCount(g, s, dist, u) > 0 && Tails(g, s, dist, u) > 0.0
  {
    hide Tails, PathCount, Dependency;
    DependencyIsTails(g, s, dist, u);
    TailsSign(g, s, dist, u);
    ProductSign(Tails(g, s, dist, u), PathCount(g, s, dist, u));
  }

  lemma ProductSign(x: real, n: nat)
    requires x >= 0.0
    ensures x * n as real >= 0.0 && (x * n as real > 0.0 <==> n > 0 && x > 0.0)
  {
  }

  /** s has an edge to another vertex. */
  predicate LeavesItself(g: Adj, s: nat) {
    s < |g| && exists j :: 0 <= j < |g[s]| && g[s][j] != s
  }

  /** Then s depends on itself: on the way to that vertex. */
  lemma LeavingCounts(g: Adj, s: nat, dist: seq<int>)
    requires Valid(g) && Depths(g, s, dist) && LeavesItself(g, s)
    ensures Dependency(g, s, dist, s) > 0.0
  {
    hide Dependency, Walks;
    var j :| 0 <= j < |g[s]| && g[s][j] != s;
    var v := g[s][j];
    SourceIsZero(g, s, dist);
    assert HasEdge(g, s, v);
    var e := DistEdge(g, s, s, v, 0);
    assert Reachable(g, s, v);
    DistUnique(g, s, v, e, dist[v]);
    assert !Reach(g, s, v, 0);
    PathCountPositive(g, s, dist, s);
    PathCountPositive(g, s, dist, v);
    RatioSign(Walks(g, s, v, 1), PathCount(g, s, dist, v));
    assert Tail(g, s, dist, s, v) > 0.0;
    TailsSign(g, s, dist, s);
    DependencySign(g, s, dist, s);
  }

  lemma SourceIsZero(g: Adj, s: nat, dist: seq<int>)
    requires s < |g| && Depths(g, s, dist)
    ensures dist[s] == 0
  {
    assert IsDist(g, s, s, 0) && Reachable(g, s, s);
    DistUnique(g, s, s, 0, dist[s]);
  }

  lemma {:induction false} StaysHome(g: Adj, s: nat, t: nat, k: nat)
    requires !LeavesItself(g, s) && Reach(g, s, t, k)
    ensures t == s
    decreases k
  {
    if k > 0 {
      var u: nat :| Reach(g, s, u, k - 1) && HasEdge(g, u, t);
      StaysHome(g, s, u, k - 1);
    }
  }

  /** A source whose edges are all self loops depends on nothing. */
  lemma StayingCountsNothing(g: Adj, s: nat, dist: seq<int>, u: nat)
    requires Valid(g) && s < |g| && Depths(g, s, dist) && !LeavesItself(g, s)
    ensures Dependency(g, s, dist, u) == 0.0
  {
    hide Tails, PathCount, Dependency, Walks, Ratio;
    SourceIsZero(g, s, dist);
    forall t: nat | t < |g| ensures Tail(g, s, dist, u, t) == 0.0 {
      if dist[t] > 0 {
        StaysHome(g, s, t, dist[t]);
      }
    }
    TailsSign(g, s, dist, u);
    DependencySign(g, s, dist, u);
  }
}
