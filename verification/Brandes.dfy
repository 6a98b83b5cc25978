/** Betweenness centrality: the backward pass over the recorded levels, the scores over several
    sources, and the verifier that recomputes them from depths. */
module Brandes {
  import opened Graphs
  import opened Sums
  import opened PathCounting
  import opened EdgeNumbering
  import opened ForwardSearch
  import opened SlidingQueues

  // ---------------------------------------------------------------- the backward pass

  /** The forward search's answer for one source. */
  ghost predicate Forward(g: Adj, prefix: seq<nat>, s: nat, dist: seq<int>, counts: seq<nat>, succ: seq<bool>) {
    && Valid(g) && s < |g| == |counts| && Depths(g, s, dist)
    && EdgeIds(g, prefix) && |succ| >= prefix[|g|]
    && (forall v :: 0 <= v < |g| ==> counts[v] == PathCount(g, s, dist, v))
    && forall u, j :: 0 <= u < |g| && 0 <= j < |g[u]| ==>
         (Bit(prefix, succ, u, j) <==> dist[u] >= 0 && OneDown(g, dist, u, j))
  }

  /** deltas and scores are settled for the vertices of done and untouched elsewhere. */
  ghost predicate Settled(g: Adj, s: nat, dist: seq<int>, done: set<nat>, deltas: seq<real>, scores0: seq<real>,
                          scores: seq<real>) {
    && |deltas| == |scores0| == |scores| == |g|
    && (forall v :: v in done && v < |g| ==> deltas[v] == Dependency(g, s, dist, v))
    && forall v :: 0 <= v < |g| ==>
         scores[v] == scores0[v] + if v in done then Dependency(g, s, dist, v) else 0.0
  }

  lemma CreditValue(g: Adj, prefix: seq<nat>, s: nat, dist: seq<int>, counts: seq<nat>, succ: seq<bool>, u: nat, j: nat)
    requires Forward(g, prefix, s, dist, counts, succ) && u < |g| && j < |g[u]| && dist[u] >= 0
    ensures Bit(prefix, succ, u, j) ==>
      counts[g[u][j]] > 0 && Credit(g, s, dist, u, j)
      == counts[u] as real / counts[g[u][j]] as real * (1.0 + Dependency(g, s, dist, g[u][j]))
    ensures !Bit(prefix, succ, u, j) ==> Credit(g, s, dist, u, j) == 0.0
  {
    if OneDown(g, dist, u, j) {
      PathCountPositive(g, s, dist, g[u][j]);
    }
  }

  /** The dependency of one vertex, from the settled deltas one level down. */
  method Accumulate(g: Adj, prefix: seq<nat>, counts: array<nat>, succ: array<bool>, deltas: array<real>, u: nat,
                    ghost s: nat, ghost dist: seq<int>)
    returns (delta: real)
    requires Forward(g, prefix, s, dist, counts[..], succ[..]) && deltas.Length == |g| && u < |g| && dist[u] >= 0
    requires forall v :: 0 <= v < |g| && dist[v] > dist[u] ==> deltas[v] == Dependency(g, s, dist, v)
    ensures delta == Dependency(g, s, dist, u)
  {
    hide Credit, Dependency, Depths;
    delta := 0.0;
    for j := 0 to |g[u]|
      invariant delta == Sum(j, (i: nat) => Credit(g, s, dist, u, i))
    {
      EdgeIdInRange(g, prefix, u, j);
      CreditValue(g, prefix, s, dist, counts[..], succ[..], u, j);
      if succ[GetEdgeId(prefix, u, j)] {
        var v := g[u][j];
        delta := delta + counts[u] as real / counts[v] as real * (1.0 + deltas[v]);
      }
    }
    DependencyRecurrence(g, s, dist, u);
  }

  /** The vertices at distance d or more. */
  ghost function AtLeast(dist: seq<int>, d: int): set<nat> {
    set v: nat | v < |dist| && dist[v] >= d
  }

  /** All deeper vertices are settled. */
  lemma SettledReady(g: Adj, s: nat, dist: seq<int>, done: set<nat>, d: int, deltas: seq<real>, scores0: seq<real>,
                     scores: seq<real>)
    requires Settled(g, s, dist, done, deltas, scores0, scores) && AtLeast(dist, d) <= done && |dist| == |g|
    ensures |deltas| == |scores| == |g|
    ensures forall v :: 0 <= v < |g| && dist[v] >= d ==> deltas[v] == Dependency(g, s, dist, v)
  {
    hide Dependency;
    forall v: nat | v < |g| && dist[v] >= d ensures v in done {
      assert v in AtLeast(dist, d);
    }
  }

  lemma SettleOne(g: Adj, s: nat, dist: seq<int>, done: set<nat>, deltas: seq<real>, scores0: seq<real>,
                  scores: seq<real>, u: nat, delta: real)
    requires Settled(g, s, dist, done, deltas, scores0, scores) && u < |g| && u !in done
    requires delta == Dependency(g, s, dist, u)
    ensures Settled(g, s, dist, done + {u}, deltas[u := delta], scores0, scores[u := scores[u] + delta])
  {
  }

  lemma SliceVertex(dist: seq<int>, q: seq<nat>, idx: seq<nat>, d: nat, k: nat)
    requires Slices(dist, q, idx) && 1 <= d < |idx| - 1 && idx[d] <= k < idx[d + 1] <= |q|
    ensures q[k] < |dist| && dist[q[k]] == d - 1 && q[k] !in AtLeast(dist, d) + Members(q[idx[d]..k])
    ensures Members(q[idx[d]..k + 1]) == Members(q[idx[d]..k]) + {q[k]}
  {
    assert SliceAt(dist, q, idx, d);
    var slice := q[idx[d]..idx[d + 1]];
    assert q[k] == slice[k - idx[d]] && q[k] in slice;
    assert q[idx[d]..k + 1] == q[idx[d]..k] + [q[k]];
    forall i | 0 <= i < |q[idx[d]..k]| ensures q[idx[d]..k][i] != q[k] {
      assert q[idx[d]..k][i] == q[idx[d] + i];
    }
  }

  lemma SliceComplete(dist: seq<int>, q: seq<nat>, idx: seq<nat>, d: nat)
    requires Slices(dist, q, idx) && 1 <= d < |idx| - 1
    ensures idx[d] <= idx[d + 1] <= |q|
    ensures AtLeast(dist, d) + Members(q[idx[d]..idx[d + 1]]) == AtLeast(dist, d - 1)
  {
    assert SliceAt(dist, q, idx, d);
  }

  /** One slice of the queue, whose successors are all settled. */
  method BackwardLevel(g: Adj, prefix: seq<nat>, counts: array<nat>, succ: array<bool>, order: array<nat>,
                       depthIndex: seq<nat>, d: nat, deltas: array<real>, scores: array<real>,
                       ghost s: nat, ghost dist: seq<int>, ghost q: seq<nat>, ghost scores0: seq<real>)
    requires Forward(g, prefix, s, dist, counts[..], succ[..]) && Slices(dist, q, depthIndex)
    requires |q| <= order.Length && order[..|q|] == q && 1 <= d < |depthIndex| - 1
    requires deltas != scores && deltas as object != order && scores as object != order
    requires deltas as object != counts && scores as object != counts
    requires deltas as object != succ && scores as object != succ
    requires Settled(g, s, dist, AtLeast(dist, d), deltas[..], scores0, scores[..])
    modifies deltas, scores
    ensures Settled(g, s, dist, AtLeast(dist, d - 1), deltas[..], scores0, scores[..])
  {
    hide Slices, Forward, Dependency, Settled;
    SliceComplete(dist, q, depthIndex, d);
    ghost var done := AtLeast(dist, d);
    for k := depthIndex[d] to depthIndex[d + 1]
      invariant done == AtLeast(dist, d) + Members(q[depthIndex[d]..k])
      invariant Settled(g, s, dist, done, deltas[..], scores0, scores[..])
      invariant Forward(g, prefix, s, dist, counts[..], succ[..]) && order[..|q|] == q
    {
      assert order[..|q|][k] == q[k];
      var u := order[k];
      SliceVertex(dist, q, depthIndex, d, k);
      ghost var ds, ss := deltas[..], scores[..];
      ForwardShape(g, prefix, s, dist, counts[..], succ[..]);
      SettledReady(g, s, dist, AtLeast(dist, d) + Members(q[depthIndex[d]..k]), d, ds, scores0, ss);
      var delta := Accumulate(g, prefix, counts, succ, deltas, u, s, dist);
      SettleOne(g, s, dist, done, ds, scores0, ss, u, delta);
      deltas[u] := delta;
      scores[u] := scores[u] + delta;
      assert deltas[..] == ds[u := delta] && scores[..] == ss[u := ss[u] + delta];
      done := done + {u};
    }
  }

  lemma ForwardShape(g: Adj, prefix: seq<nat>, s: nat, dist: seq<int>, counts: seq<nat>, succ: seq<bool>)
    requires Forward(g, prefix, s, dist, counts, succ)
    ensures |dist| == |g|
  {
  }

  lemma UnreachedIsZero(g: Adj, s: nat, dist: seq<int>, v: nat)
    requires v < |dist| && dist[v] < 0
    ensures Dependency(g, s, dist, v) == 0.0
  {
    SumZero(|g|, (t: nat) => PathCount(g, s, dist, v) as real * Tail(g, s, dist, v, t));
  }

  /** From the deepest level up: every vertex's dependency is added to its score. */
  method Backward(g: Adj, prefix: seq<nat>, counts: array<nat>, succ: array<bool>, order: array<nat>,
                  depthIndex: seq<nat>, scores: array<real>, ghost s: nat, ghost dist: seq<int>, ghost q: seq<nat>)
    requires Forward(g, prefix, s, dist, counts[..], succ[..]) && Slices(dist, q, depthIndex)
    requires |q| <= order.Length && order[..|q|] == q && scores.Length == |g|
    requires scores as object != order && scores as object != counts && scores as object != succ
    modifies scores
    ensures forall v :: 0 <= v < |g| ==> scores[v] == old(scores[v]) + Dependency(g, s, dist, v)
  {
    hide Slices, Forward, Dependency;
    ghost var scores0 := scores[..];
    var deltas := new real[|g|](_ => 0.0);
    NothingSettled(g, s, dist, q, depthIndex, deltas[..], scores0);
    for d := |depthIndex| - 1 downto 1
      invariant Settled(g, s, dist, AtLeast(dist, d - 1), deltas[..], scores0, scores[..])
      invariant Forward(g, prefix, s, dist, counts[..], succ[..]) && order[..|q|] == q
    {
      BackwardLevel(g, prefix, counts, succ, order, depthIndex, d, deltas, scores, s, dist, q, scores0);
    }
    ForwardShape(g, prefix, s, dist, counts[..], succ[..]);
    forall v | 0 <= v < |g| && dist[v] < 0 ensures Dependency(g, s, dist, v) == 0.0 {
      UnreachedIsZero(g, s, dist, v);
    }
  }

  lemma NothingSettled(g: Adj, s: nat, dist: seq<int>, q: seq<nat>, idx: seq<nat>, deltas: seq<real>, scores: seq<real>)
    requires Slices(dist, q, idx) && |deltas| == |scores| == |g|
    ensures |idx| >= 2 && Settled(g, s, dist, AtLeast(dist, |idx| - 2), deltas, scores, scores)
  {
    assert AtLeast(dist, |idx| - 2) == {};
  }

  // ---------------------------------------------------------------- several sources, normalized

  /** The dependencies of all sources on v together. */
  ghost function Total(g: Adj, sources: seq<nat>, v: nat): real {
    if sources == [] then 0.0
    else Total(g, sources[..|sources| - 1], v)
         + Dependency(g, sources[|sources| - 1], Dists(g, sources[|sources| - 1]), v)
  }

  ghost predicate AreTotals(g: Adj, sources: seq<nat>, scores: seq<real>) {
    |scores| == |g| && forall v :: 0 <= v < |g| ==> scores[v] == Total(g, sources, v)
  }

  lemma NoTotals(g: Adj, scores: seq<real>)
    requires |scores| == |g| && forall v :: 0 <= v < |g| ==> scores[v] == 0.0
    ensures AreTotals(g, [], scores)
  {
  }

  /** Every vertex gained its dependency for one source. */
  ghost predicate Added(g: Adj, source: nat, before: seq<real>, after: seq<real>) {
    && |before| == |after| == |g|
    && forall v :: 0 <= v < |g| ==> after[v] == before[v] + Dependency(g, source, Dists(g, source), v)
  }

  lemma NextTotals(g: Adj, sources: seq<nat>, i: nat, before: seq<real>, after: seq<real>)
    requires i < |sources| && AreTotals(g, sources[..i], before) && Added(g, sources[i], before, after)
    ensures AreTotals(g, sources[..i + 1], after)
  {
    hide Dependency, Dists;
    assert sources[..i + 1][..i] == sources[..i];
  }

  /** Scores are the totals divided by the largest of them. */
  ghost predicate Normalized(g: Adj, sources: seq<nat>, scores: seq<real>) {
    && |scores| == |g|
    && exists m: nat :: m < |g| && Total(g, sources, m) > 0.0
         && (forall v :: 0 <= v < |g| ==> Total(g, sources, v) <= Total(g, sources, m))
         && (forall v :: 0 <= v < |g| ==> IsShare(scores[v], Total(g, sources, v), Total(g, sources, m)))
  }

  /** x is the share-th part of whole. */
  predicate IsShare(share: real, x: real, whole: real) {
    share * whole == x
  }

  lemma ShareUnique(a: real, b: real, x: real, whole: real)
    requires whole > 0.0 && IsShare(a, x, whole) && IsShare(b, x, whole)
    ensures a == b
  {
    CancelFactor(a, b, whole);
  }

  lemma CancelFactor(a: real, b: real, whole: real)
    requires whole > 0.0 && a * whole == b * whole
    ensures a == b
  {
    FactorSign(a - b, whole);
    assert (a - b) * whole == 0.0;
  }

  lemma ShareBounds(share: real, x: real, whole: real)
    requires whole > 0.0 && IsShare(share, x, whole)
    ensures (0.0 <= x <= whole ==> 0.0 <= share <= 1.0) && (x == whole <==> share == 1.0)
  {
    FactorSign(share, whole);
    FactorSign(share - 1.0, whole);
    assert (share - 1.0) * whole == x - whole;
  }

  lemma FactorSign(a: real, whole: real)
    requires whole > 0.0
    ensures (a > 0.0 <==> a * whole > 0.0) && (a < 0.0 <==> a * whole < 0.0)
  {
  }

  /** Normalized scores lie between zero and one, and are one exactly at the vertices with the largest total. */
  lemma ScoresInUnit(g: Adj, sources: seq<nat>, scores: seq<real>)
    requires Normalized(g, sources, scores)
    ensures forall v :: 0 <= v < |g| ==> 0.0 <= scores[v] <= 1.0
    ensures exists m: nat :: m < |g| && scores[m] == 1.0
    ensures forall u, v :: 0 <= u < |g| && 0 <= v < |g| && scores[u] == 1.0 ==>
              Total(g, sources, v) <= Total(g, sources, u)
  {
    hide Total, IsShare;
    var m: nat :| m < |g| && Total(g, sources, m) > 0.0
                  && (forall v :: 0 <= v < |g| ==> Total(g, sources, v) <= Total(g, sources, m))
                  && (forall v :: 0 <= v < |g| ==> IsShare(scores[v], Total(g, sources, v), Total(g, sources, m)));
    forall v | 0 <= v < |g|
      ensures 0.0 <= scores[v] <= 1.0 && (Total(g, sources, v) == Total(g, sources, m) <==> scores[v] == 1.0)
    {
      TotalSign(g, sources, v);
      ShareBounds(scores[v], Total(g, sources, v), Total(g, sources, m));
    }
  }

  function Share(x: real, whole: real): (share: real)
    requires whole > 0.0
    ensures IsShare(share, x, whole)
  {
    x / whole
  }

  /** One source: forward search, then backward pass. */
  method AddSource(g: Adj, prefix: seq<nat>, source: nat, counts: array<nat>, succ: array<bool>, queue: SlidingQueue,
                   scores: array<real>, bufferSize: nat)
    requires Valid(g) && source < |g| == counts.Length == scores.Length && EdgeIds(g, prefix) && bufferSize > 0
    requires succ.Length >= prefix[|g|] && queue.Valid() && queue.shared.Length >= |g| && counts != queue.shared
    requires succ as object != queue.shared && succ as object != counts
    requires scores as object != queue.shared && scores as object != counts && scores as object != succ
    modifies counts, succ, queue, queue.shared, scores
    ensures queue.Valid() && Added(g, source, old(scores[..]), scores[..])
  {
    hide Slices, Dependency, PathCount, OneDown, Dists, Bit;
    ghost var scores0 := scores[..];
    Clear(counts, succ);
    queue.Reset();
    var depthIndex := PBFS(g, source, counts, succ, queue, prefix, bufferSize);
    assert scores[..] == scores0;
    ghost var dist := Dists(g, source);
    DistsHaveShape(g, source);
    assert Forward(g, prefix, source, dist, counts[..], succ[..]);
    Backward(g, prefix, counts, succ, queue.shared, depthIndex, scores, source, dist, queue.Pushed());
  }

  lemma DistsHaveShape(g: Adj, s: nat)
    ensures |Dists(g, s)| == |g| && Depths(g, s, Dists(g, s))
  {
    DepthsAreDists(g, s, Dists(g, s));
  }

  method Clear(counts: array<nat>, succ: array<bool>)
    requires counts as object != succ
    modifies counts, succ
    ensures forall v :: 0 <= v < counts.Length ==> counts[v] == 0
    ensures forall i :: 0 <= i < succ.Length ==> !succ[i]
  {
    forall v | 0 <= v < counts.Length { counts[v] := 0; }
    forall i | 0 <= i < succ.Length { succ[i] := false; }
  }

  method Largest(scores: array<real>) returns (biggest: real)
    ensures biggest >= 0.0 && forall v :: 0 <= v < scores.Length ==> scores[v] <= biggest
    ensures biggest == 0.0 || exists m: nat :: m < scores.Length && scores[m] == biggest
  {
    biggest := 0.0;
    for n := 0 to scores.Length
      invariant biggest >= 0.0 && forall v :: 0 <= v < n ==> scores[v] <= biggest
      invariant biggest == 0.0 || exists m: nat :: m < n && scores[m] == biggest
    {
      if scores[n] > biggest {
        biggest := scores[n];
      }
    }
  }

  /** Some score is positive. */
  ghost predicate AnyTotal(g: Adj, sources: seq<nat>) {
    exists v: nat :: v < |g| && Total(g, sources, v) > 0.0
  }

  /** Some source has an edge to another vertex. */
  predicate SomeLeaves(g: Adj, sources: seq<nat>) {
    exists i :: 0 <= i < |sources| && LeavesItself(g, sources[i])
  }

  lemma {:induction false} TotalSign(g: Adj, sources: seq<nat>, v: nat)
    ensures Total(g, sources, v) >= 0.0
    ensures forall i :: 0 <= i < |sources| ==>
              Total(g, sources, v) >= Dependency(g, sources[i], Dists(g, sources[i]), v)
  {
    hide Dependency, Dists;
    if sources != [] {
      var most, s := sources[..|sources| - 1], sources[|sources| - 1];
      TotalSign(g, most, v);
      DependencySign(g, s, Dists(g, s), v);
      forall i | 0 <= i < |sources|
        ensures Total(g, sources, v) >= Dependency(g, sources[i], Dists(g, sources[i]), v)
      {
        assert i < |most| ==> sources[i] == most[i];
      }
    }
  }

  lemma {:induction false} StayingTotals(g: Adj, sources: seq<nat>, v: nat)
    requires Valid(g) && forall i :: 0 <= i < |sources| ==> sources[i] < |g| && !LeavesItself(g, sources[i])
    ensures Total(g, sources, v) == 0.0
  {
    hide Dependency, Dists, LeavesItself;
    if sources != [] {
      var s := sources[|sources| - 1];
      StayingTotals(g, sources[..|sources| - 1], v);
      DistsHaveShape(g, s);
      StayingCountsNothing(g, s, Dists(g, s), v);
    }
  }

  /** Whether any score is positive can be read off the sources' own edges. */
  lemma AnyTotalIffSomeLeaves(g: Adj, sources: seq<nat>)
    requires Valid(g) && forall i :: 0 <= i < |sources| ==> sources[i] < |g|
    ensures AnyTotal(g, sources) <==> SomeLeaves(g, sources)
  {
    hide Total, Dependency, Dists, LeavesItself;
    if SomeLeaves(g, sources) {
      var i :| 0 <= i < |sources| && LeavesItself(g, sources[i]);
      var s := sources[i];
      DistsHaveShape(g, s);
      LeavingCounts(g, s, Dists(g, s));
      TotalSign(g, sources, s);
    } else {
      forall v: nat ensures Total(g, sources, v) == 0.0 {
        StayingTotals(g, sources, v);
      }
    }
  }

  /** One vertex without edges as the only source: valid input, and its score is zero by zero. */
  lemma IsolatedSourceHasNoScore()
    ensures Valid([[]]) && !SomeLeaves([[]], [0]) && !AnyTotal([[]], [0])
    ensures forall scores: seq<real> :: !Normalized([[]], [0], scores)
  {
    hide Total, IsShare;
    AnyTotalIffSomeLeaves([[]], [0]);
  }

  /** Divides by the largest score. When that is zero every quotient is zero by zero: not `defined`, no score is a
      number, and none equals any. */
  method Normalize(g: Adj, ghost sources: seq<nat>, scores: array<real>) returns (defined: bool)
    requires AreTotals(g, sources, scores[..])
    modifies scores
    ensures defined <==> AnyTotal(g, sources)
    ensures defined ==> Normalized(g, sources, scores[..])
    ensures !defined ==> scores[..] == old(scores[..])
  {
    hide Total, Normalized, Share, IsShare;
    ghost var totals := scores[..];
    var biggest := Largest(scores);
    LargestPositive(g, sources, totals, biggest);
    defined := biggest > 0.0;
    if !defined {
      return;
    }
    for n := 0 to scores.Length
      invariant forall v :: n <= v < scores.Length ==> scores[v] == totals[v]
      invariant forall v :: 0 <= v < n ==> IsShare(scores[v], totals[v], biggest)
    {
      scores[n] := Share(scores[n], biggest);
    }
    SharesAreNormalized(g, sources, totals, biggest, scores[..]);
  }

  lemma LargestPositive(g: Adj, sources: seq<nat>, totals: seq<real>, biggest: real)
    requires AreTotals(g, sources, totals)
    requires forall v :: 0 <= v < |totals| ==> totals[v] <= biggest
    requires biggest == 0.0 || exists m: nat :: m < |totals| && totals[m] == biggest
    ensures biggest > 0.0 ==> AnyTotal(g, sources)
    ensures AnyTotal(g, sources) ==> biggest > 0.0
  {
    hide Total;
    if AnyTotal(g, sources) {
      var positive: nat :| positive < |g| && Total(g, sources, positive) > 0.0;
      assert totals[positive] <= biggest;
    }
    if biggest > 0.0 {
      var m: nat :| m < |totals| && totals[m] == biggest;
      assert Total(g, sources, m) > 0.0;
    }
  }

  lemma SharesAreNormalized(g: Adj, sources: seq<nat>, totals: seq<real>, biggest: real, scores: seq<real>)
    requires AreTotals(g, sources, totals) && biggest > 0.0 && |scores| == |g|
    requires forall v :: 0 <= v < |totals| ==> totals[v] <= biggest
    requires exists m: nat :: m < |totals| && totals[m] == biggest
    requires forall v :: 0 <= v < |g| ==> IsShare(scores[v], totals[v], biggest)
    ensures Normalized(g, sources, scores)
  {
    hide Total, IsShare;
    var m: nat :| m < |totals| && totals[m] == biggest;
    assert Total(g, sources, m) == biggest;
  }

  /** The first edge id of every vertex. */
  method NumberEdges(g: Adj, blockSize: nat) returns (prefix: seq<nat>)
    requires blockSize > 0
    ensures EdgeIds(g, prefix) && |prefix| == |g| + 1 && prefix[|g|] == Prefix(Degrees(g), |g|)
  {
    var prefixes := new nat[|g| + 1];
    ParallelPrefixSum(Degrees(g), prefixes, blockSize);
    prefix := prefixes[..];
  }

  /** The unnormalized scores: one search and one backward pass per source. */
  method AddSources(g: Adj, prefix: seq<nat>, sources: seq<nat>, numEdges: nat, bufferSize: nat)
    returns (scores: array<real>)
    requires Valid(g) && EdgeIds(g, prefix) && |prefix| == |g| + 1 && bufferSize > 0 && numEdges >= prefix[|g|]
    requires forall i :: 0 <= i < |sources| ==> sources[i] < |g|
    ensures fresh(scores) && AreTotals(g, sources, scores[..])
  {
    hide Dependency, Dists, Total, AreTotals, Added, Prefix, Degrees, EdgeIds;
    scores := new real[|g|](_ => 0.0);
    var counts := new nat[|g|](_ => 0);
    var succ := new bool[numEdges](_ => false);
    var queue := new SlidingQueue(|g|);
    NoTotals(g, scores[..]);
    assert sources[..0] == [] && sources[..|sources|] == sources;
    for i := 0 to |sources|
      invariant AreTotals(g, sources[..i], scores[..])
      invariant queue.Valid()
    {
      ghost var before := scores[..];
      AddSource(g, prefix, sources[i], counts, succ, queue, scores, bufferSize);
      NextTotals(g, sources, i, before, scores[..]);
    }
  }

  /** Betweenness scores from the given sources; numbers exactly if some source has an edge to another vertex. */
  method BetweennessCentrality(g: Adj, sources: seq<nat>, numEdges: nat, blockSize: nat, bufferSize: nat)
    returns (scores: array<real>, defined: bool)
    requires Valid(g) && blockSize > 0 && bufferSize > 0 && numEdges >= Prefix(Degrees(g), |g|)
    requires forall i :: 0 <= i < |sources| ==> sources[i] < |g|
    ensures defined <==> SomeLeaves(g, sources)
    ensures defined ==> Normalized(g, sources, scores[..])
  {
    hide Total, AreTotals, Normalized, AnyTotal, SomeLeaves, Prefix, Degrees, EdgeIds;
    var prefix := NumberEdges(g, blockSize);
    scores := AddSources(g, prefix, sources, numEdges, bufferSize);
    defined := Normalize(g, sources, scores);
    AnyTotalIffSomeLeaves(g, sources);
  }
}
