/** The checker of betweenness scores: one serial search per source, successors read off the depths,
    vertices grouped by depth. */
module BrandesVerifier {
  import opened Graphs
  import opened Sets
  import opened Sums
  import opened PathCounting
  import opened ForwardSearch
  import opened Brandes

  // ---------------------------------------------------------------- the serial search

  /** visit[..i] is processed; d is the depth the search has reached. */
  ghost predicate Visiting(g: Adj, s: nat, dist: seq<int>, d: nat, visit: seq<nat>, i: nat, depths: seq<int>) {
    && |dist| == |g| && i <= |visit| && Distinct(visit)
    && Known(dist, depths, d)
    && (forall v: nat :: v in visit <==> v < |g| && depths[v] >= 0)
    && (forall a :: 0 <= a < |visit| ==> visit[a] < |g|)
    && (forall a, b :: 0 <= a < b < |visit| ==> depths[visit[a]] <= depths[visit[b]])
    && (forall a :: 0 <= a < i ==> depths[visit[a]] <= d)
    && (forall v: nat :: v < |g| && 0 <= dist[v] < d ==> v in visit[..i])
    && Covered(g, Members(visit[..i]), 0, 0, depths)
  }

  /** The vertex to process next is at depth d, or the level d is exhausted and it is at d + 1. */
  lemma NextVertex(g: Adj, s: nat, dist: seq<int>, d: nat, visit: seq<nat>, i: nat, depths: seq<int>)
    requires Valid(g) && s < |g| && Depths(g, s, dist) && Visiting(g, s, dist, d, visit, i, depths) && i < |visit|
    ensures visit[i] < |g| && visit[i] !in Members(visit[..i])
    ensures dist[visit[i]] == depths[visit[i]]
    ensures dist[visit[i]] == d
            || (dist[visit[i]] == d + 1 && Members(visit[..i]) == Below(dist, d + 1)
                && Visiting(g, s, dist, d + 1, visit, i, depths))
  {
    var u := visit[i];
    assert u in visit && u !in visit[..i];
    if dist[u] == d + 1 {
      forall v: nat | v < |g| && dist[v] == d ensures v in visit[..i] {
        assert v in visit;
        var a :| 0 <= a < |visit| && visit[a] == v;
        assert a < i;
      }
      assert Members(visit[..i]) == Below(dist, d + 1) by {
        forall v | v in Members(visit[..i]) ensures v in Below(dist, d + 1) {
          assert v in visit;
        }
      }
      LevelIsComplete(g, s, dist, d, Members(visit[..i]), depths);
    }
  }

  /** A new vertex one level down goes to the end of the list. */
  lemma AppendVisited(visit: seq<nat>, depths: seq<int>, v: nat, d: nat)
    requires Distinct(visit) && v < |depths| && depths[v] == -1
    requires forall x: nat :: x in visit <==> x < |depths| && depths[x] >= 0
    requires forall a :: 0 <= a < |visit| ==> visit[a] < |depths| && depths[visit[a]] <= d + 1
    ensures Distinct(visit + [v])
    ensures forall x: nat :: x in visit + [v] <==> x < |depths| && depths[v := d + 1][x] >= 0
    ensures forall a :: 0 <= a < |visit| ==> depths[v := d + 1][visit[a]] == depths[visit[a]]
  {
    forall a | 0 <= a < |visit| ensures visit[a] != v {
      assert visit[a] in visit;
    }
  }

  lemma CoveredGrows(g: Adj, done: set<nat>, depths: seq<int>, v: nat, x: nat)
    requires Covered(g, done, 0, 0, depths) && v < |depths|
    ensures Covered(g, done, 0, 0, depths[v := x])
  {
  }

  /** An unvisited neighbour of the vertex at depth d is appended. */
  lemma AppendKeeps(g: Adj, s: nat, dist: seq<int>, d: nat, visit: seq<nat>, i: nat, depths: seq<int>, u: nat, j: nat)
    requires Valid(g) && Depths(g, s, dist) && Visiting(g, s, dist, d, visit, i, depths) && i < |visit|
    requires u == visit[i] < |g| && dist[u] == d && j < |g[u]| && depths[g[u][j]] == -1
    ensures Visiting(g, s, dist, d, visit + [g[u][j]], i, depths[g[u][j] := d + 1])
  {
    hide Distinct, Covered;
    DistsStep(g, s, dist, u, j);
    var v := g[u][j];
    AppendVisited(visit, depths, v, d);
    assert (visit + [v])[..i] == visit[..i];
    CoveredGrows(g, Members(visit[..i]), depths, v, d + 1);
  }

  lemma VertexDone(g: Adj, s: nat, dist: seq<int>, d: nat, visit: seq<nat>, i: nat, depths: seq<int>)
    requires Valid(g) && Visiting(g, s, dist, d, visit, i, depths) && i < |visit| && visit[i] < |g|
    requires dist[visit[i]] == d == depths[visit[i]]
    requires Covered(g, Members(visit[..i]), visit[i], |g[visit[i]]|, depths)
    ensures Visiting(g, s, dist, d, visit, i + 1, depths)
    ensures Members(visit[..i + 1]) == Members(visit[..i]) + {visit[i]}
  {
    assert visit[..i + 1] == visit[..i] + [visit[i]];
  }

  /** One edge of u = visit[i]. */
  method VisitEdge(g: Adj, depths: array<int>, counts: array<nat>, visit0: seq<nat>, i: nat, j: nat,
                   ghost s: nat, ghost dist: seq<int>, ghost d: nat)
    returns (visit: seq<nat>)
    requires Valid(g) && Depths(g, s, dist) && Visiting(g, s, dist, d, visit0, i, depths[..]) && i < |visit0|
    requires visit0[i] < |g| && dist[visit0[i]] == d == depths[visit0[i]] && j < |g[visit0[i]]|
    requires Counting(g, s, dist, d, Members(visit0[..i]), visit0[i], j, counts[..])
    requires Covered(g, Members(visit0[..i]), visit0[i], j, depths[..]) && depths as object != counts
    modifies depths, counts
    ensures Visiting(g, s, dist, d, visit, i, depths[..]) && visit0 <= visit && depths[visit0[i]] == d
    ensures Counting(g, s, dist, d, Members(visit[..i]), visit0[i], j + 1, counts[..])
    ensures Covered(g, Members(visit[..i]), visit0[i], j + 1, depths[..])
    ensures |visit| + |Unvisited(depths[..])| == |visit0| + old(|Unvisited(depths[..])|)
  {
    hide Counting, Depths;
    visit := visit0;
    var u := visit[i];
    var v := g[u][j];
    ghost var ds, cs := depths[..], counts[..];
    if depths[v] == -1 {
      AppendKeeps(g, s, dist, d, visit, i, ds, u, j);
      depths[v] := depths[u] + 1;
      visit := visit + [v];
      assert depths[..] == ds[v := d + 1];
      assert Unvisited(depths[..]) == Unvisited(ds) - {v};
      assert visit[..i] == visit0[..i];
    }
    assert counts[..] == cs;
    EdgeCounts(g, s, dist, d, Members(visit[..i]), u, j, cs);
    EndKnown(g, dist, d, visit, depths[..], v);
    if depths[v] == depths[u] + 1 {
      CountsShape(g, s, dist, d, Members(visit[..i]), u, j, cs);
      counts[v] := counts[v] + counts[u];
      assert counts[..] == cs[v := cs[v] + cs[u]];
    }
  }

  lemma CountsShape(g: Adj, s: nat, dist: seq<int>, d: nat, done: set<nat>, u: nat, j: nat, counts: seq<nat>)
    requires u < |g| && j <= |g[u]| && Counting(g, s, dist, d, done, u, j, counts)
    ensures |counts| == |g|
  {
  }

  lemma EndKnown(g: Adj, dist: seq<int>, d: nat, visit: seq<nat>, depths: seq<int>, v: nat)
    requires |dist| == |g| && Known(dist, depths, d) && v < |g| && depths[v] >= 0
    ensures depths[v] == dist[v] <= d + 1
  {
  }

  /** All edges of visit[i]. */
  method VisitVertex(g: Adj, depths: array<int>, counts: array<nat>, visit0: seq<nat>, i: nat,
                     ghost s: nat, ghost dist: seq<int>, ghost d: nat)
    returns (visit: seq<nat>)
    requires Valid(g) && Depths(g, s, dist) && Visiting(g, s, dist, d, visit0, i, depths[..]) && i < |visit0|
    requires visit0[i] < |g| && dist[visit0[i]] == d == depths[visit0[i]] && visit0[i] !in Members(visit0[..i])
    requires Counting(g, s, dist, d, Members(visit0[..i]), 0, 0, counts[..]) && depths as object != counts
    modifies depths, counts
    ensures i < |visit| && Visiting(g, s, dist, d, visit, i + 1, depths[..])
    ensures Counting(g, s, dist, d, Members(visit[..i + 1]), 0, 0, counts[..])
    ensures |visit| + |Unvisited(depths[..])| == |visit0| + old(|Unvisited(depths[..])|)
  {
    hide Counting, Depths;
    visit := visit0;
    var u := visit[i];
    EnterCounts(g, s, dist, d, Members(visit[..i]), u, counts[..]);
    for j := 0 to |g[u]|
      invariant i < |visit| && visit[i] == u && Visiting(g, s, dist, d, visit, i, depths[..]) && depths[u] == d
      invariant u !in Members(visit[..i])
      invariant Counting(g, s, dist, d, Members(visit[..i]), u, j, counts[..])
      invariant Covered(g, Members(visit[..i]), u, j, depths[..])
      invariant |visit| + |Unvisited(depths[..])| == |visit0| + old(|Unvisited(depths[..])|)
    {
      ghost var before := visit;
      visit := VisitEdge(g, depths, counts, visit, i, j, s, dist, d);
      assert visit[..i] == before[..i];
    }
    LeaveCounts(g, s, dist, d, Members(visit[..i]), u, counts[..]);
    VertexDone(g, s, dist, d, visit, i, depths[..]);
  }

  lemma StartVisiting(g: Adj, s: nat, dist: seq<int>, depths: seq<int>, counts: seq<nat>)
    requires Valid(g) && s < |g| && Depths(g, s, dist) && |depths| == |counts| == |g|
    requires forall v :: 0 <= v < |g| ==> depths[v] == if v == s then 0 else -1
    requires forall v :: 0 <= v < |g| ==> counts[v] == if v == s then 1 else 0
    ensures Visiting(g, s, dist, 0, [s], 0, depths)
    ensures Counting(g, s, dist, 0, Members([s][..0]), 0, 0, counts)
  {
    SourceDist(g, s, dist);
    var none, d: nat := Members([s][..0]), 0;
    forall v: nat | v < |g| && dist[v] != 0 ensures Gathered(g, s, dist, d, none, v) == 0 {
      SumIntZero(|g|, (x: nat) => if x in none && x < |dist| && dist[x] == d then Extended(g, s, v, d, x) else 0);
    }
    assert Walks(g, s, s, 0) == 1;
  }

  /** When the list is used up every reached vertex was visited, at its distance. */
  lemma AllVisited(g: Adj, s: nat, dist: seq<int>, d: nat, visit: seq<nat>, depths: seq<int>)
    requires Valid(g) && s < |g| && Depths(g, s, dist) && Visiting(g, s, dist, d, visit, |visit|, depths)
    ensures |dist| == |g| && depths == dist && Members(visit) == Below(dist, d + 1)
    ensures forall v :: 0 <= v < |g| ==> dist[v] < d + 1
  {
    hide Depths;
    assert visit[..|visit|] == visit;
    var done := Members(visit);
    forall v: nat | v < |g| && dist[v] == d ensures v in done {
      assert depths[v] >= 0;
    }
    LevelIsComplete(g, s, dist, d, done, depths);
    forall v: nat ensures !(v < |dist| && dist[v] == d + 1) {
      assert v < |g| && depths[v] == d + 1 ==> v in visit;
    }
    forall v: nat | v < |g| ensures dist[v] < d + 1 {
      NothingDeeper(g, s, dist, d + 1, v);
    }
    DepthsShape(g, s, dist);
    forall v | v in done ensures v in Below(dist, d + 1) {
    }
  }

  lemma DepthsShape(g: Adj, s: nat, dist: seq<int>)
    requires Depths(g, s, dist)
    ensures |dist| == |g| && forall v :: 0 <= v < |g| ==> dist[v] >= -1
  {
  }

  lemma CountsKnown(g: Adj, s: nat, dist: seq<int>, d: nat, done: set<nat>, counts: seq<nat>)
    requires |g| > 0 && Counting(g, s, dist, d, done, 0, 0, counts)
    ensures |counts| == |dist| == |g|
    ensures forall v :: 0 <= v < |g| && 0 <= dist[v] <= d ==> counts[v] == Walks(g, s, v, dist[v])
    ensures forall v :: 0 <= v < |g| && dist[v] < 0 ==> counts[v] == Gathered(g, s, dist, d, done, v)
  {
    hide Walks, Gathered;
  }

  lemma SerialDone(g: Adj, s: nat, dist: seq<int>, d: nat, visit: seq<nat>, depths: seq<int>, counts: seq<nat>)
    requires Valid(g) && s < |g| && Depths(g, s, dist) && Visiting(g, s, dist, d, visit, |visit|, depths)
    requires Counting(g, s, dist, d, Members(visit[..|visit|]), 0, 0, counts)
    ensures depths == dist && |counts| == |g|
    ensures forall v :: 0 <= v < |g| ==> counts[v] == PathCount(g, s, dist, v)
  {
    hide Counting, Visiting, Depths, Covered, Gathered;
    assert visit[..|visit|] == visit;
    var done := Members(visit);
    AllVisited(g, s, dist, d, visit, depths);
    CountsKnown(g, s, dist, d, done, counts);
    forall v: nat | v < |g| && dist[v] < 0 ensures counts[v] == 0 {
      GatheredIsWalks(g, s, dist, d, done, v);
    }
  }

  /** Distances and shortest-path counts from one source, vertex by vertex. */
  method SerialSearch(g: Adj, source: nat) returns (depths: array<int>, counts: array<nat>)
    requires Valid(g) && source < |g|
    ensures fresh(depths) && fresh(counts) && counts.Length == |g|
    ensures depths[..] == Dists(g, source)
    ensures forall v :: 0 <= v < |g| ==> counts[v] == PathCount(g, source, Dists(g, source), v)
  {
    hide Counting, Depths, Dists, PathCount, Visiting, Unvisited;
    depths := new int[|g|](_ => -1);
    counts := new nat[|g|](_ => 0);
    depths[source] := 0;
    counts[source] := 1;
    var visit: seq<nat> := [source];
    ghost var dist, d: nat := Dists(g, source), 0;
    DistsHaveShape(g, source);
    StartVisiting(g, source, dist, depths[..], counts[..]);
    var i := 0;
    while i < |visit|
      invariant i <= |visit| && Visiting(g, source, dist, d, visit, i, depths[..])
      invariant Counting(g, source, dist, d, Members(visit[..i]), 0, 0, counts[..])
      decreases |visit| + |Unvisited(depths[..])| - i
    {
      NextVertex(g, source, dist, d, visit, i, depths[..]);
      if dist[visit[i]] == d + 1 {
        CountsComplete(g, source, dist, d, Members(visit[..i]), counts[..]);
        d := d + 1;
      }
      visit := VisitVertex(g, depths, counts, visit, i, source, dist, d);
      i := i + 1;
    }
    SerialDone(g, source, dist, d, visit, depths[..], counts[..]);
  }

  // ---------------------------------------------------------------- from the deepest vertices up

  /** Every list holds its level, once each, and no vertex lies deeper. */
  ghost predicate ByDepth(dist: seq<int>, levels: seq<seq<nat>>) {
    && (forall d :: 0 <= d < |levels| ==> Level(dist, levels[d], d) && Distinct(levels[d]))
    && forall v :: 0 <= v < |dist| ==> dist[v] < |levels|
  }

  /** Vertex n joins the list of its depth. */
  lemma GroupOne(depths: seq<int>, n: nat, levels: seq<seq<nat>>)
    requires n < |depths| && 0 <= depths[n] < |levels| && ByDepth(depths[..n], levels)
    ensures ByDepth(depths[..n + 1], levels[depths[n] := levels[depths[n]] + [n]])
  {
    var levels' := levels[depths[n] := levels[depths[n]] + [n]];
    forall d | 0 <= d < |levels'| ensures Level(depths[..n + 1], levels'[d], d) && Distinct(levels'[d]) {
      assert Level(depths[..n], levels[d], d);
      assert n !in levels[d];
    }
  }

  lemma SkipOne(depths: seq<int>, n: nat, levels: seq<seq<nat>>)
    requires n < |depths| && depths[n] < 0 && ByDepth(depths[..n], levels)
    ensures ByDepth(depths[..n + 1], levels)
  {
    forall d | 0 <= d < |levels| ensures Level(depths[..n + 1], levels[d], d) {
      assert Level(depths[..n], levels[d], d);
    }
  }

  lemma GrowLevels(dist: seq<int>, levels: seq<seq<nat>>, more: seq<seq<nat>>)
    requires ByDepth(dist, levels) && forall i :: 0 <= i < |more| ==> more[i] == []
    ensures ByDepth(dist, levels + more)
  {
    forall d | 0 <= d < |levels + more| ensures Level(dist, (levels + more)[d], d) {
      if d < |levels| {
        assert Level(dist, levels[d], d);
      }
    }
  }

  method GroupByDepth(depths: seq<int>) returns (levels: seq<seq<nat>>)
    ensures ByDepth(depths, levels)
  {
    levels := [];
    for n := 0 to |depths|
      invariant ByDepth(depths[..n], levels)
    {
      if depths[n] >= 0 {
        if depths[n] >= |levels| {
          var more: seq<seq<nat>> := seq(depths[n] + 1 - |levels|, _ => []);
          GrowLevels(depths[..n], levels, more);
          levels := levels + more;
        }
        GroupOne(depths, n, levels);
        levels := levels[depths[n] := levels[depths[n]] + [n]];
      } else {
        SkipOne(depths, n, levels);
      }
    }
    assert depths[..|depths|] == depths;
  }

  /** Settled, with the deltas elsewhere still zero. */
  ghost predicate Pristine(dist: seq<int>, done: set<nat>, deltas: seq<real>) {
    |deltas| == |dist| && forall v: nat :: v < |dist| && v !in done ==> deltas[v] == 0.0
  }

  lemma CreditByDepth(g: Adj, s: nat, dist: seq<int>, u: nat, j: nat)
    requires Valid(g) && s < |g| == |dist| && Depths(g, s, dist) && u < |g| && dist[u] >= 0 && j < |g[u]|
    ensures var v := g[u][j];
            if dist[v] == dist[u] + 1 then
              PathCount(g, s, dist, v) > 0 &&
              Credit(g, s, dist, u, j) ==
              PathCount(g, s, dist, u) as real / PathCount(g, s, dist, v) as real * (1.0 + Dependency(g, s, dist, v))
            else
              Credit(g, s, dist, u, j) == 0.0
  {
    hide Depths, Dependency, PathCount;
    if dist[g[u][j]] == dist[u] + 1 {
      PathCountPositive(g, s, dist, g[u][j]);
    }
  }

  /** Adds up u's delta in place, successors recognized by their depth. */
  method AccumulateByDepth(g: Adj, depths: seq<int>, counts: array<nat>, deltas: array<real>, u: nat, ghost s: nat,
                           ghost done: set<nat>)
    requires Valid(g) && s < |g| == |depths| && Depths(g, s, depths) && counts.Length == deltas.Length == |g|
    requires u < |g| && depths[u] >= 0 && deltas[u] == 0.0 && deltas as object != counts
    requires forall v :: 0 <= v < |g| ==> counts[v] == PathCount(g, s, depths, v)
    requires forall v :: 0 <= v < |g| && depths[v] > depths[u] ==> deltas[v] == Dependency(g, s, depths, v)
    modifies deltas
    ensures deltas[..] == old(deltas[..])[u := Dependency(g, s, depths, u)]
  {
    hide Depths, Dependency, PathCount, Credit;
    ghost var ds, cs := deltas[..], counts[..];
    for j := 0 to |g[u]|
      invariant counts[..] == cs
      invariant deltas[u] == Sum(j, (i: nat) => Credit(g, s, depths, u, i))
      invariant deltas[..] == ds[u := deltas[u]]
    {
      var v := g[u][j];
      CreditByDepth(g, s, depths, u, j);
      if depths[v] == depths[u] + 1 {
        assert deltas[v] == ds[v];
        deltas[u] := deltas[u] + counts[u] as real / counts[v] as real * (1.0 + deltas[v]);
      }
    }
    DependencyRecurrence(g, s, depths, u);
  }

  lemma LevelVertex(dist: seq<int>, levels: seq<seq<nat>>, d: nat, k: nat)
    requires ByDepth(dist, levels) && d < |levels| && k < |levels[d]|
    ensures levels[d][k] < |dist| && dist[levels[d][k]] == d
    ensures levels[d][k] !in AtLeast(dist, d + 1) + Members(levels[d][..k])
    ensures Members(levels[d][..k + 1]) == Members(levels[d][..k]) + {levels[d][k]}
  {
    assert Level(dist, levels[d], d) && levels[d][k] in levels[d];
    assert levels[d][..k + 1] == levels[d][..k] + [levels[d][k]];
  }

  lemma LevelSettled(dist: seq<int>, levels: seq<seq<nat>>, d: nat)
    requires ByDepth(dist, levels) && d < |levels|
    ensures AtLeast(dist, d + 1) + Members(levels[d][..|levels[d]|]) == AtLeast(dist, d)
  {
    assert Level(dist, levels[d], d) && levels[d][..|levels[d]|] == levels[d];
  }

  /** All vertices of one depth. */
  method DepthUp(g: Adj, depths: seq<int>, counts: array<nat>, levels: seq<seq<nat>>, d: nat, deltas: array<real>,
                 scores: array<real>, ghost s: nat, ghost scores0: seq<real>)
    requires Valid(g) && s < |g| == |depths| && Depths(g, s, depths) && counts.Length == |g|
    requires ByDepth(depths, levels) && d < |levels|
    requires deltas != scores && deltas as object != counts && scores as object != counts
    requires forall v :: 0 <= v < |g| ==> counts[v] == PathCount(g, s, depths, v)
    requires Settled(g, s, depths, AtLeast(depths, d + 1), deltas[..], scores0, scores[..])
    requires Pristine(depths, AtLeast(depths, d + 1), deltas[..])
    modifies deltas, scores
    ensures Settled(g, s, depths, AtLeast(depths, d), deltas[..], scores0, scores[..])
    ensures Pristine(depths, AtLeast(depths, d), deltas[..])
  {
    hide ByDepth, Depths, Dependency, PathCount;
    ghost var done, cs := AtLeast(depths, d + 1), counts[..];
    for k := 0 to |levels[d]|
      invariant done == AtLeast(depths, d + 1) + Members(levels[d][..k]) && counts[..] == cs
      invariant Settled(g, s, depths, done, deltas[..], scores0, scores[..]) && Pristine(depths, done, deltas[..])
    {
      var u := levels[d][k];
      LevelVertex(depths, levels, d, k);
      ghost var ds, ss := deltas[..], scores[..];
      AccumulateByDepth(g, depths, counts, deltas, u, s, done);
      SettleOne(g, s, depths, done, ds, scores0, ss, u, deltas[u]);
      assert scores[..] == ss;
      scores[u] := scores[u] + deltas[u];
      assert scores[..] == ss[u := ss[u] + deltas[u]];
      done := done + {u};
    }
    LevelSettled(depths, levels, d);
  }

  /** One source of the verifier. */
  method AddSourceByDepth(g: Adj, source: nat, scores: array<real>)
    requires Valid(g) && source < |g| == scores.Length
    modifies scores
    ensures Added(g, source, old(scores[..]), scores[..])
  {
    hide ByDepth, Dependency, PathCount, Dists, Depths;
    ghost var scores0 := scores[..];
    var depthArray, counts := SerialSearch(g, source);
    var depths := depthArray[..];
    DistsHaveShape(g, source);
    var levels := GroupByDepth(depths);
    var deltas := new real[|g|](_ => 0.0);
    NoneDeeper(depths, levels);
    for d := |levels| downto 0
      invariant Settled(g, source, depths, AtLeast(depths, d), deltas[..], scores0, scores[..])
      invariant Pristine(depths, AtLeast(depths, d), deltas[..])
      invariant forall v :: 0 <= v < |g| ==> counts[v] == PathCount(g, source, depths, v)
    {
      DepthUp(g, depths, counts, levels, d, deltas, scores, source, scores0);
    }
    forall v | 0 <= v < |g| && depths[v] < 0 ensures Dependency(g, source, depths, v) == 0.0 {
      UnreachedIsZero(g, source, depths, v);
    }
  }

  lemma NoneDeeper(dist: seq<int>, levels: seq<seq<nat>>)
    requires ByDepth(dist, levels)
    ensures AtLeast(dist, |levels|) == {}
  {
  }

  /** In exact arithmetic, accepts exactly the normalized total dependencies. */
  method BCVerifier(g: Adj, sources: seq<nat>, toTest: seq<real>) returns (ok: bool)
    requires Valid(g) && |toTest| == |g| && forall i :: 0 <= i < |sources| ==> sources[i] < |g|
    requires |g| > 0
    ensures ok <==> Normalized(g, sources, toTest)
    ensures ok ==> SomeLeaves(g, sources)
  {
    hide Dependency, Dists, Total, AreTotals, Added, Normalized, AnyTotal, SomeLeaves;
    var scores := new real[|g|](_ => 0.0);
    NoTotals(g, scores[..]);
    assert sources[..0] == [] && sources[..|sources|] == sources;
    for i := 0 to |sources|
      invariant AreTotals(g, sources[..i], scores[..])
    {
      ghost var before := scores[..];
      AddSourceByDepth(g, sources[i], scores);
      NextTotals(g, sources, i, before, scores[..]);
    }
    var defined := Normalize(g, sources, scores);
    ghost var result := scores[..];
    ok := true;
    for n := 0 to |g|
      invariant scores[..] == result
      invariant ok <==> (n == 0 || defined) && forall v :: 0 <= v < n ==> result[v] == toTest[v]
    {
      if !defined || scores[n] != toTest[n] {
        ok := false;
      }
    }
    NormalizedNeedsTotal(g, sources, toTest);
    AnyTotalIffSomeLeaves(g, sources);
    if defined {
      NormalizedUnique(g, sources, result, toTest);
    }
  }

  lemma NormalizedNeedsTotal(g: Adj, sources: seq<nat>, scores: seq<real>)
    ensures Normalized(g, sources, scores) ==> AnyTotal(g, sources)
  {
  }

  lemma NormalizedUnique(g: Adj, sources: seq<nat>, a: seq<real>, b: seq<real>)
    requires |b| == |g| && Normalized(g, sources, a)
    ensures Normalized(g, sources, b) <==> a == b
  {
    hide Total, IsShare;
    if Normalized(g, sources, b) {
      forall v: nat, x: real, whole: real | v < |g| && whole > 0.0 && IsShare(a[v], x, whole) && IsShare(b[v], x, whole)
        ensures a[v] == b[v]
      {
        ShareUnique(a[v], b[v], x, whole);
      }
    }
  }
}
