/** The forward half of betweenness centrality: a level-by-level search that counts shortest paths,
    marks the edges that go one level down and records where each level starts in the queue. */
module ForwardSearch {
  import opened Graphs
  import opened Sets
  import opened Sums
  import opened PathCounting
  import opened EdgeNumbering
  import opened SlidingQueues

  // ---------------------------------------------------------------- distances and levels

  lemma DistsStep(g: Adj, s: nat, dist: seq<int>, u: nat, i: nat)
    requires Valid(g) && Depths(g, s, dist) && u < |g| && i < |g[u]| && dist[u] >= 0
    ensures 0 <= dist[g[u][i]] <= dist[u] + 1
  {
    assert HasEdge(g, u, g[u][i]);
    var e := DistEdge(g, s, u, g[u][i], dist[u]);
    assert Reachable(g, s, g[u][i]);
    DistUnique(g, s, g[u][i], e, dist[g[u][i]]);
  }

  lemma DistsPred(g: Adj, s: nat, dist: seq<int>, v: nat) returns (u: nat, i: nat)
    requires Valid(g) && s < |g| && Depths(g, s, dist) && v < |g| && dist[v] > 0
    ensures u < |g| && i < |g[u]| && g[u][i] == v && dist[u] == dist[v] - 1
  {
    u := DistPred(g, s, v, dist[v] - 1);
    ReachInRange(g, s, u, dist[v] - 1);
    assert Reachable(g, s, u);
    DistUnique(g, s, u, dist[v] - 1, dist[u]);
    i :| 0 <= i < |g[u]| && g[u][i] == v;
  }

  lemma SourceDist(g: Adj, s: nat, dist: seq<int>)
    requires s < |g| && Depths(g, s, dist)
    ensures forall v: nat :: v < |g| ==> (dist[v] == 0 <==> v == s)
  {
    assert IsDist(g, s, s, 0) && Reachable(g, s, s);
    DistUnique(g, s, s, 0, dist[s]);
  }

  /** q lists the vertices at distance d. */
  ghost predicate Level(dist: seq<int>, q: seq<nat>, d: int) {
    forall v: nat :: v in q <==> v < |dist| && dist[v] == d
  }

  /** Everything queued is distinct and at distance at most d. */
  ghost predicate QueuedUpTo(dist: seq<int>, q: seq<nat>, d: int) {
    Distinct(q) && forall v :: v in q ==> v < |dist| && 0 <= dist[v] <= d
  }

  lemma QueueGrows(dist: seq<int>, q: seq<nat>, d: int, r: seq<nat>)
    requires QueuedUpTo(dist, q, d) && Distinct(r) && forall v :: v in r ==> v < |dist| && dist[v] == d + 1 >= 0
    ensures QueuedUpTo(dist, q + r, d + 1) && |q + r| <= |dist|
  {
    var t := q + r;
    forall i, j | 0 <= i < j < |t| ensures t[i] != t[j] {
      if i < |q| <= j {
        assert q[i] in q && r[j - |q|] in r;
      }
    }
    forall i | 0 <= i < |t| ensures t[i] < |dist| {
      assert t[i] in t;
    }
    DistinctBound(t, |dist|);
  }

  // ---------------------------------------------------------------- one level in progress

  /** The contents of the depth, path count and successor arrays, and the vertices found so far in the
      level being built. */
  datatype Wave = Wave(depths: seq<int>, counts: seq<nat>, succ: seq<bool>, found: seq<nat>)

  /** Depths are known up to d, and for some of level d + 1. */
  ghost predicate Known(dist: seq<int>, depths: seq<int>, d: nat) {
    && |depths| == |dist|
    && forall v :: 0 <= v < |dist| ==>
         if 0 <= dist[v] <= d then depths[v] == dist[v]
         else depths[v] == -1 || (dist[v] == d + 1 && depths[v] == dist[v])
  }

  /** found lists, once each, the vertices of level d + 1 met so far. */
  ghost predicate Found(depths: seq<int>, d: nat, found: seq<nat>) {
    Distinct(found) && forall v: nat :: v in found <==> v < |depths| && depths[v] == d + 1
  }

  /** Shortest paths to v over the processed vertices of level d. */
  ghost function Gathered(g: Adj, s: nat, dist: seq<int>, d: nat, done: set<nat>, v: nat): int {
    SumInt(|g|, (x: nat) => if x in done && x < |dist| && dist[x] == d then Extended(g, s, v, d, x) else 0)
  }

  /** Counts are final up to level d and partial below it: all of done, and u's first j edges. */
  ghost predicate Counting(g: Adj, s: nat, dist: seq<int>, d: nat, done: set<nat>, u: nat, j: nat, counts: seq<nat>)
    requires u < |g| && j <= |g[u]|
  {
    && |dist| == |counts| == |g|
    && forall v :: 0 <= v < |g| ==>
         if 0 <= dist[v] <= d then counts[v] == Walks(g, s, v, dist[v])
         else counts[v] == Gathered(g, s, dist, d, done, v) + Walks(g, s, u, d) * Mult(g, u, v, j)
  }

  predicate Bit(prefix: seq<nat>, succ: seq<bool>, x: nat, i: nat)
    requires x < |prefix|
  {
    GetEdgeId(prefix, x, i) < |succ| && succ[GetEdgeId(prefix, x, i)]
  }

  /** The succ bit of an edge is set exactly if the edge was processed and goes one level down. */
  ghost predicate Marking(g: Adj, prefix: seq<nat>, dist: seq<int>, done: set<nat>, u: nat, j: nat, succ: seq<bool>) {
    && EdgeIds(g, prefix) && |succ| >= prefix[|g|]
    && forall x, i :: 0 <= x < |g| && 0 <= i < |g[x]| ==>
         (Bit(prefix, succ, x, i) <==> (x in done || (x == u && i < j)) && OneDown(g, dist, x, i))
  }

  /** Processed edges lead to visited vertices. */
  ghost predicate Covered(g: Adj, done: set<nat>, u: nat, j: nat, depths: seq<int>) {
    |depths| == |g| && forall x, i ::
      0 <= x < |g| && 0 <= i < |g[x]| && (x in done || (x == u && i < j)) ==> g[x][i] < |g| && depths[g[x][i]] >= 0
  }

  /** The state inside level d: done are the processed vertices; u is being processed and its first j
      edges are. */
  ghost predicate Spreading(g: Adj, prefix: seq<nat>, s: nat, dist: seq<int>, d: nat, done: set<nat>, u: nat, j: nat,
                            w: Wave) {
    && |dist| == |g| && u < |g| && dist[u] == d && j <= |g[u]| && u !in done
    && Known(dist, w.depths, d) && Found(w.depths, d, w.found)
    && Counting(g, s, dist, d, done, u, j, w.counts)
    && Marking(g, prefix, dist, done, u, j, w.succ)
    && Covered(g, done, u, j, w.depths)
  }

  /** First half of an edge's work: an unvisited end joins level d + 1. */
  lemma DiscoverKeeps(g: Adj, prefix: seq<nat>, s: nat, dist: seq<int>, d: nat, done: set<nat>, u: nat, j: nat, w: Wave)
    requires Valid(g) && Depths(g, s, dist)
    requires Spreading(g, prefix, s, dist, d, done, u, j, w) && j < |g[u]| && w.depths[g[u][j]] == -1
    ensures Spreading(g, prefix, s, dist, d, done, u, j,
                      w.(depths := w.depths[g[u][j] := d + 1], found := w.found + [g[u][j]]))
  {
    DistsStep(g, s, dist, u, j);
    var v := g[u][j];
    var found' := w.found + [v];
    assert v !in w.found;
    assert Distinct(found');
  }

  lemma EdgeCounts(g: Adj, s: nat, dist: seq<int>, d: nat, done: set<nat>, u: nat, j: nat, counts: seq<nat>)
    requires Valid(g) && u < |g| && j < |g[u]|
    requires Counting(g, s, dist, d, done, u, j, counts) && dist[u] == d
    ensures var v := g[u][j];
            (dist[v] == d + 1 ==> Counting(g, s, dist, d, done, u, j + 1, counts[v := counts[v] + counts[u]]))
            && (0 <= dist[v] <= d ==> Counting(g, s, dist, d, done, u, j + 1, counts))
  {
    var v := g[u][j];
    var w := Walks(g, s, u, d);
    assert counts[u] == w;
    forall x | 0 <= x < |g|
      ensures w * Mult(g, u, x, j + 1) == w * Mult(g, u, x, j) + if x == v then w else 0
    {
      MultStep(w, Mult(g, u, x, j), if x == v then 1 else 0);
    }
  }

  lemma MultStep(w: int, m: int, b: int)
    requires b == 0 || b == 1
    ensures w * (m + b) == w * m + if b == 1 then w else 0
  {
  }

  lemma EdgeMarks(g: Adj, prefix: seq<nat>, dist: seq<int>, done: set<nat>, u: nat, j: nat, succ: seq<bool>)
    requires Valid(g) && u < |g| == |dist| && j < |g[u]| && u !in done && Marking(g, prefix, dist, done, u, j, succ)
    ensures GetEdgeId(prefix, u, j) < |succ|
    ensures OneDown(g, dist, u, j) ==> Marking(g, prefix, dist, done, u, j + 1, succ[GetEdgeId(prefix, u, j) := true])
    ensures !OneDown(g, dist, u, j) ==> Marking(g, prefix, dist, done, u, j + 1, succ)
  {
    EdgeIdInRange(g, prefix, u, j);
    if OneDown(g, dist, u, j) {
      var succ' := succ[GetEdgeId(prefix, u, j) := true];
      forall x, i | 0 <= x < |g| && 0 <= i < |g[x]|
        ensures Bit(prefix, succ', x, i) <==> (x in done || (x == u && i < j + 1)) && OneDown(g, dist, x, i)
      {
        if GetEdgeId(prefix, x, i) == GetEdgeId(prefix, u, j) {
          EdgeIdsInjective(g, prefix, x, i, u, j);
        } else {
          assert Bit(prefix, succ', x, i) == Bit(prefix, succ, x, i);
        }
      }
    }
  }

  /** Second half, the end one level down: mark the edge and add u's paths. */
  lemma TreeEdgeKeeps(g: Adj, prefix: seq<nat>, s: nat, dist: seq<int>, d: nat, done: set<nat>, u: nat, j: nat, w: Wave)
    requires Valid(g) && Spreading(g, prefix, s, dist, d, done, u, j, w) && j < |g[u]| && w.depths[g[u][j]] == d + 1
    ensures u < |prefix| && GetEdgeId(prefix, u, j) < |w.succ| && |w.counts| == |g|
    ensures var v := g[u][j];
            Spreading(g, prefix, s, dist, d, done, u, j + 1,
                      w.(counts := w.counts[v := w.counts[v] + w.counts[u]],
                         succ := w.succ[GetEdgeId(prefix, u, j) := true]))
  {
    hide Walks, Mult, Gathered, Bit;
    assert dist[g[u][j]] == d + 1;
    EdgeCounts(g, s, dist, d, done, u, j, w.counts);
    EdgeMarks(g, prefix, dist, done, u, j, w.succ);
  }

  /** Second half, the end at the same level or above: nothing to do. */
  lemma OtherEdgeKeeps(g: Adj, prefix: seq<nat>, s: nat, dist: seq<int>, d: nat, done: set<nat>, u: nat, j: nat,
                       w: Wave)
    requires Valid(g) && Spreading(g, prefix, s, dist, d, done, u, j, w) && j < |g[u]|
    requires 0 <= w.depths[g[u][j]] != d + 1
    ensures Spreading(g, prefix, s, dist, d, done, u, j + 1, w)
  {
    assert 0 <= dist[g[u][j]] <= d;
    EdgeCounts(g, s, dist, d, done, u, j, w.counts);
    EdgeMarks(g, prefix, dist, done, u, j, w.succ);
  }

  // ---------------------------------------------------------------- between vertices, between levels

  /** As Spreading, with no vertex in progress. */
  ghost predicate Resting(g: Adj, prefix: seq<nat>, s: nat, dist: seq<int>, d: nat, done: set<nat>, w: Wave) {
    && 0 < |dist| == |g|
    && Known(dist, w.depths, d) && Found(w.depths, d, w.found)
    && Counting(g, s, dist, d, done, 0, 0, w.counts)
    && Marking(g, prefix, dist, done, 0, 0, w.succ)
    && Covered(g, done, 0, 0, w.depths)
  }

  lemma EnterCounts(g: Adj, s: nat, dist: seq<int>, d: nat, done: set<nat>, u: nat, counts: seq<nat>)
    requires |g| > 0 && Counting(g, s, dist, d, done, 0, 0, counts) && u < |g|
    ensures Counting(g, s, dist, d, done, u, 0, counts)
  {
    hide Walks, Gathered;
    forall v: nat ensures Walks(g, s, u, d) * Mult(g, u, v, 0) == Walks(g, s, 0, d) * Mult(g, 0, v, 0) {
    }
  }

  lemma EnterVertex(g: Adj, prefix: seq<nat>, s: nat, dist: seq<int>, d: nat, done: set<nat>, u: nat, w: Wave)
    requires Resting(g, prefix, s, dist, d, done, w) && u < |g| && dist[u] == d && u !in done
    ensures Spreading(g, prefix, s, dist, d, done, u, 0, w)
  {
    EnterCounts(g, s, dist, d, done, u, w.counts);
  }

  lemma {:induction false} GatheredInsert(n: nat, f: nat -> int, p: nat -> bool, done: set<nat>, u: nat)
    requires u !in done && p(u)
    ensures SumInt(n, (x: nat) => if x in done + {u} && p(x) then f(x) else 0)
            == SumInt(n, (x: nat) => if x in done && p(x) then f(x) else 0) + if u < n then f(u) else 0
  {
    if n > 0 {
      GatheredInsert(n - 1, f, p, done, u);
    }
  }

  lemma GatherVertex(g: Adj, s: nat, dist: seq<int>, d: nat, done: set<nat>, u: nat, v: nat)
    requires u < |g| == |dist| && u !in done && dist[u] == d
    ensures Gathered(g, s, dist, d, done + {u}, v) == Gathered(g, s, dist, d, done, v) + Extended(g, s, v, d, u)
  {
    var f := (x: nat) => Extended(g, s, v, d, x);
    var p := (x: nat) => x < |dist| && dist[x] == d;
    GatheredInsert(|g|, f, p, done, u);
    SumIntEq(|g|, (x: nat) => if x in done && p(x) then f(x) else 0,
             (x: nat) => if x in done && x < |dist| && dist[x] == d then Extended(g, s, v, d, x) else 0);
    SumIntEq(|g|, (x: nat) => if x in done + {u} && p(x) then f(x) else 0,
             (x: nat) => if x in done + {u} && x < |dist| && dist[x] == d then Extended(g, s, v, d, x) else 0);
  }

  lemma LeaveCounts(g: Adj, s: nat, dist: seq<int>, d: nat, done: set<nat>, u: nat, counts: seq<nat>)
    requires u < |g| == |dist| && u !in done && dist[u] == d && Counting(g, s, dist, d, done, u, |g[u]|, counts)
    ensures Counting(g, s, dist, d, done + {u}, 0, 0, counts)
  {
    hide Walks, Gathered;
    forall v | 0 <= v < |g| && !(0 <= dist[v] <= d)
      ensures counts[v] == Gathered(g, s, dist, d, done + {u}, v) + Walks(g, s, 0, d) * Mult(g, 0, v, 0)
    {
      GatherVertex(g, s, dist, d, done, u, v);
    }
  }

  lemma LeaveVertex(g: Adj, prefix: seq<nat>, s: nat, dist: seq<int>, d: nat, done: set<nat>, u: nat, w: Wave)
    requires u < |g| && Spreading(g, prefix, s, dist, d, done, u, |g[u]|, w)
    ensures Resting(g, prefix, s, dist, d, done + {u}, w)
  {
    LeaveCounts(g, s, dist, d, done, u, w.counts);
    assert Marking(g, prefix, dist, done + {u}, 0, 0, w.succ);
    assert Covered(g, done + {u}, 0, 0, w.depths);
  }

  /** The vertices closer than d. */
  ghost function Below(dist: seq<int>, d: int): set<nat> {
    set v: nat | v < |dist| && 0 <= dist[v] < d
  }

  /** The state when level d is complete and nothing of it has been expanded. */
  ghost predicate AtStart(g: Adj, prefix: seq<nat>, s: nat, dist: seq<int>, d: nat, w: Wave) {
    w.found == [] && Resting(g, prefix, s, dist, d, Below(dist, d), w)
  }

  /** Over all of level d, the gathered paths to v are its walks of d + 1 edges, for v at level d + 1,
      and none for v further away. */
  lemma GatheredIsWalks(g: Adj, s: nat, dist: seq<int>, d: nat, done: set<nat>, v: nat)
    requires Valid(g) && s < |g| && Depths(g, s, dist) && v < |g| && !(0 <= dist[v] <= d)
    requires forall x: nat :: x < |g| && dist[x] == d ==> x in done
    ensures Gathered(g, s, dist, d, done, v) == if dist[v] == d + 1 then Walks(g, s, v, d + 1) else 0
  {
    var part := (x: nat) => if x in done && x < |dist| && dist[x] == d then Extended(g, s, v, d, x) else 0;
    if dist[v] == d + 1 {
      WalksByLastEdge(g, s, v, d);
      var whole := (x: nat) => Extended(g, s, v, d, x);
      forall x: nat | x < |g| ensures part(x) == whole(x) {
        if dist[x] != d {
          OffLevelIsZero(g, s, dist, d, v, x);
        }
      }
      SumIntEq(|g|, part, whole);
    } else {
      forall x: nat | x < |g| ensures part(x) == 0 {
        if dist[x] == d {
          TooFarIsZero(g, s, dist, d, v, x);
        }
      }
      SumIntZero(|g|, part);
    }
  }

  lemma TooFarIsZero(g: Adj, s: nat, dist: seq<int>, d: nat, v: nat, x: nat)
    requires Valid(g) && Depths(g, s, dist) && v < |g| && x < |g| && dist[x] == d && !(0 <= dist[v] <= d + 1)
    ensures Extended(g, s, v, d, x) == 0
  {
    EdgesPositive(g, x, v);
    if HasEdge(g, x, v) {
      var i :| 0 <= i < |g[x]| && g[x][i] == v;
      DistsStep(g, s, dist, x, i);
      assert false;
    }
  }

  lemma OffLevelIsZero(g: Adj, s: nat, dist: seq<int>, d: nat, v: nat, x: nat)
    requires Valid(g) && s < |g| && Depths(g, s, dist) && v < |g| && x < |g| && dist[v] == d + 1 && dist[x] != d
    ensures Extended(g, s, v, d, x) == 0
  {
    WalksPositive(g, s, x, d);
    EdgesPositive(g, x, v);
    if Reach(g, s, x, d) && HasEdge(g, x, v) {
      var e := DistExists(g, s, x, d);
      assert Reachable(g, s, x);
      DistUnique(g, s, x, e, dist[x]);
      var i :| 0 <= i < |g[x]| && g[x][i] == v;
      DistsStep(g, s, dist, x, i);
      assert false;
    }
  }

  lemma LevelIsComplete(g: Adj, s: nat, dist: seq<int>, d: nat, done: set<nat>, depths: seq<int>)
    requires Valid(g) && s < |g| && Depths(g, s, dist) && Known(dist, depths, d) && Covered(g, done, 0, 0, depths)
    requires forall x: nat :: x < |g| && dist[x] == d ==> x in done
    ensures Known(dist, depths, d + 1) && forall v :: 0 <= v < |g| ==> depths[v] <= d + 1
    ensures forall v :: 0 <= v < |g| ==> (depths[v] == d + 1 <==> dist[v] == d + 1)
  {
    forall v: nat | v < |g| && dist[v] == d + 1 ensures depths[v] == d + 1 {
      var u, i := DistsPred(g, s, dist, v);
      assert depths[g[u][i]] >= 0;
    }
  }

  lemma CountsComplete(g: Adj, s: nat, dist: seq<int>, d: nat, done: set<nat>, counts: seq<nat>)
    requires Valid(g) && s < |g| && Depths(g, s, dist) && Counting(g, s, dist, d, done, 0, 0, counts)
    requires done == Below(dist, d + 1)
    ensures Counting(g, s, dist, d + 1, done, 0, 0, counts)
  {
    var e := d + 1;
    forall v: nat | v < |g| && !(0 <= dist[v] <= d)
      ensures counts[v] == if dist[v] == e then Walks(g, s, v, e) else 0
      ensures Gathered(g, s, dist, e, done, v) == 0
    {
      GatheredIsWalks(g, s, dist, d, done, v);
      SumIntZero(|g|, (x: nat) => if x in done && x < |dist| && dist[x] == e then Extended(g, s, v, e, x) else 0);
    }
  }

  lemma LevelDone(g: Adj, prefix: seq<nat>, s: nat, dist: seq<int>, d: nat, w: Wave)
    requires Valid(g) && s < |g| && Depths(g, s, dist) && Resting(g, prefix, s, dist, d, Below(dist, d + 1), w)
    ensures AtStart(g, prefix, s, dist, d + 1, w.(found := [])) && Level(dist, w.found, d + 1)
  {
    LevelIsComplete(g, s, dist, d, Below(dist, d + 1), w.depths);
    CountsComplete(g, s, dist, d, Below(dist, d + 1), w.counts);
  }

  // ---------------------------------------------------------------- the search

  ghost predicate Apart(depths: array<int>, counts: array<nat>, succ: array<bool>, queue: SlidingQueue) {
    && counts != queue.shared
    && depths as object != queue.shared && succ as object != queue.shared
    && depths as object != counts && depths as object != succ && counts as object != succ
  }

  ghost predicate ApartBuffer(depths: array<int>, counts: array<nat>, succ: array<bool>, lqueue: QueueBuffer) {
    && Apart(depths, counts, succ, lqueue.sq)
    && counts != lqueue.local && depths as object != lqueue.local && succ as object != lqueue.local
  }

  /** The arrays hold w. */
  ghost predicate Holds(w: Wave, depths: array<int>, counts: array<nat>, succ: array<bool>)
    reads depths, counts, succ
  {
    depths[..] == w.depths && counts[..] == w.counts && succ[..] == w.succ
  }

  /** What was queued before this level, then the vertices found in it, partly still in the buffer. */
  ghost predicate Queued(dist: seq<int>, d: nat, pushed: seq<nat>, found: seq<nat>, lqueue: QueueBuffer)
    reads lqueue, lqueue.sq, lqueue.sq.shared, lqueue.local
  {
    && lqueue.Valid() && lqueue.sq.shared.Length >= |dist|
    && QueuedUpTo(dist, pushed, d)
    && lqueue.sq.Pushed() + lqueue.Held() == pushed + found
  }

  lemma FoundFits(dist: seq<int>, d: nat, pushed: seq<nat>, depths: seq<int>, found: seq<nat>)
    requires Known(dist, depths, d) && QueuedUpTo(dist, pushed, d) && Found(depths, d, found)
    ensures QueuedUpTo(dist, pushed + found, d + 1) && |pushed + found| <= |dist|
  {
    QueueGrows(dist, pushed, d, found);
  }

  /** Visits the end of an edge if it is new. */
  method Discover(g: Adj, ghost prefix: seq<nat>, depths: array<int>, lqueue: QueueBuffer, u: nat, j: nat, depth: nat,
                  ghost s: nat, ghost dist: seq<int>, ghost done: set<nat>, ghost pushed: seq<nat>, ghost w0: Wave)
    returns (ghost w: Wave)
    requires Valid(g) && Depths(g, s, dist) && depth > 0 && u < |g| && j < |g[u]| && depths[..] == w0.depths
    requires Spreading(g, prefix, s, dist, depth - 1, done, u, j, w0)
    requires depths as object != lqueue.local && depths as object != lqueue.sq.shared
    requires Queued(dist, depth - 1, pushed, w0.found, lqueue)
    modifies depths, lqueue`fill, lqueue.local, lqueue.sq`sharedIn, lqueue.sq.shared
    ensures Spreading(g, prefix, s, dist, depth - 1, done, u, j, w) && depths[..] == w.depths
    ensures w.counts == w0.counts && w.succ == w0.succ && w.depths[g[u][j]] >= 0
    ensures Queued(dist, depth - 1, pushed, w.found, lqueue)
    ensures lqueue.sq.Window() == old(lqueue.sq.Window()) && lqueue.sq.sharedIn >= old(lqueue.sq.sharedIn)
  {
    hide Counting, Marking, Covered, Walks, Mult;
    w := w0;
    var v := g[u][j];
    if depths[v] == -1 {
      DiscoverKeeps(g, prefix, s, dist, depth - 1, done, u, j, w0);
      w := w0.(depths := w0.depths[v := depth], found := w0.found + [v]);
      FoundFits(dist, depth - 1, pushed, w.depths, w.found);
      depths[v] := depth;
      assert pushed + w.found == pushed + w0.found + [v];
      lqueue.PushBack(v);
    }
  }

  /** Counts and marks an edge if its end is one level down. */
  method CountAndMark(g: Adj, prefix: seq<nat>, depths: array<int>, counts: array<nat>, succ: array<bool>,
                      u: nat, j: nat, depth: nat, ghost s: nat, ghost dist: seq<int>, ghost done: set<nat>,
                      ghost w0: Wave)
    returns (ghost w: Wave)
    requires Valid(g) && depth > 0 && u < |g| && j < |g[u]| && Holds(w0, depths, counts, succ)
    requires Spreading(g, prefix, s, dist, depth - 1, done, u, j, w0) && w0.depths[g[u][j]] >= 0
    requires depths as object != counts && depths as object != succ && counts as object != succ
    modifies counts, succ
    ensures Spreading(g, prefix, s, dist, depth - 1, done, u, j + 1, w) && Holds(w, depths, counts, succ)
    ensures w.found == w0.found
  {
    hide Counting, Marking, Covered, Found, Walks, Mult;
    w := w0;
    var v := g[u][j];
    if depths[v] == depth {
      TreeEdgeKeeps(g, prefix, s, dist, depth - 1, done, u, j, w0);
      w := w0.(counts := w0.counts[v := w0.counts[v] + w0.counts[u]],
               succ := w0.succ[GetEdgeId(prefix, u, j) := true]);
      succ[GetEdgeId(prefix, u, j)] := true;
      counts[v] := counts[v] + counts[u];
    } else {
      OtherEdgeKeeps(g, prefix, s, dist, depth - 1, done, u, j, w0);
    }
  }

  /** All edges of u. */
  method ProcessVertex(g: Adj, prefix: seq<nat>, depths: array<int>, counts: array<nat>, succ: array<bool>,
                       lqueue: QueueBuffer, u: nat, depth: nat, ghost s: nat, ghost dist: seq<int>,
                       ghost done: set<nat>, ghost pushed: seq<nat>, ghost w0: Wave)
    returns (ghost w: Wave)
    requires Valid(g) && Depths(g, s, dist) && depth > 0 && u < |g| && dist[u] == depth - 1 && u !in done
    requires Resting(g, prefix, s, dist, depth - 1, done, w0) && Holds(w0, depths, counts, succ)
    requires ApartBuffer(depths, counts, succ, lqueue) && Queued(dist, depth - 1, pushed, w0.found, lqueue)
    modifies depths, counts, succ, lqueue`fill, lqueue.local, lqueue.sq`sharedIn, lqueue.sq.shared
    ensures Resting(g, prefix, s, dist, depth - 1, done + {u}, w) && Holds(w, depths, counts, succ)
    ensures Queued(dist, depth - 1, pushed, w.found, lqueue)
    ensures lqueue.sq.Window() == old(lqueue.sq.Window()) && lqueue.sq.sharedIn >= old(lqueue.sq.sharedIn)
  {
    hide Counting, Marking, Covered, Found, Known, QueuedUpTo;
    w := w0;
    EnterVertex(g, prefix, s, dist, depth - 1, done, u, w);
    for j := 0 to |g[u]|
      invariant Spreading(g, prefix, s, dist, depth - 1, done, u, j, w) && Holds(w, depths, counts, succ)
      invariant Queued(dist, depth - 1, pushed, w.found, lqueue)
      invariant lqueue.sq.Window() == old(lqueue.sq.Window()) && lqueue.sq.sharedIn >= old(lqueue.sq.sharedIn)
    {
      w := Discover(g, prefix, depths, lqueue, u, j, depth, s, dist, done, pushed, w);
      w := CountAndMark(g, prefix, depths, counts, succ, u, j, depth, s, dist, done, w);
    }
    LeaveVertex(g, prefix, s, dist, depth - 1, done, u, w);
  }

  ghost function Members(q: seq<nat>): set<nat> {
    set x | x in q
  }

  /** All vertices of the window. */
  method ProcessWindow(g: Adj, prefix: seq<nat>, depths: array<int>, counts: array<nat>, succ: array<bool>,
                       lqueue: QueueBuffer, depth: nat, ghost s: nat, ghost dist: seq<int>, ghost pushed: seq<nat>,
                       ghost window: seq<nat>, ghost w0: Wave)
    returns (ghost w: Wave)
    requires Valid(g) && Depths(g, s, dist) && depth > 0
    requires ApartBuffer(depths, counts, succ, lqueue) && Queued(dist, depth - 1, pushed, [], lqueue)
    requires AtStart(g, prefix, s, dist, depth - 1, w0) && Holds(w0, depths, counts, succ)
    requires window == lqueue.sq.Window() && Level(dist, window, depth - 1) && Distinct(window)
    modifies depths, counts, succ, lqueue`fill, lqueue.local, lqueue.sq`sharedIn, lqueue.sq.shared
    ensures Queued(dist, depth - 1, pushed, w.found, lqueue) && Holds(w, depths, counts, succ)
    ensures lqueue.sq.Window() == window && lqueue.sq.sharedIn >= old(lqueue.sq.sharedIn)
    ensures Resting(g, prefix, s, dist, depth - 1, Below(dist, depth), w)
  {
    hide Resting, QueuedUpTo;
    var queue := lqueue.sq;
    w := w0;
    var i := queue.outStart;
    ghost var done := Below(dist, depth - 1);
    while i < queue.outEnd
      invariant Queued(dist, depth - 1, pushed, w.found, lqueue) && Holds(w, depths, counts, succ)
      invariant queue.outStart <= i <= queue.outEnd && queue.Window() == window
      invariant queue.sharedIn >= old(queue.sharedIn)
      invariant done == Below(dist, depth - 1) + Members(window[..i - queue.outStart])
      invariant Resting(g, prefix, s, dist, depth - 1, done, w)
    {
      ghost var k := i - queue.outStart;
      var u := queue.shared[i];
      assert u == window[k];
      WindowVertex(dist, window, depth - 1, k);
      w := ProcessVertex(g, prefix, depths, counts, succ, lqueue, u, depth, s, dist, done, pushed, w);
      done := done + {u};
      i := i + 1;
    }
    WindowIsLevel(dist, window, depth - 1);
  }

  lemma WindowVertex(dist: seq<int>, window: seq<nat>, d: nat, k: nat)
    requires Level(dist, window, d) && Distinct(window) && k < |window|
    ensures window[k] < |dist| && dist[window[k]] == d && window[k] !in Below(dist, d) + Members(window[..k])
    ensures Members(window[..k + 1]) == Members(window[..k]) + {window[k]}
  {
    assert window[k] in window;
    assert window[..k + 1] == window[..k] + [window[k]];
  }

  lemma WindowIsLevel(dist: seq<int>, window: seq<nat>, d: nat)
    requires Level(dist, window, d)
    ensures Below(dist, d) + Members(window[..|window|]) == Below(dist, d + 1)
  {
    assert window[..|window|] == window;
  }

  lemma WindowDistinct(dist: seq<int>, pushed: seq<nat>, d: int, lo: nat, hi: nat)
    requires QueuedUpTo(dist, pushed, d) && lo <= hi <= |pushed|
    ensures Distinct(pushed[lo..hi])
  {
  }

  lemma StartShape(g: Adj, prefix: seq<nat>, s: nat, dist: seq<int>, d: nat, w: Wave)
    requires AtStart(g, prefix, s, dist, d, w)
    ensures |dist| == |g|
  {
  }

  /** The whole window: from level depth - 1 complete to level depth complete and pending. */
  method ProcessLevel(g: Adj, prefix: seq<nat>, depths: array<int>, counts: array<nat>, succ: array<bool>,
                      queue: SlidingQueue, bufferSize: nat, depth: nat, ghost s: nat, ghost dist: seq<int>,
                      ghost w0: Wave)
    returns (ghost w: Wave)
    requires Valid(g) && s < |g| && Depths(g, s, dist) && depth > 0 && bufferSize > 0
    requires queue.Valid() && queue.shared.Length >= |g|
    requires Apart(depths, counts, succ, queue) && Holds(w0, depths, counts, succ)
    requires AtStart(g, prefix, s, dist, depth - 1, w0)
    requires queue.Pending() == [] && Level(dist, queue.Window(), depth - 1)
    requires QueuedUpTo(dist, queue.Pushed(), depth - 1)
    modifies depths, counts, succ, queue`sharedIn, queue.shared
    ensures queue.Valid() && AtStart(g, prefix, s, dist, depth, w) && Holds(w, depths, counts, succ)
    ensures Level(dist, queue.Pending(), depth) && QueuedUpTo(dist, queue.Pushed(), depth)
    ensures queue.sharedIn >= old(queue.sharedIn) && queue.Pushed()[..old(queue.sharedIn)] == old(queue.Pushed())
  {
    hide AtStart, Level, QueuedUpTo, Distinct;
    ghost var pushed, window := queue.Pushed(), queue.Window();
    assert window == pushed[queue.outStart..queue.outEnd];
    WindowDistinct(dist, pushed, depth - 1, queue.outStart, queue.outEnd);
    StartShape(g, prefix, s, dist, depth - 1, w0);
    var lqueue := new QueueBuffer(queue, bufferSize);
    assert queue.Pushed() + lqueue.Held() == pushed + [];
    w := ProcessWindow(g, prefix, depths, counts, succ, lqueue, depth, s, dist, pushed, window, w0);
    FoundFits(dist, depth - 1, pushed, w.depths, w.found);
    assert |queue.Pushed() + lqueue.Held()| <= |g|;
    lqueue.Flush();
    assert queue.Pushed() == pushed + w.found;
    assert queue.Pending() == w.found;
    LevelDone(g, prefix, s, dist, depth - 1, w);
    w := w.(found := []);
  }

  // ---------------------------------------------------------------- all levels

  /** Between entries i and i + 1 of idx the queue lists level i - 1. */
  ghost predicate SliceAt(dist: seq<int>, q: seq<nat>, idx: seq<nat>, i: nat)
    requires 1 <= i < |idx| - 1
  {
    idx[i] <= idx[i + 1] <= |q| && Level(dist, q[idx[i]..idx[i + 1]], i - 1)
  }

  /** From index 1 on, consecutive entries of idx delimit the levels 0, 1, ... in q. */
  ghost predicate LevelStarts(dist: seq<int>, q: seq<nat>, idx: seq<nat>) {
    && |idx| >= 2 && idx[0] == idx[1] == 0 && idx[|idx| - 1] <= |q|
    && forall i :: 1 <= i < |idx| - 1 ==> SliceAt(dist, q, idx, i)
  }

  /** idx slices the whole queue into the levels, and no vertex lies deeper. */
  ghost predicate Slices(dist: seq<int>, q: seq<nat>, idx: seq<nat>) {
    && LevelStarts(dist, q, idx) && idx[|idx| - 1] == |q| && Distinct(q)
    && forall v :: 0 <= v < |dist| ==> dist[v] < |idx| - 2
  }

  lemma NextSlice(dist: seq<int>, q: seq<nat>, q': seq<nat>, idx: seq<nat>, end: nat)
    requires LevelStarts(dist, q, idx) && q <= q' && idx[|idx| - 1] <= end <= |q'|
    requires Level(dist, q'[idx[|idx| - 1]..end], |idx| - 2)
    ensures LevelStarts(dist, q', idx + [end])
  {
    var idx' := idx + [end];
    forall i | 1 <= i < |idx'| - 1 ensures SliceAt(dist, q', idx', i) {
      if i < |idx| - 1 {
        assert SliceAt(dist, q, idx, i);
        assert q'[idx[i]..idx[i + 1]] == q[idx[i]..idx[i + 1]];
      }
    }
  }

  /** Nothing lies beyond an empty level. */
  lemma {:induction false} NothingDeeper(g: Adj, s: nat, dist: seq<int>, d: nat, v: nat)
    requires Valid(g) && s < |g| && Depths(g, s, dist) && Level(dist, [], d) && v < |g|
    ensures dist[v] < d
    decreases if v < |dist| then dist[v] else 0
  {
    if dist[v] >= d {
      assert v !in [];
      var u, i := DistsPred(g, s, dist, v);
      NothingDeeper(g, s, dist, d, u);
    }
  }

  lemma StartOfSearch(g: Adj, prefix: seq<nat>, s: nat, dist: seq<int>, w: Wave)
    requires Valid(g) && s < |g| && Depths(g, s, dist) && EdgeIds(g, prefix) && |w.succ| >= prefix[|g|]
    requires |w.depths| == |w.counts| == |g| && w.found == []
    requires forall v :: 0 <= v < |g| ==> w.depths[v] == if v == s then 0 else -1
    requires forall v :: 0 <= v < |g| ==> w.counts[v] == if v == s then 1 else 0
    requires forall i :: 0 <= i < |w.succ| ==> !w.succ[i]
    ensures AtStart(g, prefix, s, dist, 0, w)
    ensures Level(dist, [s], 0) && QueuedUpTo(dist, [s], 0)
  {
    SourceDist(g, s, dist);
    var none, d: nat := Below(dist, 0), 0;
    assert none == {};
    forall v: nat | v < |g| && dist[v] != 0 ensures Gathered(g, s, dist, d, none, v) == 0 {
      SumIntZero(|g|, (x: nat) => if x in none && x < |dist| && dist[x] == d then Extended(g, s, v, d, x) else 0);
    }
    assert Walks(g, s, s, 0) == 1;
  }

  /** One turn of the search loop: the window is processed and slid. */
  method SearchLevel(g: Adj, prefix: seq<nat>, depths: array<int>, counts: array<nat>, succ: array<bool>,
                     queue: SlidingQueue, bufferSize: nat, depth: nat, ghost s: nat, ghost dist: seq<int>,
                     ghost idx: seq<nat>, ghost w0: Wave)
    returns (ghost w: Wave)
    requires Valid(g) && s < |g| && Depths(g, s, dist) && bufferSize > 0 && depth > 0
    requires queue.Valid() && queue.shared.Length >= |g| && Apart(depths, counts, succ, queue)
    requires AtStart(g, prefix, s, dist, depth - 1, w0) && Holds(w0, depths, counts, succ)
    requires queue.Pending() == [] && Level(dist, queue.Window(), depth - 1)
    requires QueuedUpTo(dist, queue.Pushed(), depth - 1)
    requires LevelStarts(dist, queue.Pushed(), idx) && |idx| == depth + 1 && idx[depth] == queue.outStart
    modifies depths, counts, succ, queue`sharedIn, queue`outStart, queue`outEnd, queue.shared
    ensures queue.Valid() && AtStart(g, prefix, s, dist, depth, w) && Holds(w, depths, counts, succ)
    ensures queue.Pending() == [] && Level(dist, queue.Window(), depth) && QueuedUpTo(dist, queue.Pushed(), depth)
    ensures LevelStarts(dist, queue.Pushed(), idx + [queue.outStart])
    ensures old(queue.sharedIn) <= queue.sharedIn <= |g|
    ensures queue.sharedIn == old(queue.sharedIn) ==> queue.Window() == []
  {
    hide AtStart, QueuedUpTo;
    ghost var q, start := queue.Pushed(), queue.outStart;
    w := ProcessLevel(g, prefix, depths, counts, succ, queue, bufferSize, depth, s, dist, w0);
    QueueFits(dist, queue.Pushed(), depth);
    assert queue.Pushed()[start..|q|] == q[start..];
    NextSlice(dist, q, queue.Pushed(), idx, |q|);
    queue.SlideWindow();
  }

  /** The search proper, from the source queued to an empty level. */
  method SearchAll(g: Adj, prefix: seq<nat>, depths: array<int>, counts: array<nat>, succ: array<bool>,
                   queue: SlidingQueue, bufferSize: nat, ghost s: nat, ghost dist: seq<int>, ghost w0: Wave)
    returns (depthIndex: seq<nat>, ghost w: Wave, ghost d: nat)
    requires Valid(g) && s < |g| && Depths(g, s, dist) && bufferSize > 0
    requires queue.Valid() && queue.shared.Length >= |g| && Apart(depths, counts, succ, queue)
    requires AtStart(g, prefix, s, dist, 0, w0) && Holds(w0, depths, counts, succ)
    requires queue.outStart == 0 && queue.Pending() == []
    requires Level(dist, queue.Window(), 0) && QueuedUpTo(dist, queue.Pushed(), 0)
    modifies depths, counts, succ, queue`sharedIn, queue`outStart, queue`outEnd, queue.shared
    ensures queue.Valid() && AtStart(g, prefix, s, dist, d, w) && Holds(w, depths, counts, succ)
    ensures Level(dist, [], d) && |depthIndex| == d + 2
    ensures LevelStarts(dist, queue.Pushed(), depthIndex) && depthIndex[d + 1] == queue.sharedIn
    ensures QueuedUpTo(dist, queue.Pushed(), d)
  {
    hide AtStart, QueuedUpTo, Depths, Level;
    depthIndex, w, d := [0], w0, 0;
    var depth := 0;
    while queue.outStart != queue.outEnd
      invariant queue.Valid() && queue.Pending() == [] && d == depth && |depthIndex| == depth + 1
      invariant AtStart(g, prefix, s, dist, depth, w) && Holds(w, depths, counts, succ)
      invariant Level(dist, queue.Window(), depth) && QueuedUpTo(dist, queue.Pushed(), depth)
      invariant LevelStarts(dist, queue.Pushed(), depthIndex + [queue.outStart])
      decreases |g| - queue.sharedIn, |queue.Window()|
    {
      depthIndex := depthIndex + [queue.outStart];
      depth := depth + 1;
      w := SearchLevel(g, prefix, depths, counts, succ, queue, bufferSize, depth, s, dist, depthIndex, w);
      d := depth;
    }
    assert queue.Window() == [];
    depthIndex := depthIndex + [queue.outStart];
  }

  lemma QueueFits(dist: seq<int>, q: seq<nat>, d: int)
    requires QueuedUpTo(dist, q, d)
    ensures |q| <= |dist|
  {
    forall i | 0 <= i < |q| ensures q[i] < |dist| {
      assert q[i] in q;
    }
    DistinctBound(q, |dist|);
  }

  /** An empty queue gets the source as its window. */
  method QueueSource(source: nat, queue: SlidingQueue)
    requires queue.Valid() && queue.sharedIn == 0 && queue.shared.Length > 0
    modifies queue, queue.shared
    ensures queue.Valid() && queue.outStart == 0 && queue.Pending() == []
    ensures queue.Pushed() == [source] && queue.Window() == [source]
  {
    queue.PushBack(source);
    queue.SlideWindow();
  }

  /** The source alone is known, with one path. */
  method Seed(g: Adj, source: nat, counts: array<nat>) returns (depths: array<int>)
    requires source < |g| == counts.Length
    modifies counts
    ensures fresh(depths) && depths.Length == |g|
    ensures forall v :: 0 <= v < |g| ==> depths[v] == if v == source then 0 else -1
    ensures counts[..] == old(counts[..])[source := 1]
  {
    depths := new int[|g|](_ => -1);
    depths[source] := 0;
    counts[source] := 1;
  }

  /** Counts shortest paths, marks the edges one level down and slices the queue into levels. */
  method PBFS(g: Adj, source: nat, counts: array<nat>, succ: array<bool>, queue: SlidingQueue, prefix: seq<nat>,
              bufferSize: nat)
    returns (depthIndex: seq<nat>)
    requires Valid(g) && source < |g| == counts.Length && EdgeIds(g, prefix) && bufferSize > 0
    requires succ.Length >= prefix[|g|] && queue.Valid() && queue.shared.Length >= |g|
    requires queue.Pushed() == [] && counts != queue.shared
    requires succ as object != queue.shared && succ as object != counts
    requires forall v :: 0 <= v < |g| ==> counts[v] == 0
    requires forall i :: 0 <= i < succ.Length ==> !succ[i]
    modifies counts, succ, queue, queue.shared
    ensures queue.Valid()
    ensures Slices(Dists(g, source), queue.Pushed(), depthIndex)
    ensures forall v :: 0 <= v < |g| ==> counts[v] == PathCount(g, source, Dists(g, source), v)
    ensures forall u, j :: 0 <= u < |g| && 0 <= j < |g[u]| ==>
      (Bit(prefix, succ[..], u, j) <==> Dists(g, source)[u] >= 0 && OneDown(g, Dists(g, source), u, j))
  {
    hide AtStart, QueuedUpTo, Depths, Level, LevelStarts, EdgeIds, PathCount, OneDown;
    assert queue.sharedIn == |queue.Pushed()|;
    var depths := Seed(g, source, counts);
    QueueSource(source, queue);
    ghost var dist := Dists(g, source);
    DepthsAreDists(g, source, dist);
    ghost var w := Wave(depths[..], counts[..], succ[..], []);
    StartOfSearch(g, prefix, source, dist, w);
    ghost var d;
    depthIndex, w, d := SearchAll(g, prefix, depths, counts, succ, queue, bufferSize, source, dist, w);
    SearchDone(g, prefix, source, dist, d, w);
    QueueDistinct(dist, queue.Pushed(), d);
  }

  lemma QueueDistinct(dist: seq<int>, q: seq<nat>, d: int)
    requires QueuedUpTo(dist, q, d)
    ensures Distinct(q)
  {
  }

  lemma SearchDone(g: Adj, prefix: seq<nat>, s: nat, dist: seq<int>, d: nat, w: Wave)
    requires Valid(g) && s < |g| && Depths(g, s, dist) && AtStart(g, prefix, s, dist, d, w) && Level(dist, [], d)
    ensures forall v :: 0 <= v < |g| ==> dist[v] < d
    ensures |w.counts| == |g| && forall v :: 0 <= v < |g| ==> w.counts[v] == PathCount(g, s, dist, v)
    ensures |prefix| > |g| && forall u, j :: 0 <= u < |g| && 0 <= j < |g[u]| ==>
      (Bit(prefix, w.succ, u, j) <==> dist[u] >= 0 && OneDown(g, dist, u, j))
  {
    forall v: nat | v < |g| ensures dist[v] < d {
      NothingDeeper(g, s, dist, d, v);
    }
    forall v: nat | v < |g| && dist[v] < 0 ensures Gathered(g, s, dist, d, Below(dist, d), v) == 0 {
      SumIntZero(|g|, (x: nat) =>
        if x in Below(dist, d) && x < |dist| && dist[x] == d then Extended(g, s, v, d, x) else 0);
    }
  }
}
