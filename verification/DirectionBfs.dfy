/** Direction-optimizing breadth-first search and the verifier of its parent array. */
module DirectionBfs {
  import opened Graphs
  import opened Sets
  import opened SlidingQueues
  import opened BfsLevels

  // ---------------------------------------------------------------- what a level-by-level search keeps

  /** v was first reached over an edge from a vertex one level closer (the source from itself). */
  ghost predicate ParentOk(g: Adj, s: nat, parent: seq<int>, v: nat)
    requires v < |parent|
  {
    if v == s then parent[v] == s
    else parent[v] >= 0 && HasEdge(g, parent[v], v)
         && exists d: nat :: IsDist(g, s, parent[v], d) && IsDist(g, s, v, d + 1)
  }

  /** Exactly the vertices at distance at most d are visited, each with a proper parent. */
  ghost predicate SearchedTo(g: Adj, s: nat, parent: seq<int>, d: nat) {
    && Valid(g) && |parent| == |g| && s < |g|
    && forall v: nat :: v < |g| ==>
         (parent[v] >= 0 <==> WithinDist(g, s, v, d)) && (parent[v] >= 0 ==> ParentOk(g, s, parent, v))
  }

  ghost predicate VertexOk(g: Adj, s: nat, parent: seq<int>, v: nat)
    requires v < |parent|
  {
    if Reachable(g, s, v) then ParentOk(g, s, parent, v) else parent[v] == -1
  }

  ghost predicate BfsTree(g: Adj, s: nat, parent: seq<int>) {
    |parent| == |g| && forall v: nat :: v < |g| ==> VertexOk(g, s, parent, v)
  }

  /** A partial expansion of level d: old parents stay, new ones are level-d in-neighbours, and the entries still
      unvisited are as they were. */
  ghost predicate Expanding(g: Adj, s: nat, p0: seq<int>, p: seq<int>, d: nat) {
    && |p| == |p0| == |g|
    && forall v: nat :: v < |g| ==>
         (p0[v] >= 0 ==> p[v] == p0[v])
         && (p0[v] < 0 && p[v] >= 0 ==> IsDist(g, s, p[v], d) && HasEdge(g, p[v], v))
         && (p[v] < 0 ==> p[v] == p0[v])
  }

  /** Every out-neighbour of every level-d vertex is visited. */
  ghost predicate Expanded(g: Adj, s: nat, p: seq<int>, d: nat) {
    forall u: nat, v: nat :: IsDist(g, s, u, d) && HasEdge(g, u, v) ==> v < |p| && p[v] >= 0
  }

  lemma NewlySeenIsNextLevel(g: Adj, s: nat, p0: seq<int>, d: nat, u: nat, v: nat)
    requires SearchedTo(g, s, p0, d) && IsDist(g, s, u, d) && HasEdge(g, u, v) && v < |g| && p0[v] < 0
    ensures IsDist(g, s, v, d + 1)
  {
    var e := DistEdge(g, s, u, v, d);
    assert e > d by { assert WithinDist(g, s, v, e); }
  }

  /** A complete expansion of level d reaches exactly level d + 1. */
  lemma ExpansionStep(g: Adj, s: nat, p0: seq<int>, p: seq<int>, d: nat)
    requires SearchedTo(g, s, p0, d) && Expanding(g, s, p0, p, d) && Expanded(g, s, p, d)
    ensures SearchedTo(g, s, p, d + 1)
    ensures forall v: nat :: (v < |g| && p0[v] < 0 && p[v] >= 0) <==> IsDist(g, s, v, d + 1)
  {
    forall v: nat | v < |g| && p0[v] < 0 && p[v] >= 0 ensures IsDist(g, s, v, d + 1) {
      NewlySeenIsNextLevel(g, s, p0, d, p[v], v);
    }
    forall v: nat | IsDist(g, s, v, d + 1) ensures v < |g| && p0[v] < 0 && p[v] >= 0 {
      LevelInRange(g, s, v, d + 1);
      assert !WithinDist(g, s, v, d);
      var u := DistPred(g, s, v, d);
    }
    forall v: nat | v < |g|
      ensures (p[v] >= 0 <==> WithinDist(g, s, v, d + 1)) && (p[v] >= 0 ==> ParentOk(g, s, p, v))
    {
      if p0[v] >= 0 {
        var e: nat :| e <= d && IsDist(g, s, v, e);
        assert e <= d + 1;
        assert ParentOk(g, s, p0, v);
      } else if p[v] >= 0 {
        SourceIsSeen(g, s, p0, d);
      } else if WithinDist(g, s, v, d + 1) {
        var e: nat :| e <= d + 1 && IsDist(g, s, v, e);
        assert e <= d ==> WithinDist(g, s, v, d);
      }
    }
  }

  lemma SourceIsSeen(g: Adj, s: nat, p: seq<int>, d: nat)
    requires SearchedTo(g, s, p, d)
    ensures p[s] >= 0
  {
    assert IsDist(g, s, s, 0);
  }

  /** When level d is empty the visited part, with every other entry reset to -1, is the BFS tree. */
  lemma FinishedTree(g: Adj, s: nat, p: seq<int>, d: nat, q: seq<int>)
    requires SearchedTo(g, s, p, d) && ListsLevel(g, s, [], d)
    requires |q| == |p| && forall v :: 0 <= v < |p| ==> q[v] == if p[v] < 0 then -1 else p[v]
    ensures BfsTree(g, s, q)
  {
    forall v: nat | v < |g| ensures VertexOk(g, s, q, v) {
      if Reachable(g, s, v) {
        var k: nat :| Reach(g, s, v, k);
        var e := DistExists(g, s, v, k);
        if e >= d {
          forall w: nat ensures !IsDist(g, s, w, d) { assert w !in []; }
          EmptyLevelEnds(g, s, d, v, e);
        }
        assert ParentOk(g, s, p, v);
      } else {
        assert !WithinDist(g, s, v, d);
      }
    }
  }

  // ---------------------------------------------------------------- the counts of the steps

  ghost function Level(g: Adj, s: nat, d: nat): set<nat> {
    set v: nat | v < |g| && IsDist(g, s, v, d)
  }

  /** The vertices visited since p0. */
  ghost function Claimed(p0: seq<int>, p: seq<int>): set<nat> {
    set v: nat | v < |p0| && v < |p| && p0[v] < 0 <= p[v]
  }

  lemma ClaimedNext(p0: seq<int>, p: seq<int>, u: nat, w: int)
    requires |p0| == |p| && u < |p| && p0[u] < 0 && p[u] < 0 <= w
    ensures |Claimed(p0, p[u := w])| == |Claimed(p0, p)| + 1
  {
    assert Claimed(p0, p[u := w]) == Claimed(p0, p) + {u};
  }

  /** What the claimed vertices among the first n held, the sign dropped. */
  ghost function Gain(p0: seq<int>, p: seq<int>, n: nat): int
    requires n <= |p0| == |p|
  {
    if n == 0 then 0 else Gain(p0, p, n - 1) + if p0[n - 1] < 0 <= p[n - 1] then -p0[n - 1] else 0
  }

  lemma {:induction false} NoGain(p: seq<int>, n: nat)
    requires n <= |p|
    ensures Gain(p, p, n) == 0
  {
    if n > 0 {
      NoGain(p, n - 1);
    }
  }

  lemma {:induction false} GainNext(p0: seq<int>, p: seq<int>, v: nat, u: nat, n: nat)
    requires n <= |p0| == |p| && v < |p| && p[v] < 0 && p0[v] == p[v]
    ensures Gain(p0, p[v := u], n) == Gain(p0, p, n) - if v < n then p[v] else 0
  {
    if n > 0 {
      GainNext(p0, p, v, u, n - 1);
    }
  }

  /** What an unvisited vertex counts for: its out-degree, and one when it has no edge. */
  function Weight(g: Adj, v: nat): int
    requires v < |g|
  {
    if |g[v]| > 0 then |g[v]| else 1
  }

  /** Unvisited entries hold minus their vertex's weight. */
  ghost predicate Weighed(g: Adj, p: seq<int>) {
    |p| == |g| && forall v: nat :: v < |g| && p[v] < 0 ==> p[v] == -Weight(g, v)
  }

  /** The weight of the vertices of level d below n. */
  ghost function LevelWeight(g: Adj, s: nat, d: nat, n: nat): int
    requires n <= |g|
  {
    if n == 0 then 0 else LevelWeight(g, s, d, n - 1) + if n - 1 in Level(g, s, d) then Weight(g, n - 1) else 0
  }

  /** The vertices claimed between two levels are the later one. */
  lemma ClaimedIsLevel(g: Adj, s: nat, p0: seq<int>, p: seq<int>, d: nat)
    requires SearchedTo(g, s, p0, d) && SearchedTo(g, s, p, d + 1)
    ensures Claimed(p0, p) == Level(g, s, d + 1)
  {
    forall v: nat | v < |g| ensures p0[v] < 0 <= p[v] <==> IsDist(g, s, v, d + 1) {
      if p0[v] < 0 <= p[v] {
        var e: nat :| e <= d + 1 && IsDist(g, s, v, e);
        assert e <= d ==> WithinDist(g, s, v, d);
      } else if IsDist(g, s, v, d + 1) {
        assert WithinDist(g, s, v, d + 1) && !WithinDist(g, s, v, d);
      }
    }
  }

  lemma {:induction false} GainIsWeight(g: Adj, s: nat, p0: seq<int>, p: seq<int>, d: nat, n: nat)
    requires Weighed(g, p0) && |p| == |g| && Claimed(p0, p) == Level(g, s, d) && n <= |g|
    ensures Gain(p0, p, n) == LevelWeight(g, s, d, n)
  {
    if n > 0 {
      GainIsWeight(g, s, p0, p, d, n - 1);
      assert n - 1 in Claimed(p0, p) <==> n - 1 in Level(g, s, d);
    }
  }

  // ---------------------------------------------------------------- the steps

  /** Parents before the search: minus the out-degree, or -1. */
  method InitParent(g: Adj) returns (parent: array<int>)
    ensures fresh(parent) && parent.Length == |g|
    ensures forall v :: 0 <= v < |g| ==> parent[v] == if |g[v]| != 0 then -|g[v]| else -1
  {
    parent := new int[|g|];
    for n := 0 to |g|
      invariant forall v :: 0 <= v < n ==> parent[v] == if |g[v]| != 0 then -|g[v]| else -1
    {
      parent[n] := if |g[n]| != 0 then -|g[n]| else -1;
    }
  }

  /** Midway through a top-down step: found lists, once each, the vertices visited since p0. */
  ghost predicate TopDown(g: Adj, s: nat, d: nat, p0: seq<int>, p: seq<int>, found: seq<nat>) {
    && Expanding(g, s, p0, p, d)
    && Distinct(found)
    && forall v: nat :: v in found <==> v < |g| && p0[v] < 0 && p[v] >= 0
  }

  ghost predicate NeighboursSeen(g: Adj, p: seq<int>, u: nat, hi: nat) {
    u < |g| && forall j :: 0 <= j < hi && j < |g[u]| ==> g[u][j] < |p| && p[g[u][j]] >= 0
  }

  lemma VisitKeepsTopDown(g: Adj, s: nat, d: nat, p0: seq<int>, p: seq<int>, found: seq<nat>, pushed: seq<nat>,
                          u: nat, v: nat)
    requires SearchedTo(g, s, p0, d) && QueueOk(g, s, pushed, d) && TopDown(g, s, d, p0, p, found)
    requires IsDist(g, s, u, d) && HasEdge(g, u, v) && v < |g| && p[v] < 0
    ensures TopDown(g, s, d, p0, p[v := u], found + [v])
    ensures |pushed + found| < |g|
    ensures Gain(p0, p[v := u], |g|) == Gain(p0, p, |g|) - p[v]
  {
    hide Gain;
    GainNext(p0, p, v, u, |g|);
    var found' := found + [v];
    forall i | 0 <= i < |found'| ensures IsDist(g, s, found'[i], d + 1) {
      var w := found'[i];
      assert i < |found| ==> w in found;
      NewlySeenIsNextLevel(g, s, p0, d, if i < |found| then p[w] else u, w);
    }
    QueueHasRoom(g, s, pushed, d, found', d + 1);
  }

  /** The inner loop of a top-down step: visits the unvisited out-neighbours of u. */
  method ExpandVertex(g: Adj, parent: array<int>, lqueue: QueueBuffer, u: nat, ghost s: nat, ghost d: nat,
                      ghost p0: seq<int>, ghost pushed: seq<nat>, ghost found0: seq<nat>)
    returns (scout: int, ghost found: seq<nat>)
    requires lqueue.Valid() && lqueue.sq.shared.Length >= |g|
    requires parent as object != lqueue.local && parent as object != lqueue.sq.shared
    requires SearchedTo(g, s, p0, d) && QueueOk(g, s, pushed, d) && TopDown(g, s, d, p0, parent[..], found0)
    requires lqueue.sq.Pushed() + lqueue.Held() == pushed + found0
    requires IsDist(g, s, u, d) && u < |g| == parent.Length
    modifies parent, lqueue`fill, lqueue.local, lqueue.sq`sharedIn, lqueue.sq.shared
    ensures lqueue.Valid() && lqueue.sq.Window() == old(lqueue.sq.Window())
    ensures lqueue.sq.sharedIn >= old(lqueue.sq.sharedIn)
    ensures TopDown(g, s, d, p0, parent[..], found)
    ensures lqueue.sq.Pushed() + lqueue.Held() == pushed + found
    ensures NeighboursSeen(g, parent[..], u, |g[u]|)
    ensures forall v :: 0 <= v < |g| && old(parent[v]) >= 0 ==> parent[v] >= 0
    ensures scout == Gain(p0, parent[..], |g|) - old(Gain(p0, parent[..], |g|))
  {
    hide Gain, QueueOk, SearchedTo, TopDown;
    SearchShape(g, s, p0, d);
    scout := 0;
    found := found0;
    for j := 0 to |g[u]|
      invariant lqueue.Valid() && lqueue.sq.Window() == old(lqueue.sq.Window())
      invariant lqueue.sq.sharedIn >= old(lqueue.sq.sharedIn)
      invariant TopDown(g, s, d, p0, parent[..], found)
      invariant lqueue.sq.Pushed() + lqueue.Held() == pushed + found
      invariant NeighboursSeen(g, parent[..], u, j)
      invariant forall v :: 0 <= v < |g| && old(parent[v]) >= 0 ==> parent[v] >= 0
      invariant scout == Gain(p0, parent[..], |g|) - old(Gain(p0, parent[..], |g|))
    {
      var v := g[u][j];
      var currVal := parent[v];
      if currVal < 0 {
        ghost var p := parent[..];
        VisitKeepsTopDown(g, s, d, p0, p, found, pushed, u, v);
        parent[v] := u;
        assert parent[..] == p[v := u as int];
        lqueue.PushBack(v);
        found := found + [v];
        assert pushed + found == pushed + found[..|found| - 1] + [v];
        scout := scout - currVal;
      }
    }
  }

  /** The outer loop of a top-down step. */
  method ExpandWindow(g: Adj, parent: array<int>, lqueue: QueueBuffer, ghost s: nat, ghost d: nat, ghost p0: seq<int>,
                      ghost pushed: seq<nat>, ghost window: seq<nat>)
    returns (scout: int, ghost found: seq<nat>)
    requires lqueue.Valid() && lqueue.sq.shared.Length >= |g| && lqueue.sq.Window() == window
    requires parent as object != lqueue.local && parent as object != lqueue.sq.shared
    requires SearchedTo(g, s, p0, d) && QueueOk(g, s, pushed, d) && ListsLevel(g, s, window, d) && parent[..] == p0
    requires lqueue.sq.Pushed() + lqueue.Held() == pushed
    modifies parent, lqueue`fill, lqueue.local, lqueue.sq`sharedIn, lqueue.sq.shared
    ensures lqueue.Valid() && lqueue.sq.Window() == window && lqueue.sq.sharedIn >= old(lqueue.sq.sharedIn)
    ensures TopDown(g, s, d, p0, parent[..], found) && WindowSeen(g, parent[..], window, |window|)
    ensures lqueue.sq.Pushed() + lqueue.Held() == pushed + found
    ensures |p0| == |g| == parent.Length && scout == Gain(p0, parent[..], |g|)
  {
    hide SearchedTo, TopDown, QueueOk, ListsLevel, WindowSeen, NeighboursSeen, Gain;
    var queue := lqueue.sq;
    found := [];
    SearchShape(g, s, p0, d);
    NoGain(p0, |g|);
    TopDownStarts(g, s, d, p0, window);
    scout := 0;
    var i := queue.outStart;
    while i < queue.outEnd
      invariant queue.outStart <= i <= queue.outEnd
      invariant lqueue.Valid() && queue.Window() == window && queue.sharedIn >= old(queue.sharedIn)
      invariant TopDown(g, s, d, p0, parent[..], found)
      invariant queue.Pushed() + lqueue.Held() == pushed + found
      invariant WindowSeen(g, parent[..], window, i - queue.outStart)
      invariant scout == Gain(p0, parent[..], |g|)
    {
      ghost var p := parent[..];
      var u := queue.shared[i];
      queue.WindowAt(i);
      WindowVertex(g, s, window, d, i - queue.outStart);
      var delta;
      delta, found := ExpandVertex(g, parent, lqueue, u, s, d, p0, pushed, found);
      scout := scout + delta;
      WindowSeenNext(g, p, parent[..], window, i - queue.outStart);
      i := i + 1;
    }
  }

  /** Expands the window top-down. The vertices found are appended to the queue, each once, and what their entries
      held is added up. */
  method TDStep(g: Adj, parent: array<int>, queue: SlidingQueue, bufferSize: nat, ghost s: nat, ghost d: nat)
    returns (scout: int)
    requires queue.Valid() && queue.shared.Length >= |g| && bufferSize > 0 && parent as object != queue.shared
    requires SearchedTo(g, s, parent[..], d) && QueueOk(g, s, queue.Pushed(), d)
    requires queue.Pending() == [] && ListsLevel(g, s, queue.Window(), d)
    modifies parent, queue`sharedIn, queue.shared
    ensures queue.Valid()
    ensures SearchedTo(g, s, parent[..], d + 1) && QueueOk(g, s, queue.Pushed(), d + 1)
    ensures ListsLevel(g, s, queue.Pending(), d + 1)
    ensures Unvisited(parent[..]) <= Unvisited(old(parent[..]))
    ensures queue.Pending() != [] ==> Unvisited(parent[..]) < Unvisited(old(parent[..]))
    ensures scout == Gain(old(parent[..]), parent[..], |g|)
    ensures Weighed(g, old(parent[..])) ==> Weighed(g, parent[..]) && scout == LevelWeight(g, s, d + 1, |g|)
  {
    hide SearchedTo, TopDown, QueueOk, ListsLevel, Unvisited, WindowSeen, Gain, LevelWeight, Weighed;
    ghost var p0, pushed, window := parent[..], queue.Pushed(), queue.Window();
    ghost var found;
    var lqueue := new QueueBuffer(queue, bufferSize);
    assert queue.Pushed() == pushed && lqueue.Held() == [];
    scout, found := ExpandWindow(g, parent, lqueue, s, d, p0, pushed, window);
    TopDownDone(g, s, d, p0, parent[..], found, pushed, window);
    StepWeighed(g, s, d, p0, parent[..]);
    assert |queue.Pushed() + lqueue.Held()| <= |g|;
    lqueue.Flush();
    assert queue.Pending() == found by {
      assert queue.Pushed() == pushed + found;
    }
  }

  /** After a step from level d the weights stand, and the gain is the weight of level d + 1. */
  lemma StepWeighed(g: Adj, s: nat, d: nat, p0: seq<int>, p: seq<int>)
    requires SearchedTo(g, s, p0, d) && SearchedTo(g, s, p, d + 1) && Expanding(g, s, p0, p, d)
    ensures Claimed(p0, p) == Level(g, s, d + 1)
    ensures Weighed(g, p0) ==> Weighed(g, p) && Gain(p0, p, |g|) == LevelWeight(g, s, d + 1, |g|)
  {
    ClaimedIsLevel(g, s, p0, p, d);
    if Weighed(g, p0) {
      GainIsWeight(g, s, p0, p, d + 1, |g|);
    }
  }

  lemma SearchShape(g: Adj, s: nat, p: seq<int>, d: nat)
    requires SearchedTo(g, s, p, d)
    ensures Valid(g) && |p| == |g| && s < |g|
  {
  }

  lemma TopDownStarts(g: Adj, s: nat, d: nat, p0: seq<int>, window: seq<nat>)
    requires |p0| == |g|
    ensures TopDown(g, s, d, p0, p0, []) && WindowSeen(g, p0, window, 0)
  {
  }

  lemma WindowVertex(g: Adj, s: nat, window: seq<nat>, d: nat, k: nat)
    requires Valid(g) && s < |g| && ListsLevel(g, s, window, d) && k < |window|
    ensures window[k] < |g| && IsDist(g, s, window[k], d)
  {
    assert window[k] in window;
    LevelInRange(g, s, window[k], d);
  }

  /** The first hi window vertices have no unvisited out-neighbour left. */
  ghost predicate WindowSeen(g: Adj, p: seq<int>, window: seq<nat>, hi: nat) {
    hi <= |window| && forall k :: 0 <= k < hi ==> window[k] < |g| && NeighboursSeen(g, p, window[k], |g[window[k]]|)
  }

  lemma WindowSeenNext(g: Adj, p: seq<int>, p': seq<int>, window: seq<nat>, hi: nat)
    requires WindowSeen(g, p, window, hi) && hi < |window| && window[hi] < |g|
    requires |p'| == |p| && forall v :: 0 <= v < |p| && p[v] >= 0 ==> p'[v] >= 0
    requires NeighboursSeen(g, p', window[hi], |g[window[hi]]|)
    ensures WindowSeen(g, p', window, hi + 1)
  {
    forall k | 0 <= k < hi ensures NeighboursSeen(g, p', window[k], |g[window[k]]|) {
      assert NeighboursSeen(g, p, window[k], |g[window[k]]|);
    }
  }

  lemma TopDownDone(g: Adj, s: nat, d: nat, p0: seq<int>, p: seq<int>, found: seq<nat>, pushed: seq<nat>,
                    window: seq<nat>)
    requires SearchedTo(g, s, p0, d) && QueueOk(g, s, pushed, d) && TopDown(g, s, d, p0, p, found)
    requires ListsLevel(g, s, window, d) && WindowSeen(g, p, window, |window|)
    ensures SearchedTo(g, s, p, d + 1) && ListsLevel(g, s, found, d + 1)
    ensures QueueOk(g, s, pushed + found, d + 1) && |pushed + found| <= |g|
    ensures Unvisited(p) <= Unvisited(p0) && (found != [] ==> Unvisited(p) < Unvisited(p0))
    ensures Expanding(g, s, p0, p, d)
  {
    forall u: nat, v: nat | IsDist(g, s, u, d) && HasEdge(g, u, v) ensures v < |p| && p[v] >= 0 {
      assert u in window;
      var k :| 0 <= k < |window| && window[k] == u;
      assert NeighboursSeen(g, p, u, |g[u]|);
    }
    ExpansionStep(g, s, p0, p, d);
    forall v: nat ensures v in found <==> IsDist(g, s, v, d + 1) {
    }
    forall i | 0 <= i < |found| ensures IsDist(g, s, found[i], d + 1) {
      assert found[i] in found;
    }
    QueueHasRoom(g, s, pushed, d, found, d + 1);
    if found != [] {
      assert found[0] in found;
      assert found[0] in Unvisited(p0) && found[0] !in Unvisited(p);
    }
  }

  /** Front bits that a bottom-up step may see: all of level d, and stale ones left by earlier levels,
      whose out-neighbours are all visited. */
  ghost predicate FrontOk(g: Adj, s: nat, p: seq<int>, front: seq<bool>, d: nat) {
    && |front| == |p| == |g|
    && (forall v: nat :: IsDist(g, s, v, d) ==> v < |g| && front[v])
    && forall v: nat, w: nat :: v < |g| && front[v] && HasEdge(g, v, w) ==>
         IsDist(g, s, v, d) || (w < |g| && p[w] >= 0)
  }

  /** The bits of front are exactly level d. */
  ghost predicate FrontExact(g: Adj, s: nat, front: seq<bool>, d: nat) {
    |front| == |g| && forall v: nat :: IsDist(g, s, v, d) <==> v < |g| && front[v]
  }

  /** The first listed vertex whose front bit is set, or -1. */
  function FirstIn(list: seq<nat>, front: seq<bool>): int {
    if list == [] then -1
    else if list[0] < |front| && front[list[0]] then list[0]
    else FirstIn(list[1..], front)
  }

  predicate InFront(front: seq<bool>, v: nat) {
    v < |front| && front[v]
  }

  lemma {:induction false} FirstInFront(list: seq<nat>, front: seq<bool>)
    ensures var v := FirstIn(list, front);
            if v < 0 then v == -1 && forall k :: 0 <= k < |list| ==> !InFront(front, list[k])
            else exists k :: 0 <= k < |list| && list[k] == v && InFront(front, v)
                             && forall i :: 0 <= i < k ==> !InFront(front, list[i])
  {
    if list != [] {
      FirstInFront(list[1..], front);
      assert list == [list[0]] + list[1..];
      if !InFront(front, list[0]) && FirstIn(list, front) >= 0 {
        var k :| 0 <= k < |list[1..]| && list[1..][k] == FirstIn(list, front)
                 && forall i :: 0 <= i < k ==> !InFront(front, list[1..][i]);
        assert list[k + 1] == list[1..][k];
      }
    }
  }

  /** Every vertex on its own: an unvisited one takes its first in-neighbour in the front. No vertex writes what
      another reads, so any interleaving of the vertices does the same. */
  ghost predicate BottomUpStep(ins: Adj, p: seq<int>, front: seq<bool>, p': seq<int>, next: seq<bool>) {
    && |p| == |front| == |p'| == |next| == |ins|
    && forall u :: 0 <= u < |ins| ==> Decided(p[u], FirstIn(ins[u], front), p'[u], next[u])
  }

  predicate Decided(was: int, first: int, now: int, bit: bool) {
    if was < 0 && first >= 0 then now == first && bit else now == was && !bit
  }

  /** Bottom-up; the vertices that got a parent are counted. */
  method BUStep(g: Adj, ins: Adj, parent: array<int>, front: array<bool>, next: array<bool>, ghost s: nat, ghost d: nat)
    returns (awake: nat)
    requires Inverse(g, ins) && front.Length == next.Length == |g| && front != next
    requires SearchedTo(g, s, parent[..], d) && FrontOk(g, s, parent[..], front[..], d)
    modifies parent, next
    ensures BottomUpStep(ins, old(parent[..]), old(front[..]), parent[..], next[..]) && front[..] == old(front[..])
    ensures SearchedTo(g, s, parent[..], d + 1) && FrontExact(g, s, next[..], d + 1)
    ensures Unvisited(parent[..]) <= Unvisited(old(parent[..]))
    ensures awake == |Claimed(old(parent[..]), parent[..])| == |Level(g, s, d + 1)|
    ensures awake > 0 ==> Unvisited(parent[..]) < Unvisited(old(parent[..]))
    ensures awake == 0 ==> ListsLevel(g, s, [], d + 1)
    ensures Weighed(g, old(parent[..])) ==> Weighed(g, parent[..])
  {
    hide SearchedTo, FrontOk, FrontExact, FirstIn, Claimed, Level, Weighed, Unvisited, ListsLevel, Expanding;
    ghost var p0, f := parent[..], front[..];
    SearchShape(g, s, p0, d);
    NoneClaimed(p0);
    awake := 0;
    for u := 0 to |g|
      modifies next
      invariant forall v :: 0 <= v < u ==> !next[v]
    {
      next[u] := false;
    }
    assert parent[..] == p0 && front[..] == f;
    for u := 0 to |g|
      invariant front[..] == f && awake == |Claimed(p0, parent[..])|
      invariant forall v :: 0 <= v < u ==> Decided(p0[v], FirstIn(ins[v], f), parent[v], next[v])
      invariant forall v :: u <= v < |g| ==> parent[v] == p0[v] && !next[v]
    {
      ghost var p := parent[..];
      var adopted := Adopt(ins, parent, front, next, u);
      if adopted {
        ClaimedNext(p0, p, u, parent[u]);
        awake := awake + 1;
      } else {
        assert parent[..] == p;
      }
    }
    BottomUpExact(g, ins, s, p0, f, parent[..], next[..], d);
    StepWeighed(g, s, d, p0, parent[..]);
    CountDecides(p0, parent[..], awake);
  }

  lemma NoneClaimed(p: seq<int>)
    ensures Claimed(p, p) == {}
  {
  }

  lemma CountDecides(p0: seq<int>, p: seq<int>, awake: nat)
    requires |p0| == |p| && awake == |Claimed(p0, p)|
    ensures awake == 0 <==> !exists v: nat :: v < |p| && p0[v] < 0 && p[v] >= 0
  {
    if v: nat :| v < |p| && p0[v] < 0 && p[v] >= 0 {
      assert v in Claimed(p0, p);
    } else {
      assert Claimed(p0, p) == {};
    }
  }

  /** Gives an unvisited vertex its first in-neighbour in the front, if any. */
  method Adopt(ins: Adj, parent: array<int>, front: array<bool>, next: array<bool>, u: nat) returns (adopted: bool)
    requires Valid(ins) && u < |ins| == parent.Length == front.Length == next.Length && front != next && !next[u]
    modifies parent, next
    ensures front[..] == old(front[..])
    ensures parent[..] == old(parent[..])[u := parent[u]] && next[..] == old(next[..])[u := next[u]]
    ensures Decided(old(parent[u]), FirstIn(ins[u], front[..]), parent[u], next[u])
    ensures adopted <==> next[u]
    ensures adopted ==> old(parent[u]) < 0 <= parent[u]
  {
    adopted := false;
    if parent[u] < 0 {
      ghost var list, f := ins[u], front[..];
      for j := 0 to |ins[u]|
        invariant parent[..] == old(parent[..]) && next[..] == old(next[..]) && front[..] == f
        invariant FirstIn(list, f) == FirstIn(list[j..], f)
      {
        var v := ins[u][j];
        assert list[j..][0] == v && list[j..][1..] == list[j + 1..];
        if front[v] {
          parent[u] := v;
          next[u] := true;
          return true;
        }
      }
    }
  }

  ghost predicate NoFrontLeft(ins: Adj, p: seq<int>, front: seq<bool>, v: nat) {
    v < |p| && v < |ins| && (p[v] < 0 ==> forall k :: 0 <= k < |ins[v]| ==> ins[v][k] < |front| && !front[ins[v][k]])
  }

  lemma BottomUpDone(g: Adj, ins: Adj, s: nat, d: nat, p0: seq<int>, p: seq<int>, front: seq<bool>, next: seq<bool>)
    requires Inverse(g, ins) && |front| == |next| == |g|
    requires SearchedTo(g, s, p0, d) && FrontOk(g, s, p0, front, d) && Expanding(g, s, p0, p, d)
    requires forall v :: 0 <= v < |g| ==> NoFrontLeft(ins, p, front, v)
    requires forall v :: 0 <= v < |g| ==> (next[v] <==> p0[v] < 0 && p[v] >= 0)
    ensures SearchedTo(g, s, p, d + 1) && FrontExact(g, s, next, d + 1)
    ensures Unvisited(p) <= Unvisited(p0)
    ensures (exists v: nat :: v < |g| && p0[v] < 0 && p[v] >= 0) ==> Unvisited(p) < Unvisited(p0)
    ensures (forall v: nat :: v < |g| && p0[v] < 0 ==> p[v] < 0) ==> ListsLevel(g, s, [], d + 1)
  {
    forall u: nat, v: nat | IsDist(g, s, u, d) && HasEdge(g, u, v) ensures v < |p| && p[v] >= 0 {
      LevelInRange(g, s, u, d);
      assert HasEdge(ins, v, u);
      var k :| 0 <= k < |ins[v]| && ins[v][k] == u;
      assert NoFrontLeft(ins, p, front, v);
    }
    ExpansionStep(g, s, p0, p, d);
    if v: nat :| v < |g| && p0[v] < 0 && p[v] >= 0 {
      assert v in Unvisited(p0) && v !in Unvisited(p);
    }
  }

  lemma BottomUpExact(g: Adj, ins: Adj, s: nat, p: seq<int>, front: seq<bool>, p': seq<int>, next: seq<bool>, d: nat)
    requires Inverse(g, ins) && SearchedTo(g, s, p, d) && FrontOk(g, s, p, front, d)
    requires BottomUpStep(ins, p, front, p', next)
    ensures SearchedTo(g, s, p', d + 1) && FrontExact(g, s, next, d + 1) && Expanding(g, s, p, p', d)
    ensures Unvisited(p') <= Unvisited(p)
    ensures (exists v: nat :: v < |g| && p[v] < 0 && p'[v] >= 0) ==> Unvisited(p') < Unvisited(p)
    ensures (forall v: nat :: v < |g| && p[v] < 0 ==> p'[v] < 0) ==> ListsLevel(g, s, [], d + 1)
  {
    hide FirstIn, Unvisited, ListsLevel, FrontExact, WithinDist;
    forall u: nat | u < |g|
      ensures NoFrontLeft(ins, p', front, u) && (next[u] <==> p[u] < 0 && p'[u] >= 0)
      ensures (p[u] >= 0 ==> p'[u] == p[u]) && (p'[u] < 0 ==> p'[u] == p[u])
      ensures p[u] < 0 && p'[u] >= 0 ==> IsDist(g, s, p'[u], d) && HasEdge(g, p'[u], u)
    {
      FirstInFront(ins[u], front);
      assert Decided(p[u], FirstIn(ins[u], front), p'[u], next[u]);
      if p[u] < 0 && p'[u] >= 0 {
        assert HasEdge(ins, u, p'[u]);
        assert HasEdge(g, p'[u], u);
      }
    }
    BottomUpDone(g, ins, s, d, p, p', front, next);
  }

  /** Set bits other than level d's have nothing unvisited behind them. */
  ghost predicate FrontHarmless(g: Adj, s: nat, p: seq<int>, front: seq<bool>, d: nat) {
    && |front| == |p| == |g|
    && forall v: nat, w: nat :: v < |g| && front[v] && HasEdge(g, v, w) ==>
         IsDist(g, s, v, d) || (w < |g| && p[w] >= 0)
  }

  lemma ExactIsOk(g: Adj, s: nat, p: seq<int>, bits: seq<bool>, d: nat)
    requires SearchedTo(g, s, p, d) && FrontExact(g, s, bits, d)
    ensures FrontOk(g, s, p, bits, d) && FrontHarmless(g, s, p, bits, d)
  {
  }

  /** Bits left over from level d are harmless once level d + 1 is complete. */
  lemma StaleBitsAreHarmless(g: Adj, s: nat, p0: seq<int>, p: seq<int>, front: seq<bool>, d: nat)
    requires SearchedTo(g, s, p0, d) && SearchedTo(g, s, p, d + 1) && FrontHarmless(g, s, p0, front, d)
    ensures FrontHarmless(g, s, p, front, d + 1)
  {
    forall v: nat, w: nat | v < |g| && front[v] && HasEdge(g, v, w) ensures w < |g| && p[w] >= 0 {
      if IsDist(g, s, v, d) {
        var e := DistEdge(g, s, v, w, d);
      } else {
        var e: nat :| e <= d && IsDist(g, s, w, e);
        assert e <= d + 1;
      }
    }
  }

  method QueueToBitmap(queue: SlidingQueue, bm: array<bool>)
    requires queue.Valid() && forall v :: v in queue.Window() ==> v < bm.Length
    modifies bm
    ensures forall v :: 0 <= v < bm.Length ==> (bm[v] <==> old(bm[v]) || v in queue.Window())
  {
    ghost var window := queue.Window();
    var i := queue.outStart;
    while i < queue.outEnd
      invariant queue.outStart <= i <= queue.outEnd && queue.Window() == window
      invariant forall v :: 0 <= v < bm.Length ==> (bm[v] <==> old(bm[v]) || v in window[..i - queue.outStart])
    {
      queue.WindowAt(i);
      assert queue.shared[i] in window;
      bm[queue.shared[i]] := true;
      i := i + 1;
    }
  }

  /** Pushes every vertex whose bit is set. */
  method PushBits(g: Adj, bm: array<bool>, lqueue: QueueBuffer, ghost pushed: seq<nat>, ghost s: nat, ghost d0: nat,
                  ghost d: nat)
    returns (ghost found: seq<nat>)
    requires Valid(g) && s < |g| && lqueue.Valid() && lqueue.sq.shared.Length >= |g|
    requires bm as object != lqueue.sq.shared && bm as object != lqueue.local
    requires QueueOk(g, s, pushed, d0) && d0 < d && FrontExact(g, s, bm[..], d)
    requires lqueue.sq.Pushed() + lqueue.Held() == pushed
    modifies lqueue`fill, lqueue.local, lqueue.sq`sharedIn, lqueue.sq.shared
    ensures lqueue.Valid() && lqueue.sq.sharedIn >= old(lqueue.sq.sharedIn)
    ensures lqueue.sq.Pushed() + lqueue.Held() == pushed + found && BitsFound(bm[..], found, |g|)
  {
    hide QueueOk, FrontExact, BitsFound;
    ghost var bits := bm[..];
    found := [];
    NoBitsFound(g, s, bits, d);
    for n := 0 to |g|
      invariant lqueue.Valid() && lqueue.sq.sharedIn >= old(lqueue.sq.sharedIn) && bm[..] == bits
      invariant lqueue.sq.Pushed() + lqueue.Held() == pushed + found
      invariant BitsFound(bits, found, n)
    {
      NextBit(bits, found, n);
      if bm[n] {
        BitsHaveRoom(g, s, pushed, d0, bits, found + [n], n + 1, d);
        AppendAssoc(pushed, found, n);
        lqueue.PushBack(n);
        found := found + [n];
      }
    }
  }

  lemma AppendAssoc(a: seq<nat>, b: seq<nat>, x: nat)
    ensures a + (b + [x]) == (a + b) + [x]
  {
  }

  method BitmapToQueue(g: Adj, bm: array<bool>, queue: SlidingQueue, bufferSize: nat,
                       ghost s: nat, ghost d0: nat, ghost d: nat)
    requires Valid(g) && s < |g| && queue.Valid() && queue.shared.Length >= |g| && bufferSize > 0
    requires bm as object != queue.shared
    requires QueueOk(g, s, queue.Pushed(), d0) && d0 < d && FrontExact(g, s, bm[..], d) && queue.Pending() == []
    modifies queue`sharedIn, queue`outStart, queue`outEnd, queue.shared
    ensures queue.Valid() && queue.Pending() == []
    ensures ListsLevel(g, s, queue.Window(), d) && QueueOk(g, s, queue.Pushed(), d)
  {
    hide QueueOk, FrontExact, BitsFound, ListsLevel;
    ghost var pushed, bits := queue.Pushed(), bm[..];
    var lqueue := new QueueBuffer(queue, bufferSize);
    assert lqueue.sq.Pushed() + lqueue.Held() == pushed;
    ghost var found := PushBits(g, bm, lqueue, pushed, s, d0, d);
    BitsHaveRoom(g, s, pushed, d0, bits, found, |g|, d);
    assert |queue.Pushed() + lqueue.Held()| <= |g|;
    lqueue.Flush();
    assert queue.Pending() == found by {
      assert queue.Pushed() == pushed + found;
    }
    queue.SlideWindow();
  }

  /** found lists, once each, the set bits below n. */
  ghost predicate BitsFound(bits: seq<bool>, found: seq<nat>, n: nat) {
    && n <= |bits| && Distinct(found)
    && forall v: nat :: v in found <==> v < n && bits[v]
  }

  lemma NoBitsFound(g: Adj, s: nat, bits: seq<bool>, d: nat)
    requires FrontExact(g, s, bits, d)
    ensures |bits| == |g| && BitsFound(bits, [], 0)
  {
  }

  lemma NextBit(bits: seq<bool>, found: seq<nat>, n: nat)
    requires BitsFound(bits, found, n) && n < |bits|
    ensures BitsFound(bits, if bits[n] then found + [n] else found, n + 1)
  {
  }

  lemma BitsHaveRoom(g: Adj, s: nat, pushed: seq<nat>, d0: nat, bits: seq<bool>, found: seq<nat>, n: nat, d: nat)
    requires Valid(g) && s < |g| && QueueOk(g, s, pushed, d0) && d0 < d
    requires FrontExact(g, s, bits, d) && BitsFound(bits, found, n)
    ensures QueueOk(g, s, pushed + found, d) && |pushed + found| <= |g|
    ensures n == |g| ==> ListsLevel(g, s, found, d)
  {
    hide QueueOk;
    FoundHasRoom(g, s, pushed, d0, found, d);
  }

  /** Integer division as C++ performs it: toward zero. */
  function TruncDiv(a: int, b: int): int
    requires b > 0
  {
    if a >= 0 then a / b else -((-a) / b)
  }

  lemma Quotient(a: int, b: int)
    requires a >= 0 && b > 0
    ensures a / b >= 0 && a / b * b <= a < a / b * b + b
  {
  }

  lemma NegatedProduct(q: int, b: int)
    ensures -q * b == -(q * b)
  {
  }

  lemma TruncatesTowardZero(a: int, b: int)
    requires b > 0
    ensures var q := TruncDiv(a, b);
            if a >= 0 then q >= 0 && q * b <= a < q * b + b else q <= 0 && q * b - b < a <= q * b
  {
    if a >= 0 {
      Quotient(a, b);
    } else {
      Quotient(-a, b);
      NegatedProduct(-a / b, b);
    }
  }

  // ---------------------------------------------------------------- the directions

  /** One top-down step from a level to the next, or a bottom-up phase from a level to a deeper one. */
  datatype Turn = Down(from: nat) | Up(from: nat, to: nat)

  function Reached(turns: seq<Turn>): nat {
    if turns == [] then 0
    else match turns[|turns| - 1]
         case Down(from) => from + 1
         case Up(_, to) => to
  }

  /** A bottom-up phase goes on past level d: the level did not shrink, or is still more than 1/beta of the graph. */
  ghost predicate GoesOn(g: Adj, s: nat, beta: int, d: nat)
    requires d > 0 && beta > 0
  {
    |Level(g, s, d)| >= |Level(g, s, d - 1)| || |Level(g, s, d)| > TruncDiv(|g|, beta)
  }

  /** A phase stops at the first level past which it does not go on. */
  ghost predicate PhaseEnds(g: Adj, s: nat, beta: int, from: nat, to: nat)
    requires beta > 0
  {
    from < to && !GoesOn(g, s, beta, to) && forall d :: from < d < to ==> GoesOn(g, s, beta, d)
  }

  /** The edges leaving the level reached; after a bottom-up phase they are not counted, and taken for one. */
  ghost function Scouted(g: Adj, s: nat, turns: seq<Turn>): int
    requires s < |g|
  {
    if turns == [] then |g[s]|
    else if turns[|turns| - 1].Up? then 1
    else LevelWeight(g, s, Reached(turns), |g|)
  }

  /** The edges not yet explored, every top-down step having explored those its level scouted. */
  ghost function Unexplored(g: Adj, s: nat, edges: int, turns: seq<Turn>): int
    requires s < |g|
  {
    if turns == [] then edges
    else
      var before := turns[..|turns| - 1];
      Unexplored(g, s, edges, before) - if turns[|turns| - 1].Up? then 0 else Scouted(g, s, before)
  }

  /** Every turn starts at the level reached, which is not empty, and goes bottom-up exactly when more than 1/alpha of
      the unexplored edges leave that level. */
  ghost predicate Chosen(g: Adj, s: nat, edges: int, alpha: int, beta: int, turns: seq<Turn>)
    requires s < |g| && alpha > 0 && beta > 0
  {
    turns == [] ||
    var before, turn := turns[..|turns| - 1], turns[|turns| - 1];
    && Chosen(g, s, edges, alpha, beta, before)
    && turn.from == Reached(before) && Level(g, s, turn.from) != {}
    && (turn.Up? <==> Scouted(g, s, before) > TruncDiv(Unexplored(g, s, edges, before), alpha))
    && (turn.Up? ==> PhaseEnds(g, s, beta, turn.from, turn.to))
  }

  lemma TurnTaken(g: Adj, s: nat, edges: int, alpha: int, beta: int, turns: seq<Turn>, turn: Turn)
    requires s < |g| && alpha > 0 && beta > 0 && Chosen(g, s, edges, alpha, beta, turns)
    requires turn.from == Reached(turns) && Level(g, s, turn.from) != {}
    requires turn.Up? <==> Scouted(g, s, turns) > TruncDiv(Unexplored(g, s, edges, turns), alpha)
    requires turn.Up? ==> PhaseEnds(g, s, beta, turn.from, turn.to)
    ensures Chosen(g, s, edges, alpha, beta, turns + [turn])
    ensures turn.Up? ==> Reached(turns + [turn]) == turn.to && Scouted(g, s, turns + [turn]) == 1
    ensures turn.Up? ==> Unexplored(g, s, edges, turns + [turn]) == Unexplored(g, s, edges, turns)
    ensures turn.Down? ==> Reached(turns + [turn]) == turn.from + 1
    ensures turn.Down? ==> Scouted(g, s, turns + [turn]) == LevelWeight(g, s, turn.from + 1, |g|)
    ensures turn.Down? ==> Unexplored(g, s, edges, turns + [turn]) ==
                           Unexplored(g, s, edges, turns) - Scouted(g, s, turns)
  {
    hide Level, LevelWeight, PhaseEnds, TruncDiv;
    assert (turns + [turn])[..|turns|] == turns;
  }

  /** A duplicate-free list of a level has its size. */
  lemma LevelSize(g: Adj, s: nat, window: seq<nat>, d: nat)
    requires Valid(g) && s < |g| && ListsLevel(g, s, window, d) && Distinct(window)
    ensures |window| == |Level(g, s, d)| && (window == [] <==> Level(g, s, d) == {})
  {
    forall v: nat | IsDist(g, s, v, d) ensures v < |g| {
      LevelInRange(g, s, v, d);
    }
    ListedCard(window, Level(g, s, d));
  }

  /** The bottom-up phase: at least one step, and on while the awake set grows or stays large. */
  method BottomUpPhase(g: Adj, ins: Adj, parent: array<int>, front0: array<bool>, curr0: array<bool>, size: nat,
                       beta: int, ghost s: nat, ghost d0: nat)
    returns (front: array<bool>, curr: array<bool>, ghost d: nat)
    requires Inverse(g, ins) && front0.Length == curr0.Length == |g| && front0 != curr0 && beta >= 1
    requires size > 0 && size == |Level(g, s, d0)|
    requires SearchedTo(g, s, parent[..], d0) && FrontOk(g, s, parent[..], front0[..], d0)
    modifies parent, front0, curr0
    ensures {front, curr} == {front0, curr0} && front != curr
    ensures d > d0 && SearchedTo(g, s, parent[..], d) && FrontExact(g, s, front[..], d)
    ensures Unvisited(parent[..]) <= Unvisited(old(parent[..]))
    ensures Unvisited(parent[..]) == Unvisited(old(parent[..])) ==> ListsLevel(g, s, [], d)
    ensures PhaseEnds(g, s, beta, d0, d)
    ensures Weighed(g, old(parent[..])) ==> Weighed(g, parent[..])
  {
    hide SearchedTo, FrontOk, FrontExact, Weighed, Level, Claimed, BottomUpStep, ListsLevel;
    front, curr, d := front0, curr0, d0;
    var awake := size;
    var again := true;
    while again
      invariant {front, curr} == {front0, curr0} && front != curr && front.Length == curr.Length == |g|
      invariant SearchedTo(g, s, parent[..], d) && FrontOk(g, s, parent[..], front[..], d)
      invariant again ==> awake > 0
      invariant awake == |Level(g, s, d)| && (d > d0 ==> (again <==> GoesOn(g, s, beta, d)))
      invariant forall k :: d0 < k < d ==> GoesOn(g, s, beta, k)
      invariant Weighed(g, old(parent[..])) ==> Weighed(g, parent[..])
      invariant d >= d0 && (d > d0 || again)
      invariant d > d0 ==> FrontExact(g, s, front[..], d)
      invariant Unvisited(parent[..]) <= Unvisited(old(parent[..]))
      invariant d > d0 && Unvisited(parent[..]) == Unvisited(old(parent[..])) ==>
        !again && ListsLevel(g, s, [], d)
      decreases Unvisited(parent[..]), again
    {
      var oldAwake := awake;
      awake := BUStep(g, ins, parent, front, curr, s, d);
      d := d + 1;
      front, curr := curr, front;
      ExactIsOk(g, s, parent[..], front[..], d);
      again := awake >= oldAwake || awake > TruncDiv(|g|, beta);
    }
  }

  /** What holds between the steps of the search, at level d. */
  ghost predicate AtLevel(g: Adj, s: nat, parent: array<int>, queue: SlidingQueue, front: array<bool>, d: nat)
    reads parent, queue, queue.shared, front
  {
    && queue.Valid() && queue.shared.Length == |g|
    && parent as object != queue.shared && front as object != queue.shared
    && queue.Pending() == [] && ListsLevel(g, s, queue.Window(), d)
    && SearchedTo(g, s, parent[..], d) && QueueOk(g, s, queue.Pushed(), d)
    && FrontHarmless(g, s, parent[..], front[..], d) && Weighed(g, parent[..])
  }

  lemma WindowSize(g: Adj, s: nat, parent: array<int>, queue: SlidingQueue, front: array<bool>, d: nat)
    requires AtLevel(g, s, parent, queue, front, d)
    ensures queue.outEnd - queue.outStart == |Level(g, s, d)| && (queue.Window() == [] <==> Level(g, s, d) == {})
  {
    hide FrontHarmless, Weighed, ListsLevel, Level;
    forall i, j | 0 <= i < j < |queue.Window()| ensures queue.Window()[i] != queue.Window()[j] {
      assert queue.Window()[i] == queue.Pushed()[queue.outStart + i];
      assert queue.Window()[j] == queue.Pushed()[queue.outStart + j];
    }
    LevelSize(g, s, queue.Window(), d);
  }

  method TopDownBranch(g: Adj, parent: array<int>, queue: SlidingQueue, front: array<bool>, bufferSize: nat,
                       ghost s: nat, ghost d: nat)
    returns (scout: int)
    requires AtLevel(g, s, parent, queue, front, d) && bufferSize > 0
    modifies parent, queue`sharedIn, queue`outStart, queue`outEnd, queue.shared
    ensures AtLevel(g, s, parent, queue, front, d + 1)
    ensures Unvisited(parent[..]) <= Unvisited(old(parent[..]))
    ensures queue.Window() != [] ==> Unvisited(parent[..]) < Unvisited(old(parent[..]))
    ensures scout == LevelWeight(g, s, d + 1, |g|)
  {
    hide LevelWeight, Gain;
    ghost var p := parent[..];
    scout := TDStep(g, parent, queue, bufferSize, s, d);
    StaleBitsAreHarmless(g, s, p, parent[..], front[..], d);
    queue.SlideWindow();
  }

  method BottomUpBranch(g: Adj, ins: Adj, parent: array<int>, queue: SlidingQueue, front0: array<bool>,
                        curr0: array<bool>, beta: int, bufferSize: nat, ghost s: nat, ghost d0: nat)
    returns (front: array<bool>, curr: array<bool>, ghost d: nat)
    requires AtLevel(g, s, parent, queue, front0, d0) && bufferSize > 0 && queue.Window() != []
    requires Inverse(g, ins) && front0 != curr0 && curr0.Length == |g| && beta >= 1
    requires curr0 as object != queue.shared
    modifies parent, queue`sharedIn, queue`outStart, queue`outEnd, queue.shared, front0, curr0
    ensures {front, curr} == {front0, curr0} && front != curr
    ensures AtLevel(g, s, parent, queue, front, d)
    ensures Unvisited(parent[..]) <= Unvisited(old(parent[..]))
    ensures queue.Window() != [] ==> Unvisited(parent[..]) < Unvisited(old(parent[..]))
    ensures PhaseEnds(g, s, beta, d0, d)
  {
    hide Level, PhaseEnds, Weighed, QueueOk;
    WindowSize(g, s, parent, queue, front0, d0);
    ghost var p, f, window := parent[..], front0[..], queue.Window();
    forall v | v in window ensures v < |g| {
      LevelInRange(g, s, v, d0);
    }
    QueueToBitmap(queue, front0);
    FrontLoaded(g, s, p, f, front0[..], window, d0);
    var size := queue.outEnd - queue.outStart;
    queue.SlideWindow();
    front, curr, d := BottomUpPhase(g, ins, parent, front0, curr0, size, beta, s, d0);
    BitmapToQueue(g, front, queue, bufferSize, s, d0, d);
    SameLevelLists(g, s, queue.Window(), d);
    ExactIsOk(g, s, parent[..], front[..], d);
  }

  /** After the search every entry still negative becomes -1. */
  method ClearUnvisited(parent: array<int>)
    modifies parent
    ensures forall v :: 0 <= v < parent.Length ==>
      parent[v] == if old(parent[v]) < 0 then -1 else old(parent[v])
  {
    for n := 0 to parent.Length
      invariant forall v :: n <= v < parent.Length ==> parent[v] == old(parent[v])
      invariant forall v :: 0 <= v < n ==> parent[v] == if old(parent[v]) < 0 then -1 else old(parent[v])
    {
      if parent[n] < -1 {
        parent[n] := -1;
      }
    }
  }

  /** Alternates directions until a level is empty, in the turns prescribed. */
  method SearchLevels(g: Adj, ins: Adj, parent: array<int>, queue: SlidingQueue, front0: array<bool>,
                      curr0: array<bool>, edges: int, scout0: int, alpha: int, beta: int, bufferSize: nat, ghost s: nat)
    returns (ghost d: nat, ghost turns: seq<Turn>)
    requires s < |g| && scout0 == |g[s]|
    requires AtLevel(g, s, parent, queue, front0, 0) && bufferSize > 0 && alpha >= 1 && beta >= 1
    requires Inverse(g, ins) && front0 != curr0 && curr0.Length == |g| && curr0 as object != queue.shared
    modifies parent, queue`sharedIn, queue`outStart, queue`outEnd, queue.shared, front0, curr0
    ensures SearchedTo(g, s, parent[..], d) && ListsLevel(g, s, [], d)
    ensures Chosen(g, s, edges, alpha, beta, turns) && Reached(turns) == d && Level(g, s, d) == {}
  {
    hide SearchedTo, QueueOk, Unvisited, Chosen, Scouted, Unexplored, Level, LevelWeight, PhaseEnds, TruncDiv;
    NoTurns(g, s, edges, alpha, beta);
    var front, curr, edgesToCheck, scout := front0, curr0, edges, scout0;
    d, turns := 0, [];
    while queue.outStart != queue.outEnd
      invariant AtLevel(g, s, parent, queue, front, d)
      invariant {front, curr} == {front0, curr0} && front != curr
      invariant Chosen(g, s, edges, alpha, beta, turns) && Reached(turns) == d
      invariant scout == Scouted(g, s, turns) && edgesToCheck == Unexplored(g, s, edges, turns)
      decreases Unvisited(parent[..]), |queue.Window()|
    {
      assert |queue.Window()| > 0;
      WindowSize(g, s, parent, queue, front, d);
      ghost var from := d;
      if scout > TruncDiv(edgesToCheck, alpha) {
        front, curr, d := BottomUpBranch(g, ins, parent, queue, front, curr, beta, bufferSize, s, d);
        scout := 1;
        TurnTaken(g, s, edges, alpha, beta, turns, Up(from, d));
        turns := turns + [Up(from, d)];
      } else {
        edgesToCheck := edgesToCheck - scout;
        scout := TopDownBranch(g, parent, queue, front, bufferSize, s, d);
        d := d + 1;
        TurnTaken(g, s, edges, alpha, beta, turns, Down(from));
        turns := turns + [Down(from)];
      }
    }
    assert queue.Window() == [];
    WindowSize(g, s, parent, queue, front, d);
  }

  lemma NoTurns(g: Adj, s: nat, edges: int, alpha: int, beta: int)
    requires s < |g| && alpha > 0 && beta > 0
    ensures Chosen(g, s, edges, alpha, beta, []) && Scouted(g, s, []) == |g[s]| && Unexplored(g, s, edges, []) == edges
  {
  }

  /** The parent array, the queue with the source alone in its window, and an empty bitmap. */
  method StartSearch(g: Adj, source: nat) returns (parent: array<int>, queue: SlidingQueue, front: array<bool>)
    requires Valid(g) && source < |g|
    ensures fresh(parent) && fresh(queue) && fresh(queue.shared) && fresh(front)
    ensures AtLevel(g, source, parent, queue, front, 0)
  {
    hide SearchedTo, ListsLevel, QueueOk, FrontHarmless, AtLevel, Weighed;
    parent, queue := QueueSource(g, source);
    ghost var p := parent[..];
    front := new bool[|g|](_ => false);
    assert parent[..] == p;
    NoFront(g, source, parent[..], front[..]);
    StartsAtLevel(g, source, parent, queue, front);
  }

  lemma StartsAtLevel(g: Adj, s: nat, parent: array<int>, queue: SlidingQueue, front: array<bool>)
    requires queue.Valid() && queue.shared.Length == |g|
    requires parent as object != queue.shared && front as object != queue.shared
    requires queue.Window() == queue.Pushed() == [s] && queue.Pending() == []
    requires SearchedTo(g, s, parent[..], 0) && ListsLevel(g, s, [s], 0) && QueueOk(g, s, [s], 0)
    requires FrontHarmless(g, s, parent[..], front[..], 0) && Weighed(g, parent[..])
    ensures AtLevel(g, s, parent, queue, front, 0)
  {
    hide SearchedTo, ListsLevel, QueueOk, FrontHarmless;
  }

  lemma NoFront(g: Adj, s: nat, p: seq<int>, front: seq<bool>)
    requires |front| == |p| == |g| && forall v :: 0 <= v < |g| ==> !front[v]
    ensures FrontHarmless(g, s, p, front, 0)
  {
  }

  /** The source is its own parent and alone in the window. */
  method QueueSource(g: Adj, source: nat) returns (parent: array<int>, queue: SlidingQueue)
    requires Valid(g) && source < |g|
    ensures fresh(parent) && fresh(queue) && fresh(queue.shared) && parent as object != queue.shared
    ensures parent.Length == |g| && queue.Valid() && queue.shared.Length == |g| && queue.Pending() == []
    ensures queue.Pushed() == queue.Window() == [source]
    ensures SearchedTo(g, source, parent[..], 0) && ListsLevel(g, source, [source], 0)
    ensures QueueOk(g, source, [source], 0) && Weighed(g, parent[..])
  {
    hide SearchedTo, ListsLevel, QueueOk;
    parent := InitParent(g);
    parent[source] := source;
    assert Weighed(g, parent[..]);
    queue := new SlidingQueue(|g|);
    queue.PushBack(source);
    queue.SlideWindow();
    SearchStarts(g, source, parent[..], [source]);
  }

  /** Terminates with a breadth-first tree for every alpha and beta of at least one. The directions taken on the way
      are those the numbers of vertices and edges of the levels prescribe, up to the first empty level. */
  method DOBFS(g: Adj, ins: Adj, source: nat, edges: int, alpha: int, beta: int, bufferSize: nat)
    returns (parent: array<int>, ghost turns: seq<Turn>)
    requires Inverse(g, ins) && source < |g| && alpha >= 1 && beta >= 1 && bufferSize > 0
    ensures BfsTree(g, source, parent[..])
    ensures Chosen(g, source, edges, alpha, beta, turns) && Level(g, source, Reached(turns)) == {}
  {
    hide SearchedTo, QueueOk, ListsLevel, BfsTree, AtLevel, Chosen, Level;
    var queue, front;
    parent, queue, front := StartSearch(g, source);
    var curr := new bool[|g|](_ => false);
    ghost var d;
    d, turns := SearchLevels(g, ins, parent, queue, front, curr, edges, |g[source]|, alpha, beta, bufferSize, source);
    ghost var p := parent[..];
    ClearUnvisited(parent);
    FinishedTree(g, source, p, d, parent[..]);
  }

  lemma SearchStarts(g: Adj, s: nat, p: seq<int>, window: seq<nat>)
    requires Valid(g) && s < |g| == |p| && window == [s]
    requires forall v :: 0 <= v < |g| ==> if v == s then p[v] == s else p[v] < 0
    ensures SearchedTo(g, s, p, 0) && ListsLevel(g, s, window, 0) && QueueOk(g, s, window, 0)
  {
    assert IsDist(g, s, s, 0);
  }

  lemma FrontLoaded(g: Adj, s: nat, p: seq<int>, f0: seq<bool>, f: seq<bool>, window: seq<nat>, d: nat)
    requires FrontHarmless(g, s, p, f0, d) && ListsLevel(g, s, window, d) && |f| == |g|
    requires forall v :: v in window ==> v < |g|
    requires forall v :: 0 <= v < |g| ==> (f[v] <==> f0[v] || v in window)
    ensures FrontOk(g, s, p, f, d)
  {
  }

  // ---------------------------------------------------------------- the verifier

  /** A serial search in progress: every visited vertex has a walk of its depth, depths never fall along
      the visit list and stay within one of the vertex being expanded. */
  ghost predicate Visiting(g: Adj, s: nat, depth: seq<int>, visit: seq<nat>, i: nat) {
    && |depth| == |g| && i <= |visit|
    && (forall k :: 0 <= k < |visit| ==>
          visit[k] < |g| && depth[visit[k]] >= 0 && Reach(g, s, visit[k], depth[visit[k]]))
    && (forall v: nat :: v < |g| && v !in visit ==> depth[v] == -1)
    && (forall j, k :: 0 <= j < k < |visit| ==> depth[visit[j]] <= depth[visit[k]])
    && (forall k :: i <= k < |visit| ==> depth[visit[k]] <= depth[visit[i]] + 1)
    && s in visit && s < |g| && depth[s] == 0
  }

  /** The first hi neighbours of u are visited at most one level below it. */
  ghost predicate Relaxed(g: Adj, depth: seq<int>, u: nat, hi: nat) {
    && u < |g| == |depth|
    && forall j :: 0 <= j < hi && j < |g[u]| ==> g[u][j] < |g| && 0 <= depth[g[u][j]] <= depth[u] + 1
  }

  /** The vertices before position hi of the visit list are done. */
  ghost predicate AllRelaxed(g: Adj, depth: seq<int>, visit: seq<nat>, hi: nat) {
    forall k :: 0 <= k < hi && k < |visit| ==> visit[k] < |g| && Relaxed(g, depth, visit[k], |g[visit[k]]|)
  }

  lemma AllRelaxedKeeps(g: Adj, s: nat, depth: seq<int>, visit: seq<nat>, i: nat, v: nat)
    requires Visiting(g, s, depth, visit, i) && i < |visit| && v < |g| && depth[v] == -1
    requires AllRelaxed(g, depth, visit, i)
    ensures AllRelaxed(g, depth[v := depth[visit[i]] + 1], visit + [v], i)
  {
    var depth', visit' := depth[v := depth[visit[i]] + 1], visit + [v];
    forall k | 0 <= k < i ensures visit'[k] < |g| && Relaxed(g, depth', visit'[k], |g[visit'[k]]|) {
      assert visit'[k] == visit[k] && Relaxed(g, depth, visit[k], |g[visit[k]]|);
    }
  }

  lemma VisitKeeps(g: Adj, s: nat, depth: seq<int>, visit: seq<nat>, i: nat, v: nat)
    requires Visiting(g, s, depth, visit, i) && i < |visit| && v < |g|
    requires HasEdge(g, visit[i], v) && depth[v] == -1
    ensures Visiting(g, s, depth[v := depth[visit[i]] + 1], visit + [v], i)
  {
    ReachStep(g, s, visit[i], v, depth[visit[i]]);
    var depth', visit' := depth[v := depth[visit[i]] + 1], visit + [v];
    assert forall k :: 0 <= k < |visit| ==> visit[k] != v && visit'[k] == visit[k];
    forall k | 0 <= k < |visit| ensures depth[visit[k]] <= depth[visit[i]] + 1 {
      if k < i {
        assert depth[visit[k]] <= depth[visit[i]];
      }
    }
  }

  lemma {:induction false} AllRelaxedBounds(g: Adj, s: nat, depth: seq<int>, v: nat, k: nat)
    requires Valid(g) && s < |g| == |depth| && depth[s] == 0 && Reach(g, s, v, k)
    requires forall u: nat :: u < |g| && depth[u] >= 0 ==> Relaxed(g, depth, u, |g[u]|)
    ensures v < |g| && 0 <= depth[v] <= k
    decreases k
  {
    if k > 0 {
      var u: nat :| Reach(g, s, u, k - 1) && HasEdge(g, u, v);
      AllRelaxedBounds(g, s, depth, u, k - 1);
      var j :| 0 <= j < |g[u]| && g[u][j] == v;
      assert Relaxed(g, depth, u, |g[u]|);
    }
  }

  method SerialDepths(g: Adj, source: nat) returns (depth: array<int>)
    requires Valid(g) && source < |g|
    ensures fresh(depth) && Depths(g, source, depth[..])
  {
    depth := new int[|g|](_ => -1);
    depth[source] := 0;
    var visit: seq<nat> := [source];
    var i := 0;
    assert Reach(g, source, source, 0);
    while i < |visit|
      invariant Visiting(g, source, depth[..], visit, i)
      invariant AllRelaxed(g, depth[..], visit, i)
      decreases |Unvisited(depth[..])| + |visit| - i
    {
      visit := VisitNeighbours(g, depth, visit, i, source);
      i := i + 1;
    }
    DepthsComplete(g, source, depth[..], visit);
  }

  lemma DepthsComplete(g: Adj, s: nat, depth: seq<int>, visit: seq<nat>)
    requires Valid(g) && Visiting(g, s, depth, visit, |visit|)
    requires AllRelaxed(g, depth, visit, |visit|)
    ensures Depths(g, s, depth)
  {
    forall u: nat | u < |g| && depth[u] >= 0 ensures Relaxed(g, depth, u, |g[u]|) {
      assert u in visit;
      var k :| 0 <= k < |visit| && visit[k] == u;
    }
    forall v: nat | v < |g|
      ensures if depth[v] >= 0 then IsDist(g, s, v, depth[v]) else depth[v] == -1 && !Reachable(g, s, v)
    {
      if depth[v] >= 0 {
        assert v in visit;
        forall k: nat | k < depth[v] ensures !Reach(g, s, v, k) {
          if Reach(g, s, v, k) {
            AllRelaxedBounds(g, s, depth, v, k);
          }
        }
      } else if Reachable(g, s, v) {
        var k: nat :| Reach(g, s, v, k);
        AllRelaxedBounds(g, s, depth, v, k);
      }
    }
  }

  lemma VisitedIsClose(g: Adj, s: nat, depth: seq<int>, visit: seq<nat>, i: nat, v: nat)
    requires Visiting(g, s, depth, visit, i) && i < |visit| && v < |g| && depth[v] != -1
    ensures 0 <= depth[v] <= depth[visit[i]] + 1
  {
    assert v in visit;
    var k :| 0 <= k < |visit| && visit[k] == v;
    if k < i {
      assert depth[visit[k]] <= depth[visit[i]];
    }
  }

  /** Looks at neighbour v of the vertex being expanded. */
  method VisitOne(g: Adj, depth: array<int>, visit0: seq<nat>, i: nat, j: nat, ghost s: nat) returns (visit: seq<nat>)
    requires Valid(g) && Visiting(g, s, depth[..], visit0, i) && i < |visit0| && AllRelaxed(g, depth[..], visit0, i)
    requires j < |g[visit0[i]]| && Relaxed(g, depth[..], visit0[i], j)
    modifies depth
    ensures visit0 <= visit && Visiting(g, s, depth[..], visit, i) && AllRelaxed(g, depth[..], visit, i)
    ensures Relaxed(g, depth[..], visit0[i], j + 1)
    ensures |Unvisited(depth[..])| + |visit| == old(|Unvisited(depth[..])|) + |visit0|
  {
    hide Visiting, AllRelaxed, Relaxed, Unvisited;
    visit := visit0;
    VisitingShape(g, s, depth[..], visit, i);
    var v := g[visit[i]][j];
    ghost var d := depth[..];
    if depth[v] == -1 {
      VisitNew(g, s, d, visit, i, j);
      depth[v] := depth[visit[i]] + 1;
      visit := visit + [v];
      assert depth[..] == d[v := d[visit[i]] + 1];
    } else {
      VisitSeen(g, s, d, visit, i, j);
    }
  }

  lemma VisitingShape(g: Adj, s: nat, depth: seq<int>, visit: seq<nat>, i: nat)
    requires Visiting(g, s, depth, visit, i) && i < |visit|
    ensures |depth| == |g| && visit[i] < |g|
  {
  }

  lemma VisitNew(g: Adj, s: nat, depth: seq<int>, visit: seq<nat>, i: nat, j: nat)
    requires Valid(g) && Visiting(g, s, depth, visit, i) && i < |visit| && AllRelaxed(g, depth, visit, i)
    requires visit[i] < |g| && j < |g[visit[i]]| && Relaxed(g, depth, visit[i], j) && depth[g[visit[i]][j]] == -1
    ensures var v := g[visit[i]][j];
            var depth', visit' := depth[v := depth[visit[i]] + 1], visit + [v];
            && Visiting(g, s, depth', visit', i) && AllRelaxed(g, depth', visit', i)
            && Relaxed(g, depth', visit[i], j + 1)
            && |Unvisited(depth')| == |Unvisited(depth)| - 1
  {
    var v := g[visit[i]][j];
    VisitKeeps(g, s, depth, visit, i, v);
    AllRelaxedKeeps(g, s, depth, visit, i, v);
    assert Unvisited(depth[v := depth[visit[i]] + 1]) == Unvisited(depth) - {v};
  }

  lemma VisitSeen(g: Adj, s: nat, depth: seq<int>, visit: seq<nat>, i: nat, j: nat)
    requires Valid(g) && Visiting(g, s, depth, visit, i) && i < |visit|
    requires visit[i] < |g| && j < |g[visit[i]]| && Relaxed(g, depth, visit[i], j) && depth[g[visit[i]][j]] != -1
    ensures Relaxed(g, depth, visit[i], j + 1)
  {
    VisitedIsClose(g, s, depth, visit, i, g[visit[i]][j]);
  }

  method VisitNeighbours(g: Adj, depth: array<int>, visit0: seq<nat>, i: nat, ghost s: nat) returns (visit: seq<nat>)
    requires Valid(g) && Visiting(g, s, depth[..], visit0, i) && i < |visit0| && AllRelaxed(g, depth[..], visit0, i)
    modifies depth
    ensures visit0 <= visit && Visiting(g, s, depth[..], visit, i + 1) && AllRelaxed(g, depth[..], visit, i + 1)
    ensures |Unvisited(depth[..])| + |visit| == old(|Unvisited(depth[..])|) + |visit0|
  {
    visit := visit0;
    var u := visit[i];
    for j := 0 to |g[u]|
      invariant visit0 <= visit && Visiting(g, s, depth[..], visit, i) && AllRelaxed(g, depth[..], visit, i)
      invariant Relaxed(g, depth[..], u, j)
      invariant |Unvisited(depth[..])| + |visit| == old(|Unvisited(depth[..])|) + |visit0|
    {
      visit := VisitOne(g, depth, visit, i, j, s);
    }
    NextToExpand(g, s, depth[..], visit, i);
  }

  lemma NextToExpand(g: Adj, s: nat, depth: seq<int>, visit: seq<nat>, i: nat)
    requires Visiting(g, s, depth, visit, i) && i < |visit| && AllRelaxed(g, depth, visit, i)
    requires Relaxed(g, depth, visit[i], |g[visit[i]]|)
    ensures Visiting(g, s, depth, visit, i + 1) && AllRelaxed(g, depth, visit, i + 1)
  {
    forall k | i + 1 <= k < |visit| ensures depth[visit[k]] <= depth[visit[i + 1]] + 1 {
      assert depth[visit[i]] <= depth[visit[i + 1]];
    }
  }

  /** Accepts a parent array exactly when it is a breadth-first tree of the source. */
  method BFSVerifier(g: Adj, ins: Adj, source: nat, parent: seq<int>) returns (ok: bool)
    requires Inverse(g, ins) && source < |g| == |parent|
    ensures ok <==> BfsTree(g, source, parent)
  {
    var depth := SerialDepths(g, source);
    ghost var dist := depth[..];
    ok := true;
    for u := 0 to |g|
      invariant depth[..] == dist
      invariant ok && forall v: nat :: v < u ==> VertexOk(g, source, parent, v)
    {
      if depth[u] != -1 && parent[u] != -1 {
        if u == source {
          assert Reach(g, source, source, 0) && Reachable(g, source, source);
          if !(parent[u] == u && depth[u] == 0) {
            assert !VertexOk(g, source, parent, u);
            return false;
          }
          assert VertexOk(g, source, parent, u);
          continue;
        }
        var found := false;
        for k := 0 to |ins[u]|
          invariant depth[..] == dist
          invariant !found && forall l :: 0 <= l < k ==> ins[u][l] != parent[u]
        {
          var v := ins[u][k];
          if v == parent[u] {
            DepthsDecideParent(g, ins, source, parent, depth[..], u, v);
            if depth[v] != depth[u] - 1 {
              return false;
            }
            found := true;
            break;
          }
        }
        if !found {
          assert !VertexOk(g, source, parent, u) by {
            assert parent[u] >= 0 && HasEdge(g, parent[u], u) ==> HasEdge(ins, u, parent[u]);
          }
          return false;
        }
      } else if depth[u] != parent[u] {
        assert !VertexOk(g, source, parent, u);
        return false;
      } else {
        assert VertexOk(g, source, parent, u);
      }
    }
  }

  lemma DepthsDecideParent(g: Adj, ins: Adj, s: nat, parent: seq<int>, depth: seq<int>, u: nat, v: nat)
    requires Inverse(g, ins) && |parent| == |g| && Depths(g, s, depth) && u < |g| && u != s
    requires depth[u] >= 0 && parent[u] == v && HasEdge(ins, u, v)
    ensures VertexOk(g, s, parent, u) <==> depth[v] == depth[u] - 1
  {
    assert HasEdge(g, v, u);
    assert IsDist(g, s, u, depth[u]);
    assert depth[u] != 0;
    if depth[v] == depth[u] - 1 {
      assert IsDist(g, s, v, depth[v]) && IsDist(g, s, u, depth[v] + 1);
    }
  }
}
