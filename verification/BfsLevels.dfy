/** Breadth-first levels and the queue of a level-by-level search. */
module BfsLevels {
  import opened Graphs
  import opened Sets

  ghost predicate WithinDist(g: Adj, s: nat, v: nat, d: nat) {
    exists e: nat :: e <= d && IsDist(g, s, v, e)
  }

  /** q lists the vertices at distance d. */
  ghost predicate ListsLevel(g: Adj, s: nat, q: seq<nat>, d: nat) {
    forall v: nat :: v in q <==> IsDist(g, s, v, d)
  }

  lemma LevelInRange(g: Adj, s: nat, v: nat, d: nat)
    requires Valid(g) && s < |g| && IsDist(g, s, v, d)
    ensures v < |g|
  {
    ReachInRange(g, s, v, d);
  }

  /** Nothing lies beyond an empty level. */
  lemma {:induction false} EmptyLevelEnds(g: Adj, s: nat, d: nat, v: nat, e: nat)
    requires forall w: nat :: !IsDist(g, s, w, d)
    requires e >= d
    ensures !IsDist(g, s, v, e)
    decreases e
  {
    if e > d && IsDist(g, s, v, e) {
      var u := DistPred(g, s, v, e - 1);
      EmptyLevelEnds(g, s, d, u, e - 1);
    }
  }

  /** A walk over all the levels before d's, one vertex each. */
  lemma {:induction false} OneOfEach(g: Adj, s: nat, v: nat, d: nat) returns (q: seq<nat>)
    requires IsDist(g, s, v, d)
    ensures |q| == d + 1 && forall e :: 0 <= e <= d ==> IsDist(g, s, q[e], e)
    decreases d
  {
    if d == 0 {
      q := [v];
    } else {
      var u := DistPred(g, s, v, d - 1);
      q := OneOfEach(g, s, u, d - 1);
      q := q + [v];
    }
  }

  /** So there are fewer levels than vertices. */
  lemma LevelBound(g: Adj, s: nat, v: nat, d: nat)
    requires Valid(g) && s < |g| && IsDist(g, s, v, d)
    ensures d < |g|
  {
    var q := OneOfEach(g, s, v, d);
    forall i | 0 <= i < |q| ensures q[i] < |g| {
      LevelInRange(g, s, q[i], i);
    }
    forall i, j | 0 <= i < j < |q| ensures q[i] != q[j] {
      assert IsDist(g, s, q[i], i) && IsDist(g, s, q[j], j);
    }
    DistinctBound(q, |g|);
  }

  lemma SameLevelLists(g: Adj, s: nat, window: seq<nat>, d: nat)
    requires ListsLevel(g, s, window, d)
    ensures ListsLevel(g, s, [], d) ==> window == []
  {
    if window != [] {
      assert window[0] in window;
    }
  }

  // ---------------------------------------------------------------- the queue never repeats a vertex

  /** All vertices ever queued are distinct and lie at distance at most d. */
  ghost predicate QueueOk(g: Adj, s: nat, q: seq<nat>, d: nat) {
    && Distinct(q)
    && (forall i :: 0 <= i < |q| ==> WithinDist(g, s, q[i], d))
  }

  /** Distinct vertices of a deeper level can be appended, and they fit. */
  lemma QueueHasRoom(g: Adj, s: nat, q: seq<nat>, d: nat, r: seq<nat>, e: nat)
    requires Valid(g) && s < |g| && QueueOk(g, s, q, d) && d < e
    requires Distinct(r)
    requires forall i :: 0 <= i < |r| ==> IsDist(g, s, r[i], e)
    ensures QueueOk(g, s, q + r, e) && |q + r| <= |g|
  {
    var t := q + r;
    forall i | 0 <= i < |t| ensures WithinDist(g, s, t[i], e) && t[i] < |g| {
      if i < |q| {
        var f: nat :| f <= d && IsDist(g, s, q[i], f);
        LevelInRange(g, s, q[i], f);
      } else {
        LevelInRange(g, s, r[i - |q|], e);
      }
    }
    forall i, j | 0 <= i < j < |t| ensures t[i] != t[j] {
      if i < |q| <= j {
        var f: nat :| f <= d && IsDist(g, s, q[i], f);
        assert IsDist(g, s, r[j - |q|], e);
      }
    }
    DistinctBound(t, |g|);
  }

  lemma FoundHasRoom(g: Adj, s: nat, q: seq<nat>, d: nat, r: seq<nat>, e: nat)
    requires Valid(g) && s < |g| && QueueOk(g, s, q, d) && d < e
    requires Distinct(r)
    requires forall v: nat :: v in r ==> IsDist(g, s, v, e)
    ensures QueueOk(g, s, q + r, e) && |q + r| <= |g|
  {
    forall i | 0 <= i < |r| ensures IsDist(g, s, r[i], e) {
      assert r[i] in r;
    }
    QueueHasRoom(g, s, q, d, r, e);
  }
}
