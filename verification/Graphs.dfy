/** Adjacency lists, undirected connectivity and hop distance: the plain specifications that the
    kernels of this project are proved against. */
module Graphs {

  /** Out-neighbours (or in-neighbours) of every vertex, in storage order; parallel edges are allowed. */
  type Adj = seq<seq<nat>>

  type Edge = (nat, nat)

  predicate Valid(g: Adj) {
    forall u, j :: 0 <= u < |g| && 0 <= j < |g[u]| ==> g[u][j] < |g|
  }

  predicate HasEdge(g: Adj, u: nat, v: nat) {
    u < |g| && v in g[u]
  }

  ghost predicate Inverse(outs: Adj, ins: Adj) {
    && |outs| == |ins|
    && Valid(outs)
    && Valid(ins)
    && forall u: nat, v: nat :: HasEdge(outs, u, v) <==> HasEdge(ins, v, u)
  }

  ghost predicate Symmetric(g: Adj) {
    forall u: nat, v: nat :: HasEdge(g, u, v) ==> HasEdge(g, v, u)
  }

  // ---------------------------------------------------------------- undirected connectivity

  ghost function EdgeSet(g: Adj): set<Edge> {
    set u, j | 0 <= u < |g| && 0 <= j < |g[u]| :: (u, g[u][j])
  }

  ghost predicate Adjacent(E: set<Edge>, x: nat, y: nat) {
    (x, y) in E || (y, x) in E
  }

  ghost predicate Path(E: set<Edge>, p: seq<nat>) {
    |p| > 0 && forall i :: 0 < i < |p| ==> Adjacent(E, p[i - 1], p[i])
  }

  /** x and y lie in the same component of the undirected graph with edges E. */
  ghost predicate Connected(E: set<Edge>, x: nat, y: nat) {
    exists p :: Path(E, p) && p[0] == x && p[|p| - 1] == y
  }

  /** m is the smallest vertex of x's component. */
  ghost predicate ComponentMin(E: set<Edge>, x: nat, m: nat) {
    Connected(E, x, m) && forall y :: Connected(E, x, y) ==> m <= y
  }

  lemma ConnectedRefl(E: set<Edge>, x: nat)
    ensures Connected(E, x, x)
  {
    assert Path(E, [x]);
  }

  lemma ConnectedEdge(E: set<Edge>, x: nat, y: nat)
    requires Adjacent(E, x, y)
    ensures Connected(E, x, y)
  {
    assert Path(E, [x, y]);
  }

  lemma ConnectedSym(E: set<Edge>, x: nat, y: nat)
    requires Connected(E, x, y)
    ensures Connected(E, y, x)
  {
    var p :| Path(E, p) && p[0] == x && p[|p| - 1] == y;
    var q := seq(|p|, i requires 0 <= i < |p| => p[|p| - 1 - i]);
    forall i | 0 < i < |q| ensures Adjacent(E, q[i - 1], q[i]) {
      assert Adjacent(E, p[|p| - 1 - i], p[|p| - i]);
    }
    assert Path(E, q);
  }

  lemma ConnectedTrans(E: set<Edge>, x: nat, y: nat, z: nat)
    requires Connected(E, x, y) && Connected(E, y, z)
    ensures Connected(E, x, z)
  {
    var p :| Path(E, p) && p[0] == x && p[|p| - 1] == y;
    var q :| Path(E, q) && q[0] == y && q[|q| - 1] == z;
    var r := p + q[1..];
    forall i | 0 < i < |r| ensures Adjacent(E, r[i - 1], r[i]) {
      if i >= |p| {
        assert r[i] == q[i - |p| + 1];
        assert r[i - 1] == q[i - |p|];
      }
    }
    assert Path(E, r);
  }

  lemma ConnectedMono(E: set<Edge>, F: set<Edge>, x: nat, y: nat)
    requires E <= F
    requires Connected(E, x, y)
    ensures Connected(F, x, y)
  {
    var p :| Path(E, p) && p[0] == x && p[|p| - 1] == y;
    assert Path(F, p);
  }

  /** A property that no edge changes is the same all over a component. */
  lemma ConnectedInvariant(E: set<Edge>, f: nat -> int, x: nat, y: nat)
    requires Connected(E, x, y)
    requires forall u: nat, v: nat :: (u, v) in E ==> f(u) == f(v)
    ensures f(x) == f(y)
  {
    var p :| Path(E, p) && p[0] == x && p[|p| - 1] == y;
    PathInvariant(E, f, p);
  }

  lemma {:induction false} PathInvariant(E: set<Edge>, f: nat -> int, p: seq<nat>)
    requires Path(E, p)
    requires forall u: nat, v: nat :: (u, v) in E ==> f(u) == f(v)
    ensures f(p[0]) == f(p[|p| - 1])
  {
    if |p| > 1 {
      assert Path(E, p[..|p| - 1]);
      PathInvariant(E, f, p[..|p| - 1]);
      assert Adjacent(E, p[|p| - 2], p[|p| - 1]);
    }
  }

  /** Labels that never exceed their vertex, stay in its component, agree along edges:
      such labels are component minima. */
  lemma LabelsAreMinima(E: set<Edge>, c: seq<nat>, x: nat)
    requires forall u: nat, v: nat :: (u, v) in E ==> u < |c| && v < |c| && c[u] == c[v]
    requires forall i :: 0 <= i < |c| ==> c[i] <= i && Connected(E, i, c[i])
    requires x < |c|
    ensures ComponentMin(E, x, c[x])
  {
    forall y | Connected(E, x, y) ensures c[x] <= y {
      ConnectedInvariant(E, (v: nat) => if v < |c| then c[v] as int else -1, x, y);
    }
  }

  // ---------------------------------------------------------------- directed hop distance

  /** There is a walk of exactly k edges from s to v. */
  ghost predicate Reach(g: Adj, s: nat, v: nat, k: nat)
    decreases k
  {
    if k == 0 then v == s else exists u: nat :: Reach(g, s, u, k - 1) && HasEdge(g, u, v)
  }

  ghost predicate Reachable(g: Adj, s: nat, v: nat) {
    exists k: nat :: Reach(g, s, v, k)
  }

  /** d is the length of a shortest walk from s to v. */
  ghost predicate IsDist(g: Adj, s: nat, v: nat, d: nat) {
    Reach(g, s, v, d) && forall k: nat :: k < d ==> !Reach(g, s, v, k)
  }

  lemma ReachStep(g: Adj, s: nat, u: nat, v: nat, k: nat)
    requires Reach(g, s, u, k) && HasEdge(g, u, v)
    ensures Reach(g, s, v, k + 1)
  {
  }

  lemma {:induction false} ReachInRange(g: Adj, s: nat, v: nat, k: nat)
    requires Valid(g) && s < |g| && Reach(g, s, v, k)
    ensures v < |g|
  {
    if k > 0 {
      var u: nat :| Reach(g, s, u, k - 1) && HasEdge(g, u, v);
    }
  }

  lemma DistUnique(g: Adj, s: nat, v: nat, d: nat, e: nat)
    requires IsDist(g, s, v, d) && IsDist(g, s, v, e)
    ensures d == e
  {
  }

  lemma {:induction false} DistExists(g: Adj, s: nat, v: nat, k: nat) returns (d: nat)
    requires Reach(g, s, v, k)
    ensures d <= k && IsDist(g, s, v, d)
  {
    if exists j: nat :: j < k && Reach(g, s, v, j) {
      var j: nat :| j < k && Reach(g, s, v, j);
      d := DistExists(g, s, v, j);
    } else {
      d := k;
    }
  }

  /** A vertex at distance d + 1 has an in-neighbour at distance d. */
  lemma DistPred(g: Adj, s: nat, v: nat, d: nat) returns (u: nat)
    requires IsDist(g, s, v, d + 1)
    ensures IsDist(g, s, u, d) && HasEdge(g, u, v)
  {
    u :| Reach(g, s, u, d) && HasEdge(g, u, v);
    forall k: nat | k < d ensures !Reach(g, s, u, k) {
      if Reach(g, s, u, k) {
        ReachStep(g, s, u, v, k);
      }
    }
  }

  /** Along an edge the distance grows by at most one. */
  lemma DistEdge(g: Adj, s: nat, u: nat, v: nat, d: nat) returns (e: nat)
    requires IsDist(g, s, u, d) && HasEdge(g, u, v)
    ensures e <= d + 1 && IsDist(g, s, v, e)
  {
    ReachStep(g, s, u, v, d);
    e := DistExists(g, s, v, d + 1);
  }

  /** depth holds the hop distance from s, or -1 where s does not reach. */
  ghost predicate Depths(g: Adj, s: nat, depth: seq<int>) {
    && |depth| == |g|
    && forall v: nat :: v < |g| ==>
         (if depth[v] >= 0 then IsDist(g, s, v, depth[v]) else depth[v] == -1 && !Reachable(g, s, v))
  }

  ghost function HopDist(g: Adj, s: nat, v: nat): int {
    if exists d: nat :: IsDist(g, s, v, d) then (var d: nat :| IsDist(g, s, v, d); d) else -1
  }

  /** The distances from s. */
  ghost function Dists(g: Adj, s: nat): seq<int> {
    seq(|g|, v requires 0 <= v < |g| => HopDist(g, s, v))
  }

  lemma DepthsAreDists(g: Adj, s: nat, depth: seq<int>)
    requires |depth| == |g|
    ensures Depths(g, s, depth) <==> depth == Dists(g, s)
  {
    assert Depths(g, s, Dists(g, s)) by {
      forall v: nat | v < |g| && Reachable(g, s, v) ensures exists d: nat :: IsDist(g, s, v, d) {
        var k: nat :| Reach(g, s, v, k);
        var d := DistExists(g, s, v, k);
      }
    }
    if Depths(g, s, depth) {
      forall v: nat | v < |g| ensures depth[v] == Dists(g, s)[v] {
        if depth[v] >= 0 {
          DistUnique(g, s, v, depth[v], Dists(g, s)[v]);
        }
      }
    }
  }
}
