/** Weakly connected components of an edge stream: vertices map to class ids, class ids form a
    union-find forest that is halved while it is searched. */
module StreamingWcc {
  import opened Graphs
  import opened Forests
  import opened Sets

  /** The edges that matter: self loops are dropped. */
  ghost function Edges(stream: seq<Edge>): set<Edge> {
    set e | e in stream && e.0 != e.1
  }

  ghost predicate Touched(E: set<Edge>, x: nat) {
    exists w: nat :: Adjacent(E, x, w)
  }

  ghost function TouchedSet(E: set<Edge>, n: nat): set<nat> {
    set x: nat | x < n && Touched(E, x)
  }

  /** The class representative of x, given vertex classes v and resolved roots r. */
  ghost function Label(v: seq<int>, r: seq<nat>, x: nat): nat
    requires x < |v| && 0 <= v[x] < |r|
  {
    r[v[x]]
  }

  ghost predicate Resolved(v: seq<int>, r: seq<nat>) {
    && (forall i :: 0 <= i < |r| ==> r[i] <= i && r[r[i]] == r[i])
    && (forall x :: 0 <= x < |v| ==> v[x] == -1 || 0 <= v[x] < |r|)
  }

  ghost predicate EdgesLabelled(E: set<Edge>, v: seq<int>, r: seq<nat>)
    requires Resolved(v, r)
  {
    forall a: nat, b: nat :: (a, b) in E ==>
      a < |v| && b < |v| && a != b && v[a] >= 0 && v[b] >= 0 && Label(v, r, a) == Label(v, r, b)
  }

  ghost predicate LabelsConnected(E: set<Edge>, v: seq<int>, r: seq<nat>)
    requires Resolved(v, r)
  {
    forall x, y :: 0 <= x < |v| && 0 <= y < |v| && v[x] >= 0 && v[y] >= 0 && Label(v, r, x) == Label(v, r, y)
                   ==> Connected(E, x, y)
  }

  ghost predicate RootsInUse(v: seq<int>, r: seq<nat>)
    requires Resolved(v, r)
  {
    forall i :: 0 <= i < |r| && r[i] == i ==> exists x :: 0 <= x < |v| && v[x] >= 0 && Label(v, r, x) == i
  }

  ghost predicate Consistent(E: set<Edge>, v: seq<int>, r: seq<nat>) {
    && Resolved(v, r)
    && (forall x :: 0 <= x < |v| && v[x] >= 0 ==> Touched(E, x))
    && EdgesLabelled(E, v, r)
    && LabelsConnected(E, v, r)
    && RootsInUse(v, r)
    && 2 * |r| <= |TouchedSet(E, |v|)|
  }

  // ---------------------------------------------------------------- one edge, four cases

  ghost predicate NewEdge(E: set<Edge>, F: set<Edge>, a: nat, b: nat) {
    a != b && (F == E + {(a, b)} || F == E + {(b, a)})
  }

  lemma TouchedGrows(E: set<Edge>, F: set<Edge>, a: nat, b: nat, n: nat)
    requires NewEdge(E, F, a, b) && a < n && b < n
    ensures Touched(F, a) && Touched(F, b) && forall x: nat :: Touched(E, x) ==> Touched(F, x)
    ensures TouchedSet(F, n) == TouchedSet(E, n) + {a, b}
  {
    assert Adjacent(F, a, b) && Adjacent(F, b, a);
    forall x: nat | Touched(E, x) ensures Touched(F, x) {
      var w: nat :| Adjacent(E, x, w);
      assert Adjacent(F, x, w);
    }
    forall x: nat | Touched(F, x) && x != a && x != b ensures Touched(E, x) {
      var w: nat :| Adjacent(F, x, w);
      assert Adjacent(E, x, w);
    }
    SubsetCard(TouchedSet(E, n), TouchedSet(F, n));
  }

  lemma ConnectedGrows(E: set<Edge>, F: set<Edge>, v: seq<int>, r: seq<nat>)
    requires E <= F && Resolved(v, r) && LabelsConnected(E, v, r)
    ensures LabelsConnected(F, v, r)
  {
    forall x, y | 0 <= x < |v| && 0 <= y < |v| && v[x] >= 0 && v[y] >= 0 && Label(v, r, x) == Label(v, r, y)
      ensures Connected(F, x, y)
    {
      ConnectedMono(E, F, x, y);
    }
  }

  /** What is left to show for a new labelling (w, s) once it covers and agrees on the new edge. */
  lemma Relabel(E: set<Edge>, F: set<Edge>, v: seq<int>, r: seq<nat>, w: seq<int>, s: seq<nat>, a: nat, b: nat)
    requires Consistent(E, v, r) && NewEdge(E, F, a, b) && a < |v| && b < |v| == |w| && Resolved(w, s)
    requires forall x :: 0 <= x < |v| ==> (w[x] >= 0 <==> v[x] >= 0 || x == a || x == b)
    requires Label(w, s, a) == Label(w, s, b)
    requires forall x, y ::
      0 <= x < |v| && 0 <= y < |v| && v[x] >= 0 && v[y] >= 0 && Label(v, r, x) == Label(v, r, y)
      ==> Label(w, s, x) == Label(w, s, y)
    requires LabelsConnected(F, w, s) && RootsInUse(w, s)
    requires 2 * |s| <= |TouchedSet(F, |v|)|
    ensures Consistent(F, w, s)
  {
    TouchedGrows(E, F, a, b, |v|);
  }

  /** Both ends new: a fresh class. */
  lemma FreshClass(E: set<Edge>, F: set<Edge>, v: seq<int>, r: seq<nat>, a: nat, b: nat)
    requires Consistent(E, v, r) && NewEdge(E, F, a, b) && a < |v| && b < |v| && v[a] == v[b] == -1
    ensures Consistent(F, v[b := |r|][a := |r|], r + [|r|])
  {
    hide RootsInUse, LabelsConnected, EdgesLabelled, Connected;
    var w, s := v[b := |r|][a := |r|], r + [|r|];
    FreshLabels(v, r, a, b);
    ConnectedGrows(E, F, v, r);
    PairConnected(F, a, b);
    FreshConnected(F, v, r, a, b);
    FreshRoots(v, r, a, b);
    TouchedGrows(E, F, a, b, |v|);
    UntouchedEnds(E, v, r, a);
    UntouchedEnds(E, v, r, b);
    Relabel(E, F, v, r, w, s, a, b);
  }

  /** How a fresh class changes labels. */
  lemma FreshLabels(v: seq<int>, r: seq<nat>, a: nat, b: nat)
    requires Resolved(v, r) && a < |v| && b < |v| && v[a] == v[b] == -1
    ensures var w, s := v[b := |r|][a := |r|], r + [|r|];
            && Resolved(w, s) && (forall x :: 0 <= x < |v| ==> (w[x] >= 0 <==> v[x] >= 0 || x == a || x == b))
            && Label(w, s, a) == Label(w, s, b) == |r|
            && forall x :: 0 <= x < |v| && v[x] >= 0 ==> Label(w, s, x) == Label(v, r, x) < |r|
  {
  }

  lemma FreshConnected(F: set<Edge>, v: seq<int>, r: seq<nat>, a: nat, b: nat)
    requires Resolved(v, r) && a < |v| && b < |v| && v[a] == v[b] == -1 && LabelsConnected(F, v, r)
    requires Connected(F, a, a) && Connected(F, b, b) && Connected(F, a, b) && Connected(F, b, a)
    ensures Resolved(v[b := |r|][a := |r|], r + [|r|]) && LabelsConnected(F, v[b := |r|][a := |r|], r + [|r|])
  {
    hide Connected;
    FreshLabels(v, r, a, b);
  }

  lemma FreshRoots(v: seq<int>, r: seq<nat>, a: nat, b: nat)
    requires Resolved(v, r) && a < |v| && b < |v| && v[a] == v[b] == -1 && RootsInUse(v, r)
    ensures Resolved(v[b := |r|][a := |r|], r + [|r|]) && RootsInUse(v[b := |r|][a := |r|], r + [|r|])
  {
    FreshLabels(v, r, a, b);
    var w, s := v[b := |r|][a := |r|], r + [|r|];
    forall i | 0 <= i < |s| && s[i] == i ensures exists x :: 0 <= x < |w| && w[x] >= 0 && Label(w, s, x) == i {
      if i < |r| {
        var x :| 0 <= x < |v| && v[x] >= 0 && Label(v, r, x) == i;
        assert Label(w, s, x) == i;
      } else {
        assert Label(w, s, a) == i;
      }
    }
  }

  lemma UntouchedEnds(E: set<Edge>, v: seq<int>, r: seq<nat>, x: nat)
    requires Consistent(E, v, r) && x < |v| && v[x] == -1
    ensures x !in TouchedSet(E, |v|)
  {
  }

  lemma PairConnected(F: set<Edge>, a: nat, b: nat)
    requires Adjacent(F, a, b)
    ensures Connected(F, a, a) && Connected(F, b, b) && Connected(F, a, b) && Connected(F, b, a)
  {
    ConnectedEdge(F, a, b);
    ConnectedEdge(F, b, a);
    ConnectedRefl(F, a);
    ConnectedRefl(F, b);
  }

  lemma JoinConnected(E: set<Edge>, F: set<Edge>, v: seq<int>, r: seq<nat>, a: nat, b: nat)
    requires Consistent(E, v, r) && NewEdge(E, F, a, b) && a < |v| && b < |v| && v[a] >= 0 && v[b] == -1
    ensures Resolved(v[b := r[v[a]]], r) && LabelsConnected(F, v[b := r[v[a]]], r)
  {
    hide Connected;
    var w := v[b := r[v[a]]];
    ConnectedGrows(E, F, v, r);
    PairConnected(F, a, b);
    forall x, y | 0 <= x < |w| && 0 <= y < |w| && w[x] >= 0 && w[y] >= 0 && Label(w, r, x) == Label(w, r, y)
      ensures Connected(F, x, y)
    {
      var x', y' := if x == b then a else x, if y == b then a else y;
      assert Label(v, r, x') == Label(v, r, y');
      ConnectedTrans(F, x, x', y') by { if x != b { ConnectedRefl(F, x); } }
      ConnectedTrans(F, x, y', y) by { if y != b { ConnectedRefl(F, y); } }
    }
  }

  /** One end new: it joins the class of the other. */
  lemma JoinClass(E: set<Edge>, F: set<Edge>, v: seq<int>, r: seq<nat>, a: nat, b: nat)
    requires Consistent(E, v, r) && NewEdge(E, F, a, b) && a < |v| && b < |v| && v[a] >= 0 && v[b] == -1
    ensures Consistent(F, v[b := r[v[a]]], r)
  {
    var w := v[b := r[v[a]]];
    assert forall x :: 0 <= x < |v| && w[x] >= 0 ==> Label(w, r, x) == Label(v, r, if x == b then a else x);
    JoinConnected(E, F, v, r, a, b);
    assert RootsInUse(w, r) by {
      forall i | 0 <= i < |r| && r[i] == i ensures exists x :: 0 <= x < |w| && w[x] >= 0 && Label(w, r, x) == i {
        var x :| 0 <= x < |v| && v[x] >= 0 && Label(v, r, x) == i;
        assert Label(w, r, x) == i;
      }
    }
    TouchedGrows(E, F, a, b, |v|);
    SubsetCard(TouchedSet(E, |v|), TouchedSet(F, |v|));
    Relabel(E, F, v, r, w, r, a, b);
  }

  /** Both ends known: their classes merge, and one end is pointed at the surviving root. */
  lemma MergeClasses(E: set<Edge>, F: set<Edge>, v: seq<int>, r: seq<nat>, a: nat, b: nat)
    requires Consistent(E, v, r) && NewEdge(E, F, a, b) && a < |v| && b < |v| && v[a] >= 0 && v[b] >= 0
    requires r[v[a]] <= r[v[b]]
    ensures Consistent(F, v[b := r[v[a]]], Merge(r, v[a], v[b]))
  {
    hide RootsInUse, LabelsConnected, EdgesLabelled, Connected;
    var w, s := v[b := r[v[a]]], Merge(r, v[a], v[b]);
    MergedLabels(v, r, a, b);
    ConnectedGrows(E, F, v, r);
    PairConnected(F, a, b);
    MergedConnected(F, v, r, a, b);
    MergedRoots(v, r, a, b);
    TouchedGrows(E, F, a, b, |v|);
    SubsetCard(TouchedSet(E, |v|), TouchedSet(F, |v|));
    Relabel(E, F, v, r, w, s, a, b);
  }

  /** How merging changes labels. */
  lemma MergedLabels(v: seq<int>, r: seq<nat>, a: nat, b: nat)
    requires Resolved(v, r) && a < |v| && b < |v| && v[a] >= 0 && v[b] >= 0 && r[v[a]] <= r[v[b]]
    ensures var w, s := v[b := r[v[a]]], Merge(r, v[a], v[b]);
            && |s| == |r| && Resolved(w, s) && (forall x :: 0 <= x < |v| ==> (w[x] >= 0 <==> v[x] >= 0))
            && forall x :: 0 <= x < |v| && v[x] >= 0 ==>
                 Label(w, s, x) == if Label(v, r, x) == r[v[b]] then r[v[a]] else Label(v, r, x)
  {
  }

  lemma MergedConnected(F: set<Edge>, v: seq<int>, r: seq<nat>, a: nat, b: nat)
    requires Resolved(v, r) && a < |v| && b < |v| && v[a] >= 0 && v[b] >= 0 && r[v[a]] <= r[v[b]]
    requires LabelsConnected(F, v, r) && Connected(F, a, b) && Connected(F, b, a)
    ensures Resolved(v[b := r[v[a]]], Merge(r, v[a], v[b]))
    ensures LabelsConnected(F, v[b := r[v[a]]], Merge(r, v[a], v[b]))
  {
    hide Connected, Merge;
    MergedLabels(v, r, a, b);
    var w, s := v[b := r[v[a]]], Merge(r, v[a], v[b]);
    forall x, y | 0 <= x < |w| && 0 <= y < |w| && w[x] >= 0 && w[y] >= 0 && Label(w, s, x) == Label(w, s, y)
      ensures Connected(F, x, y)
    {
      if Label(v, r, x) != Label(v, r, y) {
        var p, q := if Label(v, r, x) == r[v[b]] then b else a, if Label(v, r, y) == r[v[b]] then b else a;
        assert Label(v, r, x) == Label(v, r, p) && Label(v, r, y) == Label(v, r, q);
        ConnectedTrans(F, x, p, q);
        ConnectedTrans(F, x, q, y);
      }
    }
  }

  lemma MergedRoots(v: seq<int>, r: seq<nat>, a: nat, b: nat)
    requires Resolved(v, r) && a < |v| && b < |v| && v[a] >= 0 && v[b] >= 0 && r[v[a]] <= r[v[b]]
    requires RootsInUse(v, r)
    ensures Resolved(v[b := r[v[a]]], Merge(r, v[a], v[b]))
    ensures RootsInUse(v[b := r[v[a]]], Merge(r, v[a], v[b]))
  {
    MergedLabels(v, r, a, b);
    var w, s := v[b := r[v[a]]], Merge(r, v[a], v[b]);
    forall i | 0 <= i < |s| && s[i] == i ensures exists x :: 0 <= x < |w| && w[x] >= 0 && Label(w, s, x) == i {
      assert r[i] == i;
      var x :| 0 <= x < |v| && v[x] >= 0 && Label(v, r, x) == i;
      assert Label(w, s, x) == i;
    }
  }

  // ---------------------------------------------------------------- the structure

  class Wcc {
    var vCid: array<int>
    var cCid: array<int>
    var cCount: nat

    ghost predicate Shape()
      reads this, vCid, cCid
    {
      && vCid != cCid
      && cCount <= cCid.Length
      && vCid.Length == cCid.Length
      && forall i :: 0 <= i < cCount ==> 0 <= cCid[i] <= i
    }

    /** The class forest built so far. */
    ghost function Forest(): (f: seq<nat>)
      requires Shape()
      reads this, vCid, cCid
      ensures |f| == cCount && Descending(f) && forall i :: 0 <= i < cCount ==> f[i] == cCid[i]
    {
      cCid[..cCount]
    }

    ghost predicate Valid(stream: seq<Edge>)
      reads this, vCid, cCid
    {
      Shape() && Consistent(Edges(stream), vCid[..], Roots(Forest()))
    }

    constructor (n: nat)
      ensures Valid([]) && vCid.Length == n && fresh(vCid) && fresh(cCid)
    {
      vCid := new int[n](_ => -1);
      cCid := new int[n](_ => -1);
      cCount := 0;
      new;
      assert Roots(Forest()) == [];
    }

    /** The root of class x; every other node on the way is pointed at its grandparent. */
    method Find(x0: nat) returns (x: nat)
      requires Shape() && x0 < cCount
      modifies cCid
      ensures Shape() && Roots(Forest()) == old(Roots(Forest()))
      ensures x == Root(Forest(), x0) && cCid[x] == x
    {
      ghost var r := Roots(Forest());
      x := x0;
      while cCid[x] != x
        invariant Shape() && x < cCount && Roots(Forest()) == r && r[x] == r[x0]
        decreases x
      {
        ghost var f := Forest();
        var prev := x;
        x := cCid[x];
        ShortcutKeepsRoots(f, prev, f[x]);
        cCid[prev] := cCid[x];
        assert Forest() == f[prev := f[x]];
      }
      assert Root(Forest(), x0) == r[x0];
    }

    /** Classes are numbered below half the number of touched vertices, so ids stay in bounds. */
    lemma RoomForClass(stream: seq<Edge>, a: nat, b: nat)
      requires Valid(stream) && a < vCid.Length && b < vCid.Length && a != b && vCid[a] == vCid[b] == -1
      ensures cCount < cCid.Length
    {
      var T := TouchedSet(Edges(stream), vCid.Length);
      forall x | x in T ensures vCid[..][x] >= 0 {
        var w: nat :| Adjacent(Edges(stream), x, w);
      }
      RangeCard(T + {a, b}, vCid.Length);
    }

    /** Every class was opened by two new vertices. */
    lemma ClassBound(stream: seq<Edge>)
      requires Valid(stream)
      ensures 2 * cCount <= vCid.Length
    {
      RangeCard(TouchedSet(Edges(stream), vCid.Length), vCid.Length);
    }

    /** Both ends new: one fresh class for the pair. */
    method OpenClass(v0: nat, v1: nat, ghost stream: seq<Edge>)
      requires Valid(stream) && v0 < vCid.Length && v1 < vCid.Length && v0 != v1
      requires vCid[v0] == vCid[v1] == -1
      modifies this`cCount, vCid, cCid
      ensures Valid(stream + [(v0, v1)])
    {
      hide Consistent;
      ghost var v, f := vCid[..], Forest();
      RoomForClass(stream, v0, v1);
      StreamStep(stream, v0, v1);
      FreshClass(Edges(stream), Edges(stream + [(v0, v1)]), v, Roots(f), v0, v1);
      var m := cCount;
      cCount := cCount + 1;
      vCid[v1] := m;
      vCid[v0] := m;
      cCid[m] := m;
      assert Forest() == f + [m];
      AppendedRoot(f);
      assert vCid[..] == v[v1 := m][v0 := m];
    }

    /** known already has a class and newcomer has none. */
    method Join(known: nat, newcomer: nat, ghost stream: seq<Edge>, ghost e: Edge)
      requires Valid(stream) && known < vCid.Length && newcomer < vCid.Length && known != newcomer
      requires vCid[known] >= 0 && vCid[newcomer] == -1 && (e == (known, newcomer) || e == (newcomer, known))
      modifies vCid, cCid
      ensures Valid(stream + [e])
    {
      ghost var v, r := vCid[..], Roots(Forest());
      StreamStep(stream, e.0, e.1);
      JoinClass(Edges(stream), Edges(stream + [e]), v, r, known, newcomer);
      var c := Find(vCid[known]);
      vCid[newcomer] := c;
      assert vCid[..] == v[newcomer := r[v[known]]];
    }

    /** Both ends have classes; winner's root is at most loser's. */
    method Unite(winner: nat, loser: nat, low: nat, high: nat, ghost stream: seq<Edge>, ghost e: Edge)
      requires Valid(stream) && winner < vCid.Length && loser < vCid.Length && winner != loser
      requires vCid[winner] >= 0 && vCid[loser] >= 0 && (e == (winner, loser) || e == (loser, winner))
      requires low == Root(Forest(), vCid[winner]) <= high == Root(Forest(), vCid[loser])
      modifies vCid, cCid
      ensures Valid(stream + [e])
    {
      hide Merge, RootsInUse, LabelsConnected, EdgesLabelled, TouchedSet, Touched;
      ghost var v, r, c0, c1 := vCid[..], Roots(Forest()), vCid[winner], vCid[loser];
      StreamStep(stream, e.0, e.1);
      MergeClasses(Edges(stream), Edges(stream + [e]), v, r, winner, loser);
      vCid[loser] := low;
      Hook(c0, c1, high, low);
      assert vCid[..] == v[loser := r[v[winner]]];
    }

    method WccEdge(v0: nat, v1: nat, ghost stream: seq<Edge>)
      requires Valid(stream) && v0 < vCid.Length && v1 < vCid.Length
      modifies this`cCount, vCid, cCid
      ensures Valid(stream + [(v0, v1)])
    {
      if v0 == v1 {
        assert Edges(stream + [(v0, v1)]) == Edges(stream);
        return;
      }
      var c0, c1 := vCid[v0], vCid[v1];
      if c0 == -1 && c1 == -1 {
        OpenClass(v0, v1, stream);
      } else if c1 == -1 {
        Join(v0, v1, stream, (v0, v1));
      } else if c0 == -1 {
        Join(v1, v0, stream, (v0, v1));
      } else {
        ghost var r := Roots(Forest());
        var c00 := Find(c0);
        var c11 := Find(c1);
        assert c00 == r[c0] && c11 == r[c1];
        if c00 < c11 {
          Unite(v0, v1, c00, c11, stream, (v0, v1));
        } else {
          Unite(v1, v0, c11, c00, stream, (v0, v1));
        }
      }
    }

    lemma StreamStep(stream: seq<Edge>, a: nat, b: nat)
      requires a != b
      ensures Edges(stream + [(a, b)]) == Edges(stream) + {(a, b)}
    {
    }

    /** c_cid[high] = low for the two roots found: the classes of c0 and c1 become one. */
    method Hook(ghost c0: nat, ghost c1: nat, high: nat, low: nat)
      requires Shape() && c0 < cCount && c1 < cCount && low <= high < cCount
      requires cCid[high] == high && cCid[low] == low
      requires {high, low} == {Root(Forest(), c0), Root(Forest(), c1)}
      modifies cCid
      ensures Shape() && Roots(Forest()) == Merge(old(Roots(Forest())), c0, c1)
    {
      ghost var f := Forest();
      cCid[high] := low;
      assert Forest() == f[high := low];
      if low < high {
        HookMerges(f, high, low, c0, c1);
      } else {
        assert Forest() == f;
        assert Merge(Roots(f), c0, c1) == Roots(f);
      }
    }

    /** One batch of the stream on top of what was streamed before. */
    method StreamWcc(edges: seq<Edge>, ghost before: seq<Edge>)
      requires Valid(before) && forall i :: 0 <= i < |edges| ==> edges[i].0 < vCid.Length && edges[i].1 < vCid.Length
      modifies this`cCount, vCid, cCid
      ensures Valid(before + edges)
    {
      hide Consistent, Edges;
      assert before + edges[..0] == before;
      for i := 0 to |edges|
        invariant Valid(before + edges[..i])
      {
        WccEdge(edges[i].0, edges[i].1, before + edges[..i]);
        assert before + edges[..i + 1] == before + edges[..i] + [(edges[i].0, edges[i].1)];
      }
      assert edges[..|edges|] == edges;
    }

    /** The class ids that are their own root number exactly the components of the touched vertices. */
    method Summary(ghost stream: seq<Edge>) returns (count: nat)
      requires Valid(stream)
      ensures count == |Minima(Edges(stream), vCid.Length) * TouchedSet(Edges(stream), vCid.Length)|
    {
      hide Consistent, Minima, TouchedSet;
      count := 0;
      ghost var roots: set<nat> := {};
      for i := 0 to cCount
        invariant roots == set j: nat | j < i && cCid[j] == j
        invariant count == |roots|
      {
        if i == cCid[i] {
          count := count + 1;
          roots := roots + {i};
        }
      }
      RootsCountComponents(Edges(stream), vCid[..], Roots(Forest()));
      assert roots == set j: nat | j < cCount && Roots(Forest())[j] == j;
    }

    /** Two touched vertices find the same root exactly when they are connected. */
    lemma SameRootIffConnected(stream: seq<Edge>, x: nat, y: nat)
      requires Valid(stream) && x < vCid.Length && y < vCid.Length
      requires Touched(Edges(stream), x) && Touched(Edges(stream), y)
      ensures 0 <= vCid[x] < cCount && 0 <= vCid[y] < cCount
      ensures Root(Forest(), vCid[x]) == Root(Forest(), vCid[y]) <==> Connected(Edges(stream), x, y)
    {
      LabelsDecideConnection(Edges(stream), vCid[..], Roots(Forest()), x, y);
    }
  }

  lemma AppendedRoot(f: seq<nat>)
    requires Descending(f)
    ensures Descending(f + [|f|]) && Roots(f + [|f|]) == Roots(f) + [|f|]
  {
    forall x: nat | x < |f| ensures Root(f + [|f|], x) == Root(f, x) {
      AppendedRootAt(f, x);
    }
  }

  lemma {:induction false} AppendedRootAt(f: seq<nat>, x: nat)
    requires Descending(f) && x < |f|
    ensures Root(f + [|f|], x) == Root(f, x)
    decreases x
  {
    if f[x] != x {
      AppendedRootAt(f, f[x]);
    }
  }

  // ---------------------------------------------------------------- what consistency means

  lemma LabelsDecideConnection(E: set<Edge>, v: seq<int>, r: seq<nat>, x: nat, y: nat)
    requires Consistent(E, v, r) && x < |v| && y < |v| && Touched(E, x) && Touched(E, y)
    ensures v[x] >= 0 && v[y] >= 0 && (Label(v, r, x) == Label(v, r, y) <==> Connected(E, x, y))
  {
    var x', y' :| Adjacent(E, x, x') && Adjacent(E, y, y');
    if Connected(E, x, y) {
      var f := (a: nat) => if a < |v| && v[a] >= 0 then Label(v, r, a) as int else -1;
      ConnectedInvariant(E, f, x, y);
    }
  }

  lemma {:induction false} ComponentMinExists(E: set<Edge>, x: nat, y: nat) returns (m: nat)
    requires Connected(E, x, y)
    ensures ComponentMin(E, x, m) && m <= y
    decreases y
  {
    if z: nat :| z < y && Connected(E, x, z) {
      m := ComponentMinExists(E, x, z);
    } else {
      m := y;
    }
  }

  /** Connected vertices share their component minimum, which is its own minimum. */
  lemma MinOfMin(E: set<Edge>, x: nat, m: nat)
    requires ComponentMin(E, x, m)
    ensures ComponentMin(E, m, m)
  {
    ConnectedRefl(E, m);
    forall y | Connected(E, m, y) ensures m <= y {
      ConnectedTrans(E, x, m, y);
    }
  }

  lemma RootsCountComponents(E: set<Edge>, v: seq<int>, r: seq<nat>)
    requires Consistent(E, v, r)
    ensures |(set i: nat | i < |r| && r[i] == i)| == |Minima(E, |v|) * TouchedSet(E, |v|)|
  {
    var M := Minima(E, |v|) * TouchedSet(E, |v|);
    var R := set i: nat | i < |r| && r[i] == i;
    var f := (x: nat) => if x < |v| && 0 <= v[x] < |r| then Label(v, r, x) else 0;
    forall x | x in M ensures v[x] >= 0 && f(x) in R {
      LabelsDecideConnection(E, v, r, x, x);
    }
    forall x, y | x in M && y in M && f(x) == f(y) ensures x == y {
      LabelsDecideConnection(E, v, r, x, y);
      ConnectedSym(E, x, y);
    }
    forall i | i in R ensures exists x :: x in M && f(x) == i {
      var x :| 0 <= x < |v| && v[x] >= 0 && Label(v, r, x) == i;
      ConnectedRefl(E, x);
      var m := ComponentMinExists(E, x, x);
      MinOfMin(E, x, m);
      TouchedComponent(E, x, m);
      LabelsDecideConnection(E, v, r, x, m);
      assert m in M && f(m) == i;
    }
    BijectionCard(M, R, f);
  }

  lemma TouchedComponent(E: set<Edge>, x: nat, y: nat)
    requires Touched(E, x) && Connected(E, x, y)
    ensures Touched(E, y)
  {
    var f := (a: nat) => if exists w: nat :: Adjacent(E, a, w) then 1 else 0;
    forall u: nat, w: nat | (u, w) in E ensures f(u) == f(w) {
      assert Adjacent(E, u, w) && Adjacent(E, w, u);
    }
    ConnectedInvariant(E, f, x, y);
  }
}
