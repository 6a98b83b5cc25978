/** Parent arrays whose links never point upwards: the forests that the connectivity kernels hook
    and compress in place. */
module Forests {
  import opened Graphs

  predicate Descending(c: seq<nat>) {
    forall i :: 0 <= i < |c| ==> c[i] <= i
  }

  /** The label of i; an index outside the array, which no run reads, stands for itself. */
  function Get(c: seq<nat>, i: nat): nat {
    if i < |c| then c[i] else i
  }

  ghost function Root(c: seq<nat>, x: nat): (r: nat)
    requires Descending(c) && x < |c|
    ensures r <= x && c[r] == r
    decreases x
  {
    if c[x] == x then x else Root(c, c[x])
  }

  ghost function Roots(c: seq<nat>): (r: seq<nat>)
    requires Descending(c)
    ensures |r| == |c| && forall x :: 0 <= x < |c| ==> r[x] == Root(c, x)
  {
    seq(|c|, x requires 0 <= x < |c| => Root(c, x))
  }

  /** The labelling after the classes of u and v are united under the smaller label. */
  ghost function Merge(r: seq<nat>, u: nat, v: nat): (m: seq<nat>)
    requires u < |r| && v < |r|
    ensures |m| == |r|
  {
    var low, high := if r[u] <= r[v] then r[u] else r[v], if r[u] <= r[v] then r[v] else r[u];
    seq(|r|, x requires 0 <= x < |r| => if r[x] == high then low else r[x])
  }

  /** Hooking root h below l moves exactly h's tree under l's root. */
  lemma {:induction false} HookRoot(c: seq<nat>, h: nat, l: nat, x: nat)
    requires Descending(c) && l < h < |c| && c[h] == h && x < |c|
    ensures Descending(c[h := l])
    ensures Root(c[h := l], x) == if Root(c, x) == h then Root(c, l) else Root(c, x)
    decreases x
  {
    if x == h {
      HookRoot(c, h, l, l);
    } else if c[x] != x {
      HookRoot(c, h, l, c[x]);
    }
  }

  /** Moving a link of x to any node of its own tree keeps every root. */
  lemma {:induction false} ShortcutRoot(c: seq<nat>, x: nat, a: nat, y: nat)
    requires Descending(c) && x < |c| && a < x && y < |c| && Root(c, a) == Root(c, x)
    ensures Descending(c[x := a])
    ensures Root(c[x := a], y) == Root(c, y)
    decreases y
  {
    if y == x {
      ShortcutRoot(c, x, a, a);
    } else if c[y] != y {
      ShortcutRoot(c, x, a, c[y]);
    }
  }

  lemma SameTreeMerges(c: seq<nat>, u: nat, v: nat)
    requires Descending(c) && u < |c| && v < |c| && Root(c, u) == Root(c, v)
    ensures Merge(Roots(c), u, v) == Roots(c)
  {
  }

  lemma HookMerges(c: seq<nat>, h: nat, l: nat, u: nat, v: nat)
    requires Descending(c) && l < h < |c| && c[h] == h && u < |c| && v < |c|
    requires (Root(c, u), Root(c, v)) == (h, Root(c, l)) || (Root(c, u), Root(c, v)) == (Root(c, l), h)
    ensures Descending(c[h := l]) && Roots(c[h := l]) == Merge(Roots(c), u, v)
  {
    forall x | 0 <= x < |c|
      ensures Descending(c[h := l]) && Root(c[h := l], x) == Merge(Roots(c), u, v)[x]
    {
      HookRoot(c, h, l, x);
    }
    assert |Roots(c[h := l])| == |Merge(Roots(c), u, v)|;
  }

  lemma ShortcutKeepsRoots(c: seq<nat>, x: nat, a: nat)
    requires Descending(c) && x < |c| && a < x && Root(c, a) == Root(c, x)
    ensures Descending(c[x := a]) && Roots(c[x := a]) == Roots(c)
  {
    forall y | 0 <= y < |c| ensures Descending(c[x := a]) && Root(c[x := a], y) == Root(c, y) {
      ShortcutRoot(c, x, a, y);
    }
  }

  // ---------------------------------------------------------------- labellings against a graph

  /** Labels stay inside the component of their vertex and never exceed it. */
  ghost predicate Sound(E: set<Edge>, r: seq<nat>) {
    forall x :: 0 <= x < |r| ==> r[x] <= x && Connected(E, x, r[x])
  }

  lemma MergeSound(E: set<Edge>, r: seq<nat>, u: nat, v: nat)
    requires Sound(E, r) && u < |r| && v < |r| && Adjacent(E, u, v)
    ensures Sound(E, Merge(r, u, v))
  {
    ConnectedEdge(E, u, v);
    ConnectedSym(E, u, r[u]);
    ConnectedSym(E, v, r[v]);
    ConnectedTrans(E, r[u], u, v);
    ConnectedTrans(E, r[u], v, r[v]);
    ConnectedSym(E, r[u], r[v]);
    var m := Merge(r, u, v);
    forall x | 0 <= x < |r| ensures m[x] <= x && Connected(E, x, m[x]) {
      if m[x] != r[x] {
        ConnectedTrans(E, x, r[x], m[x]);
      }
    }
  }

  /** Every class of r is inside one class of s. */
  ghost predicate Coarser(r: seq<nat>, s: seq<nat>) {
    |r| == |s| && forall x, y :: 0 <= x < |r| && 0 <= y < |r| && r[x] == r[y] ==> s[x] == s[y]
  }

  /** The vertices that are the smallest of their component. */
  ghost function Minima(E: set<Edge>, n: nat): set<nat> {
    set x: nat | x < n && ComponentMin(E, x, x)
  }

  /** The distinct values among component minima are the component representatives. */
  lemma MinimaAreLabels(E: set<Edge>, c: seq<nat>)
    requires forall x :: 0 <= x < |c| ==> c[x] < |c| && ComponentMin(E, x, c[x])
    ensures (set x | 0 <= x < |c| :: c[x]) == Minima(E, |c|)
  {
    forall x | 0 <= x < |c| ensures ComponentMin(E, c[x], c[x]) {
      ConnectedRefl(E, c[x]);
      forall y | Connected(E, c[x], y) ensures c[x] <= y {
        ConnectedTrans(E, x, c[x], y);
      }
    }
    forall m | m in Minima(E, |c|) ensures c[m] == m {
      ConnectedRefl(E, m);
    }
  }
}
