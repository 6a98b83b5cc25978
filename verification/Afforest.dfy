/** Afforest connected components: hook with Link, flatten with Compress, sample a few neighbours per
    vertex, then skip the vertices that already carry one chosen label. */
module Afforest {
  import opened Graphs
  import opened Forests

  /** One end of each of two trees: hooking a root merges them, a direct link shows them to be one, and the
      grandparents stand for them as well. */
  lemma PairInTrees(c: seq<nat>, u: nat, v: nat, high: nat, low: nat)
    requires Descending(c) && u < |c| && v < |c| && low < high < |c|
    requires {Root(c, high), Root(c, low)} == {Root(c, u), Root(c, v)}
    ensures c[high] < |c| && c[c[high]] < |c| && c[low] < |c|
    ensures {Root(c, c[c[high]]), Root(c, c[low])} == {Root(c, u), Root(c, v)}
    ensures c[high] == low ==> Root(c, u) == Root(c, v)
    ensures c[high] == high ==> Descending(c[high := low]) && Roots(c[high := low]) == Merge(Roots(c), u, v)
    ensures c[high] != high ==> c[c[high]] + c[low] < high + low
  {
    hide Merge, Roots;
    if c[high] == high {
      HookMerges(c, high, low, u, v);
    }
  }

  lemma RootOfLabel(c: seq<nat>, x: nat)
    requires Descending(c) && x < |c|
    ensures c[x] <= x && Root(c, c[x]) == Root(c, x)
  {
  }

  lemma StartPair(c: seq<nat>, u: nat, v: nat)
    requires Descending(c) && u < |c| && v < |c|
    ensures c[u] < |c| && c[v] < |c| && {Root(c, c[u]), Root(c, c[v])} == {Root(c, u), Root(c, v)}
    ensures c[u] == c[v] ==> Root(c, u) == Root(c, v)
  {
    hide Root, Descending;
    RootOfLabel(c, u);
    RootOfLabel(c, v);
  }

  /** Unites the trees of u and v, retrying from the grandparents while neither end is a root. */
  method Link(u: nat, v: nat, comp: array<nat>)
    requires u < comp.Length && v < comp.Length && Descending(comp[..])
    modifies comp
    ensures Descending(comp[..])
    ensures Roots(comp[..]) == Merge(Roots(old(comp[..])), u, v)
  {
    hide Merge, Roots, Root, Descending;
    ghost var c := comp[..];
    StartPair(c, u, v);
    var p1: nat, p2: nat := comp[u], comp[v];
    while p1 != p2
      invariant comp[..] == c
      invariant p1 < |c| && p2 < |c|
      invariant {Root(c, p1), Root(c, p2)} == {Root(c, u), Root(c, v)}
      invariant p1 == p2 ==> Root(c, u) == Root(c, v)
      decreases p1 + p2
    {
      var high := if p1 > p2 then p1 else p2;
      var low := p1 + p2 - high;
      PairInTrees(c, u, v, high, low);
      var pHigh := comp[high];
      if pHigh == low {
        break;
      }
      if pHigh == high {
        comp[high] := low;
        assert comp[..] == c[high := low];
        return;
      }
      p1, p2 := comp[comp[high]], comp[low];
    }
    SameTreeMerges(c, u, v);
  }

  /** Points every vertex straight at its root. */
  method Compress(comp: array<nat>)
    requires Descending(comp[..])
    modifies comp
    ensures comp[..] == Roots(old(comp[..]))
    ensures Descending(comp[..]) && Roots(comp[..]) == comp[..]
  {
    ghost var c := comp[..];
    for n := 0 to comp.Length
      invariant Descending(comp[..]) && Roots(comp[..]) == Roots(c)
      invariant forall i :: 0 <= i < n ==> comp[i] == Root(c, i)
    {
      while comp[n] != comp[comp[n]]
        invariant Descending(comp[..]) && Roots(comp[..]) == Roots(c)
        invariant forall i :: 0 <= i < n ==> comp[i] == Root(c, i)
        decreases comp[n]
      {
        ghost var s := comp[..];
        ShortcutKeepsRoots(s, n, s[s[n]]);
        comp[n] := comp[comp[n]];
        assert comp[..] == s[n := s[s[n]]];
      }
      assert Root(comp[..], n) == comp[n] == Roots(c)[n];
    }
  }

  /** The first k neighbours of u carry u's label. */
  ghost predicate LinkedTo(r: seq<nat>, neighbours: seq<nat>, u: nat, lo: nat, hi: nat) {
    u < |r| && forall i :: lo <= i < hi && i < |neighbours| ==> neighbours[i] < |r| && r[neighbours[i]] == r[u]
  }

  /** Uniting u with its next neighbour links that one too, and only coarsens. */
  lemma LinkedByMerge(r: seq<nat>, s: seq<nat>, u: nat, neighbours: seq<nat>, lo: nat, i: nat)
    requires u < |s| && i < |neighbours| && neighbours[i] < |s| && LinkedTo(s, neighbours, u, lo, i) && Coarser(r, s)
    ensures LinkedTo(Merge(s, u, neighbours[i]), neighbours, u, lo, i + 1) && Coarser(r, Merge(s, u, neighbours[i]))
  {
  }

  lemma CoarserKeepsLinks(r: seq<nat>, s: seq<nat>, neighbours: seq<nat>, u: nat, lo: nat, hi: nat)
    requires Coarser(r, s) && LinkedTo(r, neighbours, u, lo, hi)
    ensures LinkedTo(s, neighbours, u, lo, hi)
  {
  }

  /** What the last pass has established for vertex u: skipped with label c, or linked to all its
      remaining out-neighbours and all its in-neighbours. */
  ghost predicate Settled(r: seq<nat>, outs: Adj, ins: Adj, rounds: nat, c: nat, u: nat)
    requires u < |outs| == |ins|
  {
    || (u < |r| && c < |r| && r[u] == r[c])
    || (LinkedTo(r, outs[u], u, rounds, |outs[u]|) && LinkedTo(r, ins[u], u, 0, |ins[u]|))
  }

  /** Skipping one label loses no edge: the other end of a skipped vertex's edge either is skipped
      with the same label or has processed the edge itself. */
  lemma SkippingIsHarmless(r: seq<nat>, outs: Adj, ins: Adj, rounds: nat, c: nat, u: nat, v: nat)
    requires Inverse(outs, ins) && |r| == |outs| && HasEdge(outs, u, v)
    requires LinkedTo(r, outs[u], u, 0, rounds)
    requires Settled(r, outs, ins, rounds, c, u) && v < |outs| && Settled(r, outs, ins, rounds, c, v)
    ensures r[u] == r[v]
  {
    assert HasEdge(ins, v, u);
  }

  lemma FewerLinked(r: seq<nat>, neighbours: seq<nat>, u: nat, lo: nat, hi: nat, more: nat)
    requires LinkedTo(r, neighbours, u, lo, more) && hi <= more
    ensures LinkedTo(r, neighbours, u, lo, hi)
  {
  }

  lemma NothingLinked(r: seq<nat>, neighbours: seq<nat>, u: nat, lo: nat)
    requires u < |r|
    ensures Coarser(r, r) && forall hi :: 0 <= hi <= lo ==> LinkedTo(r, neighbours, u, lo, hi)
  {
  }

  /** Links u to its neighbours from position first on; returns the resulting labelling's relation to
      the one before. */
  method LinkNeighbours(ghost E: set<Edge>, u: nat, neighbours: seq<nat>, first: nat, last: nat, comp: array<nat>)
    requires u < comp.Length && Descending(comp[..]) && last <= |neighbours|
    requires forall i :: 0 <= i < |neighbours| ==> neighbours[i] < comp.Length && Adjacent(E, u, neighbours[i])
    requires Sound(E, Roots(comp[..]))
    modifies comp
    ensures Descending(comp[..]) && Sound(E, Roots(comp[..]))
    ensures Coarser(Roots(old(comp[..])), Roots(comp[..]))
    ensures LinkedTo(Roots(comp[..]), neighbours, u, first, last)
  {
    hide Merge, Sound, Descending, Coarser, LinkedTo, Roots, Connected;
    ghost var r := Roots(comp[..]);
    NothingLinked(r, neighbours, u, first);
    var i := first;
    while i < last
      invariant i <= last || i == first
      invariant Descending(comp[..]) && Sound(E, Roots(comp[..]))
      invariant Coarser(r, Roots(comp[..]))
      invariant LinkedTo(Roots(comp[..]), neighbours, u, first, i)
    {
      ghost var s := Roots(comp[..]);
      Link(u, neighbours[i], comp);
      MergeSound(E, s, u, neighbours[i]);
      LinkedByMerge(r, s, u, neighbours, first, i);
      i := i + 1;
    }
    FewerLinked(Roots(comp[..]), neighbours, u, first, last, i);
  }

  /** What every labelling of the run satisfies. */
  ghost predicate Progress(outs: Adj, comp: seq<nat>) {
    Valid(outs) && |comp| == |outs| && Descending(comp) && Sound(EdgeSet(outs), Roots(comp))
  }

  ghost predicate Sampled(outs: Adj, r: seq<nat>, rounds: nat) {
    |r| == |outs| && forall u :: 0 <= u < |outs| ==> LinkedTo(r, outs[u], u, 0, rounds)
  }

  /** One neighbour of every vertex per round: the r-th, where it exists. */
  method SampleNeighbours(outs: Adj, rounds: nat, comp: array<nat>)
    requires Progress(outs, comp[..])
    modifies comp
    ensures Progress(outs, comp[..]) && Sampled(outs, Roots(comp[..]), rounds)
  {
    for r := 0 to rounds
      invariant Progress(outs, comp[..]) && Sampled(outs, Roots(comp[..]), r)
    {
      for u := 0 to |outs|
        invariant Progress(outs, comp[..]) && Sampled(outs, Roots(comp[..]), r)
        invariant forall w :: 0 <= w < u ==> LinkedTo(Roots(comp[..]), outs[w], w, 0, r + 1)
      {
        if r < |outs[u]| {
          LinkNeighbours(EdgeSet(outs), u, outs[u], r, r + 1, comp);
        }
      }
    }
  }

  lemma CoarserKeepsSettled(r: seq<nat>, s: seq<nat>, outs: Adj, ins: Adj, rounds: nat, c: nat, u: nat)
    requires u < |outs| == |ins| && Coarser(r, s) && Settled(r, outs, ins, rounds, c, u)
    ensures Settled(s, outs, ins, rounds, c, u)
  {
  }

  /** One vertex of the last pass: skipped if it carries label c right now, else linked to its remaining
      out-neighbours and to all its in-neighbours. */
  method LinkVertex(outs: Adj, ins: Adj, rounds: nat, c: nat, u: nat, comp: array<nat>)
    requires Inverse(outs, ins) && Progress(outs, comp[..]) && u < |outs|
    modifies comp
    ensures Progress(outs, comp[..])
    ensures Coarser(Roots(old(comp[..])), Roots(comp[..]))
    ensures Settled(Roots(comp[..]), outs, ins, rounds, c, u)
  {
    if comp[u] == c {
      return;
    }
    ghost var r := Roots(comp[..]);
    LinkNeighbours(EdgeSet(outs), u, outs[u], rounds, |outs[u]|, comp);
    ghost var s := Roots(comp[..]);
    forall j | 0 <= j < |ins[u]| ensures Adjacent(EdgeSet(outs), u, ins[u][j]) {
      assert HasEdge(ins, u, ins[u][j]);
      assert HasEdge(outs, ins[u][j], u);
    }
    LinkNeighbours(EdgeSet(outs), u, ins[u], 0, |ins[u]|, comp);
    CoarserKeepsLinks(s, Roots(comp[..]), outs[u], u, rounds, |outs[u]|);
  }

  /** The last pass over all vertices. */
  method LinkRemaining(outs: Adj, ins: Adj, rounds: nat, c: nat, comp: array<nat>)
    requires Inverse(outs, ins) && Progress(outs, comp[..])
    requires Sampled(outs, Roots(comp[..]), rounds)
    modifies comp
    ensures Progress(outs, comp[..]) && Sampled(outs, Roots(comp[..]), rounds)
    ensures forall u :: 0 <= u < |outs| ==> Settled(Roots(comp[..]), outs, ins, rounds, c, u)
  {
    for u := 0 to |outs|
      invariant Progress(outs, comp[..]) && Sampled(outs, Roots(comp[..]), rounds)
      invariant forall w :: 0 <= w < u ==> Settled(Roots(comp[..]), outs, ins, rounds, c, w)
    {
      ghost var r := Roots(comp[..]);
      LinkVertex(outs, ins, rounds, c, u, comp);
      ghost var s := Roots(comp[..]);
      forall w | 0 <= w < u ensures Settled(s, outs, ins, rounds, c, w) {
        CoarserKeepsSettled(r, s, outs, ins, rounds, c, w);
      }
      forall w | 0 <= w < |outs| ensures LinkedTo(s, outs[w], w, 0, rounds) {
        CoarserKeepsLinks(r, s, outs[w], w, 0, rounds);
      }
    }
  }

  /** For every number of sampling rounds and every skipped label c, each vertex ends with the smallest
      vertex of its undirected component, and the labels are counted exactly. */
  method ConnectedComponents(outs: Adj, ins: Adj, rounds: nat, c: nat) returns (comp: array<nat>, count: nat)
    requires Inverse(outs, ins)
    ensures comp.Length == |outs|
    ensures forall x :: 0 <= x < |outs| ==> ComponentMin(EdgeSet(outs), x, comp[x])
    ensures count == |Minima(EdgeSet(outs), |outs|)|
  {
    comp := new nat[|outs|](v => v);
    forall x | 0 <= x < |outs| ensures Connected(EdgeSet(outs), x, x) { ConnectedRefl(EdgeSet(outs), x); }
    SampleNeighbours(outs, rounds, comp);
    Compress(comp);
    assert Roots(comp[..]) == comp[..];
    LinkRemaining(outs, ins, rounds, c, comp);
    SettledIsFinal(outs, ins, Roots(comp[..]), rounds, c);
    Compress(comp);
    var labels := set x | 0 <= x < |outs| :: comp[x];
    assert labels == set x | 0 <= x < |outs| :: comp[..][x];
    count := |labels|;
  }

  lemma SettledIsFinal(outs: Adj, ins: Adj, r: seq<nat>, rounds: nat, c: nat)
    requires Inverse(outs, ins) && Sampled(outs, r, rounds) && Sound(EdgeSet(outs), r)
    requires forall u :: 0 <= u < |outs| ==> Settled(r, outs, ins, rounds, c, u)
    ensures forall x :: 0 <= x < |r| ==> r[x] < |r| && ComponentMin(EdgeSet(outs), x, r[x])
    ensures (set x | 0 <= x < |r| :: r[x]) == Minima(EdgeSet(outs), |r|)
  {
    var E := EdgeSet(outs);
    forall u: nat, v: nat | (u, v) in E ensures u < |r| && v < |r| && r[u] == r[v] {
      SkippingIsHarmless(r, outs, ins, rounds, c, u, v);
    }
    forall x | 0 <= x < |r| ensures ComponentMin(E, x, r[x]) {
      LabelsAreMinima(E, r, x);
    }
    MinimaAreLabels(E, r);
  }
}
