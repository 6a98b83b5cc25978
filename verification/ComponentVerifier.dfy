/** The checker that accepts a labelling exactly when its classes are the connected components. */
module ComponentVerifier {
  import opened Graphs
  import opened Sets

  ghost predicate LabelsAreComponents(g: Adj, comp: seq<nat>) {
    |comp| == |g|
    && forall x: nat, y: nat :: x < |g| && y < |g| ==> (comp[x] == comp[y] <==> Connected(EdgeSet(g), x, y))
  }

  /** One vertex per label. */
  ghost predicate Sources(comp: seq<nat>, sources: map<nat, nat>) {
    && (forall n :: 0 <= n < |comp| ==> comp[n] in sources)
    && (forall l :: l in sources ==> sources[l] < |comp| && comp[sources[l]] == l)
  }

  /** Every neighbour of u is visited and carries u's label. */
  ghost predicate Scanned(g: Adj, comp: seq<nat>, visited: seq<bool>, u: nat, hi: nat)
    requires u < |g| == |comp| == |visited| && Valid(g)
  {
    forall j :: 0 <= j < hi && j < |g[u]| ==> visited[g[u][j]] && comp[g[u][j]] == comp[u]
  }

  ghost predicate AllScanned(g: Adj, comp: seq<nat>, visited: seq<bool>, frontier: seq<nat>, hi: nat)
    requires |g| == |comp| == |visited| && Valid(g)
  {
    forall k :: 0 <= k < hi && k < |frontier| ==>
      frontier[k] < |g| && Scanned(g, comp, visited, frontier[k], |g[frontier[k]]|)
  }

  ghost predicate Explored(g: Adj, comp: seq<nat>, sources: map<nat, nat>, visited: seq<bool>)
    requires |g| == |comp| == |visited| && Valid(g) && Sources(comp, sources)
  {
    forall w: nat :: w < |g| && visited[w] ==>
      Scanned(g, comp, visited, w, |g[w]|) && Connected(EdgeSet(g), sources[comp[w]], w)
  }

  ghost function Unmarked(visited: seq<bool>): set<nat> {
    set v: nat | v < |visited| && !visited[v]
  }

  /** The state of one label's search: before is the bitmap it started from. */
  ghost predicate Searching(g: Adj, comp: seq<nat>, tag: nat, source: nat, before: seq<bool>, visited: seq<bool>,
                            frontier: seq<nat>)
    requires |g| == |comp| == |visited| == |before|
  {
    && source in frontier
    // the vector never outgrows the |V| slots reserved for it
    && |frontier| + |Unmarked(visited)| <= |g|
    && (forall w :: w in frontier ==>
          w < |g| && visited[w] && comp[w] == tag && Connected(EdgeSet(g), source, w))
    && (forall w :: 0 <= w < |g| && before[w] ==> visited[w])
    && (forall w :: 0 <= w < |g| && visited[w] ==> before[w] || w in frontier)
  }

  ghost predicate SplitEdge(g: Adj, comp: seq<nat>) {
    exists u: nat, v: nat :: HasEdge(g, u, v) && u < |comp| && v < |comp| && comp[u] != comp[v]
  }

  lemma VisitKeepsSearching(g: Adj, comp: seq<nat>, tag: nat, source: nat, before: seq<bool>, visited: seq<bool>,
                            frontier: seq<nat>, u: nat, v: nat)
    requires |g| == |comp| == |visited| == |before| && Valid(g)
    requires Searching(g, comp, tag, source, before, visited, frontier)
    requires u in frontier && HasEdge(g, u, v) && v < |g| && comp[v] == tag && !visited[v]
    ensures Searching(g, comp, tag, source, before, visited[v := true], frontier + [v])
    ensures |Unmarked(visited[v := true])| == |Unmarked(visited)| - 1
  {
    ConnectedEdge(EdgeSet(g), u, v);
    ConnectedTrans(EdgeSet(g), source, u, v);
    assert Unmarked(visited[v := true]) == Unmarked(visited) - {v};
  }

  /** Looks at u's neighbours. A false answer means that some edge has two labels. */
  method Scan(g: Adj, comp: seq<nat>, tag: nat, ghost source: nat, ghost before: seq<bool>, u: nat,
              frontier0: seq<nat>, visited: array<bool>)
    returns (ok: bool, frontier: seq<nat>)
    requires Valid(g) && |g| == |comp| == visited.Length == |before|
    requires u in frontier0 && Searching(g, comp, tag, source, before, visited[..], frontier0)
    modifies visited
    ensures !ok ==> SplitEdge(g, comp)
    ensures ok ==> Searching(g, comp, tag, source, before, visited[..], frontier)
    ensures ok ==> Scanned(g, comp, visited[..], u, |g[u]|) && frontier0 <= frontier
    ensures forall w :: 0 <= w < |g| && old(visited[w]) ==> visited[w]
    ensures |frontier| + |Unmarked(visited[..])| == |frontier0| + old(|Unmarked(visited[..])|)
  {
    ghost var before0 := visited[..];
    frontier := frontier0;
    for j := 0 to |g[u]|
      invariant frontier0 <= frontier
      invariant Searching(g, comp, tag, source, before, visited[..], frontier)
      invariant Scanned(g, comp, visited[..], u, j)
      invariant forall w :: 0 <= w < |g| && before0[w] ==> visited[w]
      invariant |frontier| + |Unmarked(visited[..])| == |frontier0| + |Unmarked(before0)|
    {
      var v := g[u][j];
      assert HasEdge(g, u, v);
      if comp[v] != tag {
        return false, frontier;
      }
      if !visited[v] {
        ghost var s := visited[..];
        VisitKeepsSearching(g, comp, tag, source, before, s, frontier, u, v);
        visited[v] := true;
        frontier := frontier + [v];
        assert visited[..] == s[v := true];
      }
    }
    ok := true;
  }

  lemma SearchStarts(g: Adj, comp: seq<nat>, tag: nat, source: nat, before: seq<bool>)
    requires |g| == |comp| == |before| && source < |g| && comp[source] == tag
    ensures Searching(g, comp, tag, source, before, before[source := true], [source])
  {
    ConnectedRefl(EdgeSet(g), source);
    var U := Unmarked(before[source := true]);
    RangeCard(U + {source}, |g|);
  }

  lemma ScanExtends(g: Adj, comp: seq<nat>, s: seq<bool>, f: seq<nat>, visited: seq<bool>, frontier: seq<nat>, i: nat)
    requires |g| == |comp| == |visited| == |s| && Valid(g)
    requires AllScanned(g, comp, s, f, i) && f <= frontier && i < |f|
    requires forall w :: 0 <= w < |g| && s[w] ==> visited[w]
    requires f[i] < |g| && Scanned(g, comp, visited, f[i], |g[f[i]]|)
    ensures AllScanned(g, comp, visited, frontier, i + 1)
  {
    forall k | 0 <= k < i
      ensures frontier[k] < |g| && Scanned(g, comp, visited, frontier[k], |g[frontier[k]]|)
    {
      assert Scanned(g, comp, s, f[k], |g[f[k]]|);
    }
  }

  /** Searches from the source of one label. */
  method Search(g: Adj, comp: seq<nat>, ghost sources: map<nat, nat>, tag: nat, source: nat, visited: array<bool>)
    returns (ok: bool)
    requires Valid(g) && |g| == |comp| == visited.Length && Sources(comp, sources)
    requires tag in sources && source == sources[tag]
    requires Explored(g, comp, sources, visited[..])
    modifies visited
    ensures ok ==> Explored(g, comp, sources, visited[..]) && visited[source]
    ensures ok ==> forall w :: 0 <= w < |g| && old(visited[w]) ==> visited[w]
    ensures !ok ==> SplitEdge(g, comp)
  {
    ghost var before := visited[..];
    var frontier: seq<nat> := [source];
    visited[source] := true;
    assert visited[..] == before[source := true];
    SearchStarts(g, comp, tag, source, before);
    var i := 0;
    while i < |frontier|
      invariant i <= |frontier|
      invariant Searching(g, comp, tag, source, before, visited[..], frontier)
      invariant AllScanned(g, comp, visited[..], frontier, i)
      decreases |Unmarked(visited[..])| + |frontier| - i
    {
      ghost var s, f := visited[..], frontier;
      ok, frontier := Scan(g, comp, tag, source, before, frontier[i], frontier, visited);
      if !ok {
        return;
      }
      ScanExtends(g, comp, s, f, visited[..], frontier, i);
      i := i + 1;
    }
    SearchedIsExplored(g, comp, sources, tag, before, visited[..], frontier);
    ok := true;
  }

  lemma SearchedIsExplored(g: Adj, comp: seq<nat>, sources: map<nat, nat>, tag: nat, before: seq<bool>,
                           visited: seq<bool>, frontier: seq<nat>)
    requires Valid(g) && |g| == |comp| == |visited| == |before| && Sources(comp, sources) && tag in sources
    requires Explored(g, comp, sources, before)
    requires Searching(g, comp, tag, sources[tag], before, visited, frontier)
    requires AllScanned(g, comp, visited, frontier, |frontier|)
    ensures Explored(g, comp, sources, visited)
  {
    forall w: nat | w < |g| && visited[w]
      ensures Scanned(g, comp, visited, w, |g[w]|) && Connected(EdgeSet(g), sources[comp[w]], w)
    {
      if w in frontier {
        var k :| 0 <= k < |frontier| && frontier[k] == w;
      } else {
        assert Scanned(g, comp, before, w, |g[w]|);
      }
    }
  }

  /** Accepts exactly the labellings whose classes are the components, whichever order the labels are
      taken in. */
  method CCVerifier(g: Adj, comp: seq<nat>) returns (ok: bool)
    requires Valid(g) && Symmetric(g) && |comp| == |g|
    ensures ok <==> LabelsAreComponents(g, comp)
  {
    var sources: map<nat, nat> := map[];
    for n := 0 to |g|
      invariant forall i :: 0 <= i < n ==> comp[i] in sources
      invariant forall l :: l in sources ==> sources[l] < |g| && comp[sources[l]] == l
    {
      sources := sources[comp[n] := n];
    }
    var visited := new bool[|g|](_ => false);
    var labels := sources.Keys;
    while labels != {}
      invariant labels <= sources.Keys
      invariant Explored(g, comp, sources, visited[..])
      invariant forall l :: l in sources && l !in labels ==> visited[sources[l]]
      decreases labels
    {
      var tag :| tag in labels;
      labels := labels - {tag};
      ok := Search(g, comp, sources, tag, sources[tag], visited);
      if !ok {
        SplitEdgeRefutes(g, comp);
        return;
      }
    }
    for n := 0 to |g|
      invariant forall i :: 0 <= i < n ==> visited[i]
    {
      if !visited[n] {
        UnreachedRefutes(g, comp, sources, visited[..], n);
        return false;
      }
    }
    ExploredIsCorrect(g, comp, sources, visited[..]);
    ok := true;
  }

  lemma SplitEdgeRefutes(g: Adj, comp: seq<nat>)
    requires Valid(g) && |comp| == |g|
    requires SplitEdge(g, comp)
    ensures !LabelsAreComponents(g, comp)
  {
    var u: nat, v: nat :| HasEdge(g, u, v) && v < |comp| && comp[u] != comp[v];
    ConnectedEdge(EdgeSet(g), u, v);
  }

  lemma UnreachedRefutes(g: Adj, comp: seq<nat>, sources: map<nat, nat>, visited: seq<bool>, n: nat)
    requires Valid(g) && Symmetric(g) && |g| == |comp| == |visited| && Sources(comp, sources)
    requires Explored(g, comp, sources, visited) && n < |g| && !visited[n] && visited[sources[comp[n]]]
    ensures !LabelsAreComponents(g, comp)
  {
    if LabelsAreComponents(g, comp) {
      var f := (v: nat) => if v < |g| && visited[v] then 1 else 0;
      forall u: nat, v: nat | (u, v) in EdgeSet(g) ensures f(u) == f(v) {
        assert HasEdge(g, u, v) && HasEdge(g, v, u);
        assert visited[u] ==> Scanned(g, comp, visited, u, |g[u]|);
        assert visited[v] ==> Scanned(g, comp, visited, v, |g[v]|);
      }
      ConnectedInvariant(EdgeSet(g), f, sources[comp[n]], n);
    }
  }

  lemma ExploredIsCorrect(g: Adj, comp: seq<nat>, sources: map<nat, nat>, visited: seq<bool>)
    requires Valid(g) && |g| == |comp| == |visited| && Sources(comp, sources)
    requires Explored(g, comp, sources, visited) && forall w :: 0 <= w < |g| ==> visited[w]
    ensures LabelsAreComponents(g, comp)
  {
    var E := EdgeSet(g);
    forall x: nat, y: nat | x < |g| && y < |g| ensures comp[x] == comp[y] <==> Connected(E, x, y) {
      if comp[x] == comp[y] {
        ConnectedSym(E, sources[comp[x]], x);
        ConnectedTrans(E, x, sources[comp[x]], y);
      }
      if Connected(E, x, y) {
        forall u: nat, v: nat | (u, v) in E ensures u < |g| && v < |g| && comp[u] == comp[v] {
          assert Scanned(g, comp, visited, u, |g[u]|);
        }
        ConnectedInvariant(E, (v: nat) => if v < |g| then comp[v] as int else -1, x, y);
      }
    }
  }
}
