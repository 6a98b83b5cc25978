/** Betweenness on top of the racing search: whatever the interleaving of its levels, the backward pass and the
    normalization find what they need. */
module BrandesRuns {
  import opened Graphs
  import opened PathCounting
  import opened EdgeNumbering
  import opened ForwardSearch
  import opened Brandes
  import ForwardRuns

  /** One racing search from a source: its arrays after each level, and its windows. */
  datatype Run = Run(source: nat, waves: seq<Wave>, windows: seq<seq<nat>>)

  /** A whole search, from fresh arrays to an empty window, each level in some interleaving. */
  ghost predicate Complete(g: Adj, prefix: seq<nat>, r: Run) {
    && r.source < |g| && ForwardRuns.Search(g, prefix, r.waves, r.windows)
    && r.windows[0] == [r.source] && r.windows[|r.windows| - 1] == []
    && ForwardRuns.Fresh(g, prefix, r.source, r.waves[0])
  }

  /** What the search leaves in the arrays is what the backward pass asks for. */
  lemma SearchFeedsBackward(g: Adj, prefix: seq<nat>, r: Run)
    requires Valid(g) && EdgeIds(g, prefix) && Complete(g, prefix, r)
    ensures var w, dist := r.waves[|r.waves| - 1], Dists(g, r.source);
            && Forward(g, prefix, r.source, dist, w.counts, w.succ)
            && Slices(dist, ForwardRuns.Queue(r.windows), ForwardRuns.DepthIndex(r.windows))
            && |ForwardRuns.Queue(r.windows)| <= |g|
  {
    hide Slices, PathCount, OneDown, Dists, ForwardRuns.Turn, ForwardRuns.Queue, ForwardRuns.DepthIndex;
    ForwardRuns.AnyInterleavingCountsPaths(g, prefix, r.source, r.waves, r.windows);
    DistsHaveShape(g, r.source);
    ForwardRuns.SuccLength(g, prefix, r.waves, r.windows, |r.waves| - 1);
  }

  /** The queue's buffer and the arrays hold what the search left, and the backward pass runs on them. */
  method AddRun(g: Adj, prefix: seq<nat>, ghost r: Run, counts: array<nat>, succ: array<bool>, order: array<nat>,
                depthIndex: seq<nat>, scores: array<real>)
    requires Valid(g) && EdgeIds(g, prefix) && Complete(g, prefix, r) && scores.Length == |g|
    requires var w := r.waves[|r.waves| - 1]; counts[..] == w.counts && succ[..] == w.succ
    requires ForwardRuns.Queue(r.windows) <= order[..] && depthIndex == ForwardRuns.DepthIndex(r.windows)
    requires scores as object != order && scores as object != counts && scores as object != succ
    modifies scores
    ensures Added(g, r.source, old(scores[..]), scores[..])
  {
    hide Slices, Forward, Dependency, Dists, Complete;
    SearchFeedsBackward(g, prefix, r);
    ghost var q := ForwardRuns.Queue(r.windows);
    Backward(g, prefix, counts, succ, order, depthIndex, scores, r.source, Dists(g, r.source), q);
  }

  function Sources(runs: seq<Run>): seq<nat> {
    seq(|runs|, i requires 0 <= i < |runs| => runs[i].source)
  }

  /** The whole kernel over racing searches: one per source, each in its own interleaving. The scores are the
      normalized dependencies, and numbers exactly if some source has an edge to another vertex. */
  method BetweennessCentrality(g: Adj, prefix: seq<nat>, runs: seq<Run>)
    returns (scores: array<real>, defined: bool)
    requires Valid(g) && EdgeIds(g, prefix) && forall i :: 0 <= i < |runs| ==> Complete(g, prefix, runs[i])
    ensures defined <==> SomeLeaves(g, Sources(runs))
    ensures defined ==> Normalized(g, Sources(runs), scores[..])
  {
    hide Dependency, Dists, Total, AreTotals, Added, Normalized, AnyTotal, SomeLeaves, EdgeIds, Forward, Slices,
      ForwardRuns.Search, ForwardRuns.Fresh;
    var sources := Sources(runs);
    scores := new real[|g|](_ => 0.0);
    NoTotals(g, scores[..]);
    assert sources[..0] == [] && sources[..|sources|] == sources;
    for i := 0 to |runs|
      invariant AreTotals(g, sources[..i], scores[..])
    {
      SearchFeedsBackward(g, prefix, runs[i]);
      RunShape(g, prefix, runs[i]);
      ghost var before := scores[..];
      var w, q := runs[i].waves[|runs[i].waves| - 1], ForwardRuns.Queue(runs[i].windows);
      var counts := FromSeq(w.counts);
      var succ := FromSeq(w.succ);
      var order := FromSeq(q);
      assert order[..] == q && scores[..] == before;
      AddRun(g, prefix, runs[i], counts, succ, order, ForwardRuns.DepthIndex(runs[i].windows), scores);
      NextTotals(g, sources, i, before, scores[..]);
    }
    defined := Normalize(g, sources, scores);
    AnyTotalIffSomeLeaves(g, sources);
  }

  lemma RunShape(g: Adj, prefix: seq<nat>, r: Run)
    requires Complete(g, prefix, r)
    ensures r.source < |g| && |r.waves| > 0
  {
  }

  /** An array with the given contents. */
  method FromSeq<T>(q: seq<T>) returns (a: array<T>)
    ensures fresh(a) && a[..] == q
  {
    a := new T[|q|](i requires 0 <= i < |q| => q[i]);
  }
}
