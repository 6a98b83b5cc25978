/** Breadth-first levels kept up to date while batches of edges arrive: only vertices whose degree
    changed, and vertices whose level then improved, are looked at again. */
module StreamBfs {
  import opened Graphs
  import opened Sums

  /** Levels are bytes; 255 stands for no level below 255. */
  type Level = x: int | 0 <= x <= 255

  /** Batches only append to out-lists. */
  predicate Extends(g: Adj, h: Adj) {
    |g| == |h| && forall v :: 0 <= v < |g| ==> g[v] <= h[v]
  }

  /** st holds min(hop distance, 255). */
  ghost predicate CappedLevels(g: Adj, root: nat, st: seq<Level>) {
    && |st| == |g|
    && forall v: nat :: v < |g| ==>
         if st[v] < 255 then IsDist(g, root, v, st[v]) else forall k: nat :: k < 255 ==> !Reach(g, root, v, k)
  }

  // ---------------------------------------------------------------- the invariant of every sweep

  /** A level is the length of some walk. */
  ghost predicate Sound(g: Adj, root: nat, st: seq<Level>) {
    |st| == |g| && root < |g| && st[root] == 0 && forall v: nat :: v < |g| && st[v] < 255 ==> Reach(g, root, v, st[v])
  }

  /** The first n out-neighbours of u are at most one level further. */
  ghost predicate Relaxed(g: Adj, st: seq<Level>, u: nat, n: nat) {
    && u < |g| == |st| && n <= |g[u]|
    && forall j :: 0 <= j < n ==> g[u][j] < |st| && st[g[u][j]] as int <= st[u] as int + 1
  }

  /** Every vertex with a level that is not marked has no neighbour left to improve. */
  ghost predicate Settled(g: Adj, st: seq<Level>, changed: seq<bool>) {
    |st| == |changed| == |g| && forall u: nat :: u < |g| && !changed[u] && st[u] < 255 ==> Relaxed(g, st, u, |g[u]|)
  }

  /** No vertex with a level is marked. */
  ghost predicate Quiet(st: seq<Level>, changed: seq<bool>, n: nat) {
    n <= |st| == |changed| && forall u :: 0 <= u < n ==> !(changed[u] && st[u] < 255)
  }

  lemma {:induction false} ReachMono(g: Adj, h: Adj, root: nat, v: nat, k: nat)
    requires Extends(g, h) && Reach(g, root, v, k)
    ensures Reach(h, root, v, k)
    decreases k
  {
    if k > 0 {
      var u: nat :| Reach(g, root, u, k - 1) && HasEdge(g, u, v);
      ReachMono(g, h, root, u, k - 1);
      assert HasEdge(h, u, v);
    }
  }

  /** Levels stay sound when edges are added. */
  lemma SoundMono(g: Adj, h: Adj, root: nat, st: seq<Level>)
    requires Extends(g, h) && Sound(g, root, st)
    ensures Sound(h, root, st)
  {
    forall v: nat | v < |h| && st[v] < 255 ensures Reach(h, root, v, st[v]) {
      ReachMono(g, h, root, v, st[v]);
    }
  }

  /** Marking exactly the vertices whose degree changed is enough. */
  lemma MarksSuffice(g: Adj, h: Adj, st: seq<Level>, before: seq<bool>, changed: seq<bool>)
    requires Extends(g, h) && Settled(g, st, before) && Quiet(st, before, |st|)
    requires |changed| == |h| && forall v :: 0 <= v < |h| ==> (changed[v] <==> |g[v]| != |h[v]|)
    ensures Settled(h, st, changed)
  {
    forall u: nat | u < |h| && !changed[u] && st[u] < 255 ensures Relaxed(h, st, u, |h[u]|) {
      assert g[u] == h[u];
      assert Relaxed(g, st, u, |g[u]|);
    }
  }

  lemma {:induction false} SettledReaches(g: Adj, root: nat, st: seq<Level>, changed: seq<bool>, v: nat, k: nat)
    requires Valid(g) && Sound(g, root, st) && Settled(g, st, changed) && Quiet(st, changed, |st|)
    requires Reach(g, root, v, k) && k < 255
    ensures v < |g| && st[v] <= k
    decreases k
  {
    if k > 0 {
      var u: nat :| Reach(g, root, u, k - 1) && HasEdge(g, u, v);
      SettledReaches(g, root, st, changed, u, k - 1);
      assert Relaxed(g, st, u, |g[u]|);
    }
  }

  /** When a sweep finds nothing to improve, the levels are the capped distances. */
  lemma SettledIsExact(g: Adj, root: nat, st: seq<Level>, changed: seq<bool>)
    requires Valid(g) && Sound(g, root, st) && Settled(g, st, changed) && Quiet(st, changed, |st|)
    ensures CappedLevels(g, root, st)
  {
    forall v: nat, k: nat | v < |g| && k < st[v] && k < 255 ensures !Reach(g, root, v, k) {
      if Reach(g, root, v, k) {
        SettledReaches(g, root, st, changed, v, k);
      }
    }
  }

  // ---------------------------------------------------------------- one improvement

  lemma SoundShape(g: Adj, root: nat, st: seq<Level>)
    requires Sound(g, root, st)
    ensures |st| == |g|
  {
  }

  lemma RelaxedShape(g: Adj, st: seq<Level>, u: nat, n: nat)
    requires Relaxed(g, st, u, n)
    ensures u < |g|
  {
  }

  lemma ImproveSound(g: Adj, root: nat, st: seq<Level>, v: nat, i: nat)
    requires Valid(g) && Sound(g, root, st) && v < |g| && i < |g[v]| && st[g[v][i]] as int > st[v] as int + 1
    ensures g[v][i] != v && Sound(g, root, st[g[v][i] := st[v] + 1])
  {
    ReachStep(g, root, v, g[v][i], st[v]);
  }

  /** A lower level of another vertex leaves what is relaxed relaxed. */
  lemma LowerKeepsRelaxed(g: Adj, st: seq<Level>, u: nat, n: nat, w: nat, x: Level)
    requires Relaxed(g, st, u, n) && w < |st| && x < st[w] && u != w
    ensures Relaxed(g, st[w := x], u, n)
  {
  }

  lemma NextRelaxed(g: Adj, st: seq<Level>, v: nat, i: nat)
    requires Relaxed(g, st, v, i) && i < |g[v]| && g[v][i] < |st| && st[g[v][i]] as int <= st[v] as int + 1
    ensures Relaxed(g, st, v, i + 1)
  {
  }

  /** Lowering a level to one more than a neighbour's, and marking it, keeps what the sweep needs. */
  lemma Improve(g: Adj, root: nat, st: seq<Level>, changed: seq<bool>, v: nat, i: nat)
    requires Valid(g) && Sound(g, root, st) && |changed| == |g| && Relaxed(g, st, v, i) && i < |g[v]|
    requires forall u: nat :: u < |g| && u != v && !changed[u] && st[u] < 255 ==> Relaxed(g, st, u, |g[u]|)
    requires st[g[v][i]] as int > st[v] as int + 1
    ensures var w := g[v][i];
            var st' := st[w := st[v] + 1];
            && Sound(g, root, st') && w != v && Relaxed(g, st', v, i + 1)
            && (forall u: nat ::
                  u < |g| && u != v && !changed[w := true][u] && st'[u] < 255 ==> Relaxed(g, st', u, |g[u]|))
            && SumSeq(st') < SumSeq(st)
  {
    hide Sound, Relaxed, SumSeq;
    SoundShape(g, root, st);
    RelaxedShape(g, st, v, i);
    var w := g[v][i];
    var st' := st[w := st[v] + 1];
    ImproveSound(g, root, st, v, i);
    SumUpdate(st, w, st[v] + 1);
    forall u: nat | u < |g| && u != v && !changed[w := true][u] && st'[u] < 255 ensures Relaxed(g, st', u, |g[u]|) {
      assert Relaxed(g, st, u, |g[u]|);
      LowerKeepsRelaxed(g, st, u, |g[u]|, w, st[v] + 1);
    }
    LowerKeepsRelaxed(g, st, v, i, w, st[v] + 1);
    NextRelaxed(g, st', v, i);
  }

  // ---------------------------------------------------------------- the program

  /** Takes the degrees of the new snapshot and marks the vertices whose degree is different. */
  method UpdateView(g: Adj, degree: array<nat>, changed: array<bool>)
    requires degree.Length == changed.Length == |g|
    modifies degree, changed
    ensures forall v :: 0 <= v < |g| ==> degree[v] == |g[v]| && (changed[v] <==> old(degree[v]) != |g[v]|)
  {
    for v := 0 to |g|
      invariant forall u :: 0 <= u < v ==> degree[u] == |g[u]| && (changed[u] <==> old(degree[u]) != |g[u]|)
      invariant forall u :: v <= u < |g| ==> degree[u] == old(degree[u])
    {
      var nebrCount := |g[v]|;
      if degree[v] != nebrCount {
        degree[v] := nebrCount;
        changed[v] := true;
      } else {
        changed[v] := false;
      }
    }
  }

  /** Offers one vertex's level to its out-neighbours; returns how many improved. */
  method Relax(g: Adj, root: nat, v: nat, nebrCount: nat, status: array<Level>, changed: array<bool>)
    returns (improved: nat)
    requires Valid(g) && v < |g| && nebrCount == |g[v]| && status.Length == changed.Length == |g|
    requires Sound(g, root, status[..]) && status[v] < 255 && !changed[v]
    requires forall u: nat ::
      u < |g| && u != v && !changed[..][u] && status[..][u] < 255 ==> Relaxed(g, status[..], u, |g[u]|)
    modifies status, changed
    ensures Sound(g, root, status[..]) && Settled(g, status[..], changed[..])
    ensures SumSeq(status[..]) + improved <= SumSeq(old(status[..]))
    ensures improved == 0 ==> status[..] == old(status[..]) && changed[..] == old(changed[..])
    ensures !changed[v]
  {
    hide Sound, SumSeq;
    improved := 0;
    var level := status[v];
    for i := 0 to nebrCount
      invariant Sound(g, root, status[..]) && status[v] == level && !changed[v]
      invariant Relaxed(g, status[..], v, i)
      invariant forall u: nat ::
        u < |g| && u != v && !changed[..][u] && status[..][u] < 255 ==> Relaxed(g, status[..], u, |g[u]|)
      invariant SumSeq(status[..]) + improved <= SumSeq(old(status[..]))
      invariant improved == 0 ==> status[..] == old(status[..]) && changed[..] == old(changed[..])
    {
      var sid := g[v][i];
      ghost var st, ch := status[..], changed[..];
      if status[sid] > level + 1 {
        Improve(g, root, st, ch, v, i);
        status[sid] := level + 1;
        changed[sid] := true;
        improved := improved + 1;
        assert status[..] == st[sid := level + 1] && changed[..] == ch[sid := true];
      }
    }
  }

  /** One pass over all vertices in order. Every pass that improves anything lowers the sum of levels. */
  method Sweep(g: Adj, root: nat, degree: array<nat>, status: array<Level>, changed: array<bool>)
    returns (frontier: nat)
    requires Valid(g) && degree.Length == status.Length == changed.Length == |g|
    requires forall v :: 0 <= v < |g| ==> degree[v] == |g[v]|
    requires Sound(g, root, status[..]) && Settled(g, status[..], changed[..])
    modifies status, changed
    ensures Sound(g, root, status[..]) && Settled(g, status[..], changed[..])
    ensures SumSeq(status[..]) + frontier <= SumSeq(old(status[..]))
    ensures frontier == 0 ==> status[..] == old(status[..]) && Quiet(status[..], changed[..], |g|)
  {
    hide Sound, SumSeq, Relaxed;
    frontier := 0;
    for v := 0 to |g|
      invariant Sound(g, root, status[..]) && Settled(g, status[..], changed[..])
      invariant SumSeq(status[..]) + frontier <= SumSeq(old(status[..]))
      invariant frontier == 0 ==> status[..] == old(status[..]) && Quiet(status[..], changed[..], v)
    {
      if !changed[v] || status[v] == 255 {
        continue;
      }
      ghost var ch := changed[..];
      changed[v] := false;
      assert changed[..] == ch[v := false];
      var nebrCount := degree[v];
      if nebrCount == 0 {
        NothingToRelax(g, status[..], v);
        continue;
      }
      var improved := Relax(g, root, v, nebrCount, status, changed);
      frontier := frontier + improved;
    }
  }

  lemma NothingToRelax(g: Adj, st: seq<Level>, v: nat)
    requires v < |g| == |st| && g[v] == []
    ensures Relaxed(g, st, v, |g[v]|)
  {
  }

  /** Sweeps until nothing improves. */
  method Settle(g: Adj, root: nat, degree: array<nat>, status: array<Level>, changed: array<bool>)
    requires Valid(g) && degree.Length == status.Length == changed.Length == |g|
    requires forall v :: 0 <= v < |g| ==> degree[v] == |g[v]|
    requires Sound(g, root, status[..]) && Settled(g, status[..], changed[..])
    modifies status, changed
    ensures CappedLevels(g, root, status[..])
    ensures Sound(g, root, status[..]) && Settled(g, status[..], changed[..]) && Quiet(status[..], changed[..], |g|)
  {
    while true
      invariant Sound(g, root, status[..]) && Settled(g, status[..], changed[..])
      decreases SumSeq(status[..])
    {
      var frontier := Sweep(g, root, degree, status, changed);
      if frontier == 0 {
        break;
      }
    }
    SettledIsExact(g, root, status[..], changed[..]);
  }

  lemma NoEdgesYet(g: Adj, root: nat, st: seq<Level>, changed: seq<bool>)
    requires root < |g| == |st| == |changed| && forall v :: 0 <= v < |g| ==> g[v] == [] && !changed[v]
    requires forall v :: 0 <= v < |g| ==> st[v] == if v == root then 0 else 255
    ensures Sound(g, root, st) && Settled(g, st, changed) && Quiet(st, changed, |st|)
  {
  }

  /** Levels after every batch of edges; the graph starts without edges. */
  method StreamSerialBfs(graphs: seq<Adj>, count: nat, root: nat)
    returns (status: array<Level>, ghost after: seq<seq<Level>>)
    requires root < count && graphs != []
    requires forall b :: 0 <= b < |graphs| ==> Valid(graphs[b]) && |graphs[b]| == count
    requires forall b :: 0 < b < |graphs| ==> Extends(graphs[b - 1], graphs[b])
    ensures CappedLevels(graphs[|graphs| - 1], root, status[..])
    ensures |after| == |graphs| && after[|graphs| - 1] == status[..]
    ensures forall b :: 0 <= b < |graphs| ==> CappedLevels(graphs[b], root, after[b])
  {
    hide Sound, Settled, Quiet, CappedLevels;
    after := [];
    status := new Level[count](_ => 255);
    status[root] := 0;
    var degree := new nat[count](_ => 0);
    var changed := new bool[count](_ => false);
    ghost var g: Adj := seq(count, _ => []);
    assert Extends(g, graphs[0]);
    NoEdgesYet(g, root, status[..], changed[..]);
    for b := 0 to |graphs|
      invariant |g| == count && (b < |graphs| ==> Extends(g, graphs[b]))
      invariant forall v :: 0 <= v < count ==> degree[v] == |g[v]|
      invariant Sound(g, root, status[..]) && Settled(g, status[..], changed[..])
        && Quiet(status[..], changed[..], count)
      invariant |after| == b && (b > 0 ==> after[b - 1] == status[..])
      invariant forall a :: 0 <= a < b ==> CappedLevels(graphs[a], root, after[a])
    {
      var h := graphs[b];
      ghost var before := changed[..];
      UpdateView(h, degree, changed);
      SoundMono(g, h, root, status[..]);
      MarksSuffice(g, h, status[..], before, changed[..]);
      Settle(h, root, degree, status, changed);
      after := after + [status[..]];
      g := h;
    }
  }
}
