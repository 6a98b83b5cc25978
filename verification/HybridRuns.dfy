/** The direction-optimizing search with its races: any sequence of top-down steps, each in any interleaving, and
    bottom-up phases of any length. */
module HybridRuns {
  import opened Graphs
  import opened Multisets
  import opened BfsLevels
  import opened DirectionBfs
  import TopDownRuns

  /** Between two turns of the search: the parents, the queue's window, and the front bits, old ones included. */
  datatype View = View(parent: seq<int>, window: seq<nat>, front: seq<bool>)

  /** Everything up to level d is visited, the window lists level d, and no front bit does harm. */
  ghost predicate AtView(g: Adj, root: nat, s: View, d: nat) {
    SearchedTo(g, root, s.parent, d) && ListsLevel(g, root, s.window, d) && FrontHarmless(g, root, s.parent, s.front, d)
  }

  // ---------------------------------------------------------------- top-down

  /** One racing top-down step; the next window is what was pushed, in the order the buffers' flushes left. */
  ghost predicate TopDownTurn(g: Adj, s: View, s': View) {
    s'.front == s.front &&
    exists pushed :: TopDownRuns.Expands(g, s.parent, s.window, s'.parent, pushed) && Permuted(pushed, s'.window)
  }

  lemma SameLevel(g: Adj, root: nat, pushed: seq<nat>, window: seq<nat>, d: nat)
    requires ListsLevel(g, root, pushed, d) && Permuted(pushed, window)
    ensures ListsLevel(g, root, window, d)
  {
    forall v: nat ensures v in window <==> IsDist(g, root, v, d) {
      assert v in window <==> v in multiset(window);
      assert v in pushed <==> v in multiset(pushed);
    }
  }

  lemma TopDownKeeps(g: Adj, root: nat, s: View, s': View, d: nat)
    requires AtView(g, root, s, d) && TopDownTurn(g, s, s')
    ensures AtView(g, root, s', d + 1)
  {
    hide SearchedTo, ListsLevel, FrontHarmless;
    var pushed :| TopDownRuns.Expands(g, s.parent, s.window, s'.parent, pushed) && Permuted(pushed, s'.window);
    TopDownRuns.NothingQueued(g, root, d);
    TopDownRuns.ExpandedExactly(g, root, d, s.parent, s.window, s'.parent, pushed, []);
    SameLevel(g, root, pushed, s'.window, d + 1);
    StaleBitsAreHarmless(g, root, s.parent, s'.parent, s.front, d);
  }

  // ---------------------------------------------------------------- bottom-up

  /** A phase: the window is added to the bits, at least one step is taken, and the last bits are the next
      window. */
  ghost predicate BottomUpTurn(g: Adj, ins: Adj, s: View, s': View) {
    exists parents: seq<seq<int>>, bits: seq<seq<bool>> :: Phase(ins, s, s', parents, bits)
  }

  ghost predicate Phase(ins: Adj, s: View, s': View, parents: seq<seq<int>>, bits: seq<seq<bool>>) {
    && |parents| == |bits| > 1 && parents[0] == s.parent && Loaded(s, bits[0])
    && (forall k :: 0 <= k < |bits| - 1 ==> BottomUpStep(ins, parents[k], bits[k], parents[k + 1], bits[k + 1]))
    && s'.parent == parents[|bits| - 1] && s'.front == bits[|bits| - 1]
    && forall v: nat :: v in s'.window <==> v < |s'.front| && s'.front[v]
  }

  predicate Loaded(s: View, bits: seq<bool>) {
    |bits| == |s.front| && forall v: nat :: v < |bits| ==> (bits[v] <==> s.front[v] || v in s.window)
  }

  lemma {:induction false} PhaseReaches(g: Adj, ins: Adj, root: nat, s: View, s': View, parents: seq<seq<int>>,
                                        bits: seq<seq<bool>>, d: nat, k: nat)
    requires Inverse(g, ins) && AtView(g, root, s, d) && Phase(ins, s, s', parents, bits) && 0 < k < |bits|
    ensures SearchedTo(g, root, parents[k], d + k) && FrontExact(g, root, bits[k], d + k)
  {
    hide SearchedTo, ListsLevel, FrontHarmless, FrontOk, FrontExact, BottomUpStep;
    if k == 1 {
      FirstFront(g, root, s, bits[0], d);
    } else {
      PhaseReaches(g, ins, root, s, s', parents, bits, d, k - 1);
      ExactIsOk(g, root, parents[k - 1], bits[k - 1], d + k - 1);
    }
    assert BottomUpStep(ins, parents[k - 1], bits[k - 1], parents[k - 1 + 1], bits[k - 1 + 1]);
    BottomUpExact(g, ins, root, parents[k - 1], bits[k - 1], parents[k], bits[k], d + k - 1);
  }

  lemma FirstFront(g: Adj, root: nat, s: View, bits: seq<bool>, d: nat)
    requires AtView(g, root, s, d) && Loaded(s, bits)
    ensures FrontOk(g, root, s.parent, bits, d)
  {
    SearchShape(g, root, s.parent, d);
    forall v | v in s.window ensures v < |g| {
      LevelInRange(g, root, v, d);
    }
    FrontLoaded(g, root, s.parent, s.front, bits, s.window, d);
  }

  lemma BottomUpKeeps(g: Adj, ins: Adj, root: nat, s: View, s': View, d: nat) returns (d': nat)
    requires Inverse(g, ins) && AtView(g, root, s, d) && BottomUpTurn(g, ins, s, s')
    ensures d' > d && AtView(g, root, s', d')
  {
    hide SearchedTo, FrontHarmless, BottomUpStep;
    var parents, bits :| Phase(ins, s, s', parents, bits);
    var k := |bits| - 1;
    PhaseReaches(g, ins, root, s, s', parents, bits, d, k);
    ExactIsOk(g, root, s'.parent, s'.front, d + k);
    d' := d + k;
  }

  // ---------------------------------------------------------------- the whole search

  /** Any choice of direction at every turn. */
  ghost predicate Search(g: Adj, ins: Adj, views: seq<View>) {
    && views != []
    && forall k :: 0 <= k < |views| - 1 ==>
         TopDownTurn(g, views[k], views[k + 1]) || BottomUpTurn(g, ins, views[k], views[k + 1])
  }

  lemma {:induction false} SearchReaches(g: Adj, ins: Adj, root: nat, views: seq<View>, k: nat) returns (d: nat)
    requires Inverse(g, ins) && Search(g, ins, views) && k < |views| && AtView(g, root, views[0], 0)
    ensures d >= k && AtView(g, root, views[k], d)
  {
    hide AtView, TopDownTurn, BottomUpTurn;
    d := 0;
    if k > 0 {
      d := SearchReaches(g, ins, root, views, k - 1);
      assert TopDownTurn(g, views[k - 1], views[k - 1 + 1]) || BottomUpTurn(g, ins, views[k - 1], views[k - 1 + 1]);
      if TopDownTurn(g, views[k - 1], views[k]) {
        TopDownKeeps(g, root, views[k - 1], views[k], d);
        d := d + 1;
      } else {
        d := BottomUpKeeps(g, ins, root, views[k - 1], views[k], d);
      }
    }
  }

  /** From the source alone to an empty window, whatever directions are chosen, so for every alpha and beta, and
      however every top-down step interleaves: with unvisited entries reset to -1 the parents are a breadth-first
      tree. */
  lemma AnyInterleavingFindsTree(g: Adj, ins: Adj, root: nat, views: seq<View>, result: seq<int>)
    requires Inverse(g, ins) && root < |g| && Search(g, ins, views)
    requires |views[0].parent| == |views[0].front| == |g| && views[0].window == [root]
    requires forall v :: 0 <= v < |g| ==> !views[0].front[v]
    requires forall v :: 0 <= v < |g| ==>
               if v == root then views[0].parent[v] == root else views[0].parent[v] < 0
    requires var last := views[|views| - 1];
             && last.window == [] && |result| == |last.parent|
             && forall v :: 0 <= v < |result| ==> result[v] == if last.parent[v] < 0 then -1 else last.parent[v]
    ensures BfsTree(g, root, result)
  {
    hide SearchedTo, ListsLevel, FrontHarmless, BfsTree, TopDownTurn, BottomUpTurn;
    SearchStarts(g, root, views[0].parent, [root]);
    NoFront(g, root, views[0].parent, views[0].front);
    var d := SearchReaches(g, ins, root, views, |views| - 1);
    FinishedTree(g, root, views[|views| - 1].parent, d, result);
  }

  // ---------------------------------------------------------------- the search goes on, and ends

  /** From any view a top-down step can be taken. */
  lemma CanGoDown(g: Adj, s: View) returns (s': View)
    ensures TopDownTurn(g, s, s')
  {
    var start := TopDownRuns.Start(s.parent, s.window);
    var schedule := TopDownRuns.RunEnds(g, start);
    var e := TopDownRuns.Exec(g, start, schedule);
    assert TopDownRuns.ExpandsBy(g, s.parent, s.window, e.parent, e.pushed, schedule);
    assert Permuted(e.pushed, e.pushed);
    s' := View(e.parent, e.pushed, s.front);
  }

  function Listing(bits: seq<bool>): seq<nat> {
    if bits == [] then []
    else Listing(bits[..|bits| - 1]) + if bits[|bits| - 1] then [|bits| - 1] else []
  }

  lemma {:induction false} ListingHolds(bits: seq<bool>, v: nat)
    ensures v in Listing(bits) <==> v < |bits| && bits[v]
  {
    if bits != [] {
      ListingHolds(bits[..|bits| - 1], v);
    }
  }

  lemma CanStepUp(ins: Adj, p: seq<int>, front: seq<bool>) returns (p': seq<int>, next: seq<bool>)
    requires |p| == |front| == |ins|
    ensures BottomUpStep(ins, p, front, p', next)
  {
    p' := seq(|ins|, u requires 0 <= u < |ins| =>
      if p[u] < 0 && FirstIn(ins[u], front) >= 0 then FirstIn(ins[u], front) else p[u]);
    next := seq(|ins|, u requires 0 <= u < |ins| => p[u] < 0 && FirstIn(ins[u], front) >= 0);
  }

  /** A phase of any length. */
  lemma {:induction false} CanStepOn(ins: Adj, p: seq<int>, front: seq<bool>, steps: nat)
    returns (parents: seq<seq<int>>, bits: seq<seq<bool>>)
    requires |p| == |front| == |ins|
    ensures |parents| == |bits| == steps + 1 && parents[0] == p && bits[0] == front
    ensures forall k :: 0 <= k < steps ==> BottomUpStep(ins, parents[k], bits[k], parents[k + 1], bits[k + 1])
    ensures |parents[steps]| == |bits[steps]| == |ins|
  {
    hide BottomUpStep;
    if steps == 0 {
      parents, bits := [p], [front];
    } else {
      parents, bits := CanStepOn(ins, p, front, steps - 1);
      var p', next := CanStepUp(ins, parents[steps - 1], bits[steps - 1]);
      StepShape(ins, parents[steps - 1], bits[steps - 1], p', next);
      var parents', bits' := parents + [p'], bits + [next];
      forall k | 0 <= k < steps ensures BottomUpStep(ins, parents'[k], bits'[k], parents'[k + 1], bits'[k + 1]) {
        if k < steps - 1 {
          assert BottomUpStep(ins, parents[k], bits[k], parents[k + 1], bits[k + 1]);
        }
      }
      parents, bits := parents', bits';
    }
  }

  lemma StepShape(ins: Adj, p: seq<int>, front: seq<bool>, p': seq<int>, next: seq<bool>)
    requires BottomUpStep(ins, p, front, p', next)
    ensures |p'| == |next| == |ins|
  {
  }

  /** From any view a bottom-up phase of any number of steps can be taken. */
  lemma CanGoUp(g: Adj, ins: Adj, s: View, steps: nat) returns (s': View)
    requires |s.parent| == |s.front| == |ins| && steps > 0
    ensures BottomUpTurn(g, ins, s, s')
  {
    var loaded := seq(|s.front|, v requires 0 <= v < |s.front| => s.front[v] || v in s.window);
    var parents, bits := CanStepOn(ins, s.parent, loaded, steps);
    s' := View(parents[steps], Listing(bits[steps]), bits[steps]);
    forall v: nat ensures v in s'.window <==> v < |s'.front| && s'.front[v] {
      ListingHolds(bits[steps], v);
    }
    assert Phase(ins, s, s', parents, bits);
  }

  /** Whatever the turns, there are no more of them than vertices before the window is empty. */
  lemma SearchEnds(g: Adj, ins: Adj, root: nat, views: seq<View>, k: nat)
    requires Inverse(g, ins) && root < |g| && Search(g, ins, views) && AtView(g, root, views[0], 0)
    requires |g| <= k < |views|
    ensures views[k].window == []
  {
    var d := SearchReaches(g, ins, root, views, k);
    if views[k].window != [] {
      var v := views[k].window[0];
      assert v in views[k].window;
      LevelBound(g, root, v, d);
    }
  }
}
