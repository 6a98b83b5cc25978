/** The path-counting search with counts of 32 bits, as the arrays hold them: the run of exact counts with only the low
    words kept, so exactly the counts below 2^31 are told. */
module PathWidths {
  import opened Graphs
  import opened Multisets
  import opened Sums
  import opened PathCounting
  import opened EdgeNumbering
  import opened ForwardSearch
  import opened ForwardRuns
  import Brandes

  function Low(x: nat): nat {
    x % 0x1_0000_0000
  }

  /** The number a word stands for, in two's complement. */
  function Signed(word: nat): int {
    if word < 0x8000_0000 then word else word - 0x1_0000_0000
  }

  function LowAll(counts: seq<nat>): seq<nat> {
    seq(|counts|, v requires 0 <= v < |counts| => Low(counts[v]))
  }

  function LowTask(t: Task): Task {
    if t.at.Add? then Task(t.j, Add(Low(t.at.count))) else t
  }

  /** What is left of a state when only words are kept, in the array and in what was loaded from it. */
  function LowState(s: State): State {
    s.(counts := LowAll(s.counts), tasks := seq(|s.tasks|, x requires 0 <= x < |s.tasks| => LowTask(s.tasks[x])))
  }

  function LowWave(w: Wave): Wave {
    w.(counts := LowAll(w.counts))
  }

  /** An action on words: an addition drops its carry. */
  function WordStep(g: Adj, prefix: seq<nat>, window: seq<nat>, depth: nat, s: State, x: nat): State
    requires Shape(g, s) && Enabled(g, window, s, x) && |prefix| > |g|
    ensures Shape(g, WordStep(g, prefix, window, depth, s, x))
  {
    var t := Step(g, prefix, window, depth, s, x);
    t.(counts := LowAll(t.counts))
  }

  predicate WordLegal(g: Adj, prefix: seq<nat>, window: seq<nat>, depth: nat, s: State, schedule: seq<nat>)
    requires Shape(g, s) && |prefix| > |g|
    decreases |schedule|
  {
    schedule == [] ||
    (Enabled(g, window, s, schedule[0])
     && WordLegal(g, prefix, window, depth, WordStep(g, prefix, window, depth, s, schedule[0]), schedule[1..]))
  }

  function WordExec(g: Adj, prefix: seq<nat>, window: seq<nat>, depth: nat, s: State, schedule: seq<nat>): State
    requires Shape(g, s) && |prefix| > |g| && WordLegal(g, prefix, window, depth, s, schedule)
    ensures Shape(g, WordExec(g, prefix, window, depth, s, schedule))
    decreases |schedule|
  {
    if schedule == [] then s
    else WordExec(g, prefix, window, depth, WordStep(g, prefix, window, depth, s, schedule[0]), schedule[1..])
  }

  // ---------------------------------------------------------------- words follow the exact run

  lemma LowSum(a: nat, b: nat)
    ensures Low(Low(a) + Low(b)) == Low(a + b) && Low(Low(a)) == Low(a)
  {
  }

  lemma LowTwice(counts: seq<nat>)
    ensures LowAll(LowAll(counts)) == LowAll(counts)
  {
    forall v | 0 <= v < |counts| ensures Low(Low(counts[v])) == Low(counts[v]) {
      LowSum(counts[v], 0);
    }
  }

  lemma LowAdds(counts: seq<nat>, v: nat, count: nat)
    requires v < |counts|
    ensures LowAll(LowAll(counts)[v := LowAll(counts)[v] + Low(count)]) == LowAll(counts[v := counts[v] + count])
  {
    hide Low;
    forall w | 0 <= w < |counts| ensures Low(Low(counts[w])) == Low(counts[w]) {
      LowSum(counts[w], 0);
    }
    LowSum(counts[v], count);
  }

  /** No test depends on a count, so keeping words commutes with every action. */
  lemma StepCommutes(g: Adj, prefix: seq<nat>, window: seq<nat>, depth: nat, s: State, x: nat)
    requires Shape(g, s) && |prefix| > |g|
    ensures Shape(g, LowState(s)) && (Enabled(g, window, LowState(s), x) <==> Enabled(g, window, s, x))
    ensures Enabled(g, window, s, x) ==>
              WordStep(g, prefix, window, depth, LowState(s), x) == LowState(Step(g, prefix, window, depth, s, x))
  {
    hide Low;
    if Enabled(g, window, s, x) {
      LowTwice(s.counts);
      if s.tasks[x].at.Add? {
        LowAdds(s.counts, g[x][s.tasks[x].j], s.tasks[x].at.count);
      }
      var a, b := WordStep(g, prefix, window, depth, LowState(s), x), LowState(Step(g, prefix, window, depth, s, x));
      assert a.tasks == b.tasks;
      assert a.counts == b.counts;
    }
  }

  lemma {:induction false} RunCommutes(g: Adj, prefix: seq<nat>, window: seq<nat>, depth: nat, s: State,
                                       schedule: seq<nat>)
    requires Shape(g, s) && |prefix| > |g| && Shape(g, LowState(s))
    ensures WordLegal(g, prefix, window, depth, LowState(s), schedule) <==> Legal(g, prefix, window, depth, s, schedule)
    ensures Legal(g, prefix, window, depth, s, schedule) ==>
              WordExec(g, prefix, window, depth, LowState(s), schedule)
              == LowState(Exec(g, prefix, window, depth, s, schedule))
    decreases |schedule|
  {
    hide Step, WordStep, LowState;
    if schedule != [] {
      StepCommutes(g, prefix, window, depth, s, schedule[0]);
      if Enabled(g, window, s, schedule[0]) {
        StepCommutes(g, prefix, window, depth, Step(g, prefix, window, depth, s, schedule[0]), 0);
        RunCommutes(g, prefix, window, depth, Step(g, prefix, window, depth, s, schedule[0]), schedule[1..]);
      }
    }
  }

  // ---------------------------------------------------------------- whole searches on words

  ghost predicate WordSpreads(g: Adj, prefix: seq<nat>, window: seq<nat>, depth: nat, w: Wave, w': Wave) {
    exists schedule :: WordSpreadsBy(g, prefix, window, depth, w, w', schedule)
  }

  ghost predicate WordSpreadsBy(g: Adj, prefix: seq<nat>, window: seq<nat>, depth: nat, w: Wave, w': Wave,
                                schedule: seq<nat>) {
    Shape(g, Start(g, w)) && |prefix| > |g| && WordLegal(g, prefix, window, depth, Start(g, w), schedule) &&
    var e := WordExec(g, prefix, window, depth, Start(g, w), schedule);
    Wave(e.depths, e.counts, e.succ, e.pushed) == w' && forall x :: x in window ==> !Enabled(g, window, e, x)
  }

  ghost predicate WordTurn(g: Adj, prefix: seq<nat>, window: seq<nat>, d: nat, w: Wave, w': Wave, next: seq<nat>) {
    && w'.found == []
    && exists pushed :: WordSpreads(g, prefix, window, d + 1, w, w'.(found := pushed)) && Permuted(pushed, next)
  }

  /** The search of the code: level by level, each in its own interleaving, on words. */
  ghost predicate WordSearch(g: Adj, prefix: seq<nat>, waves: seq<Wave>, windows: seq<seq<nat>>) {
    && |waves| == |windows| > 0
    && forall k :: 0 <= k < |waves| - 1 ==> WordTurn(g, prefix, windows[k], k, waves[k], waves[k + 1], windows[k + 1])
  }

  lemma StartCommutes(g: Adj, w: Wave)
    ensures Start(g, LowWave(w)) == LowState(Start(g, w))
  {
  }

  /** A level run on words is the level run on exact counts, words kept. */
  lemma SpreadLifts(g: Adj, prefix: seq<nat>, window: seq<nat>, depth: nat, w: Wave, word: Wave) returns (w': Wave)
    requires WordSpreads(g, prefix, window, depth, LowWave(w), word)
    ensures Spreads(g, prefix, window, depth, w, w') && LowWave(w') == word
  {
    hide Step, WordStep;
    var schedule :| WordSpreadsBy(g, prefix, window, depth, LowWave(w), word, schedule);
    StartCommutes(g, w);
    var s := Start(g, w);
    StepCommutes(g, prefix, window, depth, s, 0);
    RunCommutes(g, prefix, window, depth, s, schedule);
    var e := Exec(g, prefix, window, depth, s, schedule);
    forall x | x in window ensures !Enabled(g, window, e, x) {
      StepCommutes(g, prefix, window, depth, e, x);
    }
    w' := Wave(e.depths, e.counts, e.succ, e.pushed);
    assert SpreadsBy(g, prefix, window, depth, w, w', schedule);
  }

  lemma TurnLifts(g: Adj, prefix: seq<nat>, window: seq<nat>, d: nat, w: Wave, word: Wave, next: seq<nat>)
    returns (w': Wave)
    requires WordTurn(g, prefix, window, d, LowWave(w), word, next)
    ensures Turn(g, prefix, window, d, w, w', next) && LowWave(w') == word
  {
    hide Spreads, WordSpreads, LowAll, Permuted;
    var pushed :| WordSpreads(g, prefix, window, d + 1, LowWave(w), word.(found := pushed)) && Permuted(pushed, next);
    var spread := SpreadLifts(g, prefix, window, d + 1, w, word.(found := pushed));
    w' := spread.(found := []);
    assert w'.(found := pushed) == spread;
  }

  /** And every exact level is one on words, words kept. */
  lemma TurnDrops(g: Adj, prefix: seq<nat>, window: seq<nat>, d: nat, w: Wave, w': Wave, next: seq<nat>)
    requires Turn(g, prefix, window, d, w, w', next)
    ensures WordTurn(g, prefix, window, d, LowWave(w), LowWave(w'), next)
  {
    hide Step, WordStep, LowAll, Permuted;
    var pushed :| Spreads(g, prefix, window, d + 1, w, w'.(found := pushed)) && Permuted(pushed, next);
    var schedule :| SpreadsBy(g, prefix, window, d + 1, w, w'.(found := pushed), schedule);
    StartCommutes(g, w);
    StepCommutes(g, prefix, window, d + 1, Start(g, w), 0);
    RunCommutes(g, prefix, window, d + 1, Start(g, w), schedule);
    var e := Exec(g, prefix, window, d + 1, Start(g, w), schedule);
    forall x | x in window ensures !Enabled(g, window, LowState(e), x) {
      StepCommutes(g, prefix, window, d + 1, e, x);
    }
    assert WordSpreadsBy(g, prefix, window, d + 1, LowWave(w), LowWave(w').(found := pushed), schedule);
  }

  /** So a search on words is an exact search, words kept. */
  lemma {:induction false} SearchLifts(g: Adj, prefix: seq<nat>, words: seq<Wave>, windows: seq<seq<nat>>)
    returns (waves: seq<Wave>)
    requires WordSearch(g, prefix, words, windows) && LowWave(words[0]) == words[0]
    ensures Search(g, prefix, waves, windows) && waves[0] == words[0]
    ensures |waves| == |words| && LowWave(waves[|waves| - 1]) == words[|words| - 1]
    decreases |words|
  {
    hide Turn, WordTurn, LowWave;
    var k := |words| - 1;
    if k == 0 {
      waves := words;
    } else {
      var before := SearchLifts(g, prefix, words[..k], windows[..k]);
      assert WordTurn(g, prefix, windows[k - 1], k - 1, words[k - 1], words[k - 1 + 1], windows[k - 1 + 1]);
      var last := TurnLifts(g, prefix, windows[k - 1], k - 1, before[k - 1], words[k], windows[k]);
      waves := before + [last];
      forall i | 0 <= i < k ensures Turn(g, prefix, windows[i], i, waves[i], waves[i + 1], windows[i + 1]) {
        if i < k - 1 {
          assert Turn(g, prefix, windows[..k][i], i, before[i], before[i + 1], windows[..k][i + 1]);
        }
      }
    }
  }

  // ---------------------------------------------------------------- which counts are told

  lemma SignedIff(x: nat)
    ensures Signed(Low(x)) == x <==> x < 0x8000_0000
    ensures x < 0x8000_0000 ==> Low(x) == x
  {
  }

  /** However the search interleaves, a vertex's count is the number of its shortest paths if and only if that number
      is below 2^31. The bits and the depth index are exact in any case. */
  lemma CountToldIffFits(g: Adj, prefix: seq<nat>, root: nat, words: seq<Wave>, windows: seq<seq<nat>>)
    requires Valid(g) && root < |g| && EdgeIds(g, prefix) && WordSearch(g, prefix, words, windows)
    requires windows[0] == [root] && windows[|windows| - 1] == [] && Fresh(g, prefix, root, words[0])
    ensures var w, dist := words[|words| - 1], Dists(g, root);
            && |w.counts| == |g|
            && (forall v :: 0 <= v < |g| ==>
                  (Signed(w.counts[v]) == PathCount(g, root, dist, v) <==> PathCount(g, root, dist, v) < 0x8000_0000))
            && (forall u, j :: 0 <= u < |g| && 0 <= j < |g[u]| ==>
                  (Bit(prefix, w.succ, u, j) <==> dist[u] >= 0 && OneDown(g, dist, u, j)))
            && Slices(dist, Queue(windows), DepthIndex(windows)) && |Queue(windows)| <= |g|
    ensures var w, dist := words[|words| - 1], Dists(g, root);
            (forall v :: 0 <= v < |g| ==> PathCount(g, root, dist, v) < 0x8000_0000) ==>
              Brandes.Forward(g, prefix, root, dist, w.counts, w.succ)
  {
    hide Low, Signed, PathCount, Search, Dists, Depths, OneDown, Queue, DepthIndex, Slices, EdgeIds, Bit;
    FreshIsLow(g, prefix, root, words[0]);
    var waves := SearchLifts(g, prefix, words, windows);
    AnyInterleavingCountsPaths(g, prefix, root, waves, windows);
    SuccLength(g, prefix, waves, windows, |waves| - 1);
    var w, word, dist := waves[|waves| - 1], words[|words| - 1], Dists(g, root);
    forall v | 0 <= v < |g|
      ensures Signed(word.counts[v]) == PathCount(g, root, dist, v) <==> PathCount(g, root, dist, v) < 0x8000_0000
      ensures PathCount(g, root, dist, v) < 0x8000_0000 ==> word.counts[v] == PathCount(g, root, dist, v)
    {
      SignedIff(w.counts[v]);
    }
    Brandes.DistsHaveShape(g, root);
  }

  lemma FreshIsLow(g: Adj, prefix: seq<nat>, root: nat, w: Wave)
    requires Fresh(g, prefix, root, w)
    ensures LowWave(w) == w
  {
    assert LowAll(w.counts) == w.counts;
  }

  // ---------------------------------------------------------------- a graph whose counts do not fit

  /** n diamonds in a row: from each of the first n vertices two ways to the next, over one of 2 n others. */
  function Diamonds(n: nat): Adj {
    seq(3 * n + 1, v requires 0 <= v < 3 * n + 1 =>
      if v < n then [n + 1 + v, 2 * n + 1 + v] else if v == n then [] else if v <= 2 * n then [v - n] else [v - 2 * n])
  }

  function Depth(n: nat, v: nat): int {
    if v <= n then 2 * v else if v <= 2 * n then 2 * (v - n) - 1 else 2 * (v - 2 * n) - 1
  }

  lemma DiamondEdges(n: nat, k: nat)
    requires k < n
    ensures Valid(Diamonds(n)) && |Diamonds(n)| == 3 * n + 1
    ensures Diamonds(n)[k] == [n + 1 + k, 2 * n + 1 + k]
    ensures Diamonds(n)[n + 1 + k] == Diamonds(n)[2 * n + 1 + k] == [k + 1]
  {
  }

  lemma DiamondDepths(n: nat, u: nat, v: nat)
    requires HasEdge(Diamonds(n), u, v)
    ensures Depth(n, v) == Depth(n, u) + 1
  {
  }

  /** Every walk from the first vertex to v has the same length. */
  lemma {:induction false} OneLength(n: nat, v: nat, k: nat)
    requires Reach(Diamonds(n), 0, v, k)
    ensures k == Depth(n, v)
    decreases k
  {
    hide Diamonds;
    if k > 0 {
      var u: nat :| Reach(Diamonds(n), 0, u, k - 1) && HasEdge(Diamonds(n), u, v);
      OneLength(n, u, k - 1);
      DiamondDepths(n, u, v);
    }
  }

  lemma Walk2(g: Adj, u: nat, t: nat, k: nat)
    requires u < |g| && k > 0
    ensures |g[u]| == 1 ==> Walks(g, u, t, k) == Walks(g, g[u][0], t, k - 1)
    ensures |g[u]| == 2 ==> Walks(g, u, t, k) == Walks(g, g[u][0], t, k - 1) + Walks(g, g[u][1], t, k - 1)
  {
    assert WalksVia(g, g[u], 0, t, k - 1) == 0;
    if |g[u]| == 1 || |g[u]| == 2 {
      assert WalksVia(g, g[u], 1, t, k - 1) == Walks(g, g[u][0], t, k - 1);
    }
  }

  /** The ways to the end double with every diamond. */
  lemma {:induction false} WaysDouble(n: nat, k: nat)
    requires k <= n
    ensures Walks(Diamonds(n), k, n, 2 * (n - k)) == Pow2(n - k)
    decreases n - k
  {
    hide Diamonds;
    if k < n {
      var g, left := Diamonds(n), 2 * (n - k);
      WaysDouble(n, k + 1);
      DiamondEdges(n, k);
      Walk2(g, k, n, left);
      Walk2(g, n + 1 + k, n, left - 1);
      Walk2(g, 2 * n + 1 + k, n, left - 1);
      assert left - 2 == 2 * (n - (k + 1));
    }
  }

  lemma {:induction false} Pow2Positive(n: nat)
    ensures Pow2(n) > 0
  {
    if n > 0 {
      Pow2Positive(n - 1);
    }
  }

  lemma DiamondsValid(n: nat)
    ensures Valid(Diamonds(n)) && |Diamonds(n)| == 3 * n + 1
  {
  }

  /** n diamonds have 2^n shortest paths from end to end. */
  lemma DiamondPaths(n: nat)
    ensures Valid(Diamonds(n)) && |Diamonds(n)| == 3 * n + 1
    ensures PathCount(Diamonds(n), 0, Dists(Diamonds(n), 0), n) == Pow2(n)
  {
    hide Walks, Diamonds, Reach, Pow2;
    var g := Diamonds(n);
    DiamondsValid(n);
    WaysDouble(n, 0);
    Pow2Positive(n);
    WalksPositive(g, 0, n, 2 * n);
    forall k: nat | k < 2 * n ensures !Reach(g, 0, n, k) {
      if Reach(g, 0, n, k) {
        OneLength(n, n, k);
      }
    }
    assert IsDist(g, 0, n, 2 * n);
    DepthsAreDists(g, 0, Dists(g, 0));
  }

  lemma {:induction false} LowPow2(n: nat)
    requires n >= 31
    ensures Pow2(n) >= 0x8000_0000 && Low(Pow2(n)) == if n == 31 then 0x8000_0000 else 0
  {
    if n == 31 {
      Pow2Of31();
    } else {
      LowPow2(n - 1);
    }
  }

  lemma Pow2Of31()
    ensures Pow2(31) == 0x8000_0000
  {
    assert Pow2(8) == 0x100;
    assert Pow2(16) == 0x1_0000;
    assert Pow2(24) == 0x100_0000;
  }

  /** From 31 diamonds on, which is 94 vertices, a search ends with a wrong count: -2^31 for 31, and zero, by which the
      backward pass divides, for more. */
  lemma DiamondsOverflow(n: nat, prefix: seq<nat>, w0: Wave) returns (words: seq<Wave>, windows: seq<seq<nat>>)
    requires n >= 31 && EdgeIds(Diamonds(n), prefix) && Fresh(Diamonds(n), prefix, 0, w0)
    ensures WordSearch(Diamonds(n), prefix, words, windows) && words[0] == w0
    ensures windows[0] == [0] && windows[|windows| - 1] == []
    ensures var counts := words[|words| - 1].counts;
            |counts| == 3 * n + 1 && Signed(counts[n]) == if n == 31 then -0x8000_0000 else 0
    ensures PathCount(Diamonds(n), 0, Dists(Diamonds(n), 0), n) == Pow2(n) > 0
  {
    hide Diamonds, Walks, PathCount, Dists, Depths, Pow2, Low, OneDown, Queue, DepthIndex, Slices, EdgeIds, Bit, Turn,
      WordTurn, AtStart, LevelStarts;
    var g := Diamonds(n);
    DiamondPaths(n);
    Pow2Positive(n);
    LowPow2(n);
    var waves;
    waves, windows := CompleteSearch(g, prefix, 0, w0);
    AnyInterleavingCountsPaths(g, prefix, 0, waves, windows);
    words := SearchDrops(g, prefix, waves, windows);
    FreshIsLow(g, prefix, 0, w0);
  }

  lemma SearchDrops(g: Adj, prefix: seq<nat>, waves: seq<Wave>, windows: seq<seq<nat>>) returns (words: seq<Wave>)
    requires Search(g, prefix, waves, windows)
    ensures WordSearch(g, prefix, words, windows) && |words| == |waves|
    ensures forall k :: 0 <= k < |words| ==> words[k] == LowWave(waves[k])
  {
    hide Turn, WordTurn, LowWave;
    words := seq(|waves|, k requires 0 <= k < |waves| => LowWave(waves[k]));
    forall k | 0 <= k < |words| - 1
      ensures WordTurn(g, prefix, windows[k], k, words[k], words[k + 1], windows[k + 1])
    {
      TurnDrops(g, prefix, windows[k], k, waves[k], waves[k + 1], windows[k + 1]);
    }
  }
}
