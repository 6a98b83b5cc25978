/** Shiloach-Vishkin connected components as a state machine over its atomic reads and writes.
    Every vertex's hook loop and every vertex's compress loop is a task of its own, so that each
    schedule of the two parallel loops, with any number of threads, is a run of this machine. */
module ShiloachVishkin {
  import opened Graphs
  import opened Forests
  import opened Afforest
  import opened Sums
  import opened Sets
  import CompressRuns

  /** Where the hook loop of one vertex u stands; j is the position in u's neighbour list. */
  datatype Hook =
    | AtEdge(j: nat)
    | ReadU(j: nat, cu: nat)
    | ReadBoth(j: nat, cu: nat, cv: nat)
    | Marking(j: nat, high: nat, low: nat)
    | Writing(j: nat, high: nat, low: nat)

  datatype Phase = Hooking(hooks: seq<Hook>) | Compressing(crawls: seq<CompressRuns.Crawl>) | Done

  /** start is a history variable: the roots when the current outer pass began. */
  datatype State = State(comp: seq<nat>, change: bool, iter: nat, phase: Phase, start: set<nat>)

  // ---------------------------------------------------------------- steps

  function NewPass(comp: seq<nat>, iter: nat): State {
    State(comp, false, iter, Hooking(seq(|comp|, _ => AtEdge(0))), TreeRoots(comp))
  }

  function Init(g: Adj): State {
    NewPass(seq(|g|, i => i), 1)
  }

  predicate HookDone(g: Adj, hooks: seq<Hook>, u: nat)
    requires u < |g| == |hooks|
  {
    hooks[u] == AtEdge(|g[u]|)
  }

  /** The next atomic action of vertex u's hook loop. Indices outside the arrays do not occur in any
      run; they leave the state as it is. */
  function HookStep(g: Adj, s: State, u: nat): State
    requires s.phase.Hooking? && u < |g| == |s.phase.hooks|
    requires !HookDone(g, s.phase.hooks, u)
  {
    var to := (h: Hook) => s.(phase := Hooking(s.phase.hooks[u := h]));
    match s.phase.hooks[u]
    case AtEdge(j) =>
      if u < |s.comp| then to(ReadU(j, s.comp[u])) else s
    case ReadU(j, cu) =>
      if j < |g[u]| && g[u][j] < |s.comp| then to(ReadBoth(j, cu, s.comp[g[u][j]])) else s
    case ReadBoth(j, cu, cv) =>
      var high := if cu > cv then cu else cv;
      var low := cu + cv - high;
      if cu == cv then to(AtEdge(j + 1))
      else if high < |s.comp| && s.comp[high] == high then to(Marking(j, high, low))
      else to(AtEdge(j + 1))
    case Marking(j, high, low) =>
      to(Writing(j, high, low)).(change := true)
    case Writing(j, high, low) =>
      if high < |s.comp| then to(AtEdge(j + 1)).(comp := s.comp[high := low]) else s
  }

  /** The compress loop as a state of its own machine. */
  function Compression(s: State): CompressRuns.State
    requires s.phase.Compressing?
  {
    CompressRuns.State(s.comp, s.phase.crawls)
  }

  function CrawlStep(s: State, n: nat): State
    requires s.phase.Compressing? && n < |s.phase.crawls| == |s.comp| && !s.phase.crawls[n].Done?
  {
    var c := CompressRuns.Step(Compression(s), n);
    s.(comp := c.comp, phase := Compressing(c.crawls))
  }

  function StartCompressing(s: State): State {
    s.(phase := Compressing(CompressRuns.Start(s.comp).crawls))
  }

  ghost predicate Next(g: Adj, s: State, t: State) {
    match s.phase
    case Hooking(hooks) =>
      && |hooks| == |g|
      && ((exists u: nat :: u < |g| && !HookDone(g, hooks, u) && t == HookStep(g, s, u))
          || ((forall u: nat :: u < |g| ==> HookDone(g, hooks, u))
              && t == StartCompressing(s)))
    case Compressing(crawls) =>
      && |crawls| == |s.comp|
      && ((exists n: nat :: n < |crawls| && !crawls[n].Done? && t == CrawlStep(s, n))
          || ((forall n: nat :: n < |crawls| ==> crawls[n].Done?)
              && t == if s.change then NewPass(s.comp, s.iter + 1) else s.(phase := Done)))
    case Done => false
  }

  ghost predicate Run(g: Adj, run: seq<State>) {
    && |run| > 0
    && run[0] == Init(g)
    && forall i :: 0 < i < |run| ==> Next(g, run[i - 1], run[i])
  }

  // ---------------------------------------------------------------- invariant

  function TreeRoots(comp: seq<nat>): set<nat> {
    set x | 0 <= x < |comp| && comp[x] == x
  }

  predicate Star(comp: seq<nat>) {
    forall x :: 0 <= x < |comp| ==> comp[x] < |comp| && comp[comp[x]] == comp[x]
  }

  predicate EdgesAgree(g: Adj, comp: seq<nat>, u: nat, hi: nat)
    requires u < |g|
  {
    u < |comp| && forall i :: 0 <= i < hi && i < |g[u]| ==> g[u][i] < |comp| && comp[g[u][i]] == comp[u]
  }

  ghost predicate Linked(g: Adj, x: nat, y: nat) {
    x < |g| && y < |g| && Connected(EdgeSet(g), x, y)
  }

  /** Every label is at most its vertex and connected to it; hooking pairs are connected. */
  ghost predicate HookOk(g: Adj, s: State, u: nat, h: Hook)
    requires u < |g|
  {
    match h
    case AtEdge(j) => j <= |g[u]| && (!s.change ==> EdgesAgree(g, s.comp, u, j))
    case ReadU(j, cu) =>
      && j < |g[u]| && Linked(g, u, cu)
      && (!s.change ==> EdgesAgree(g, s.comp, u, j) && cu == s.comp[u])
    case ReadBoth(j, cu, cv) =>
      && j < |g[u]| && Linked(g, cu, cv)
      && (!s.change ==> EdgesAgree(g, s.comp, u, j) && cu == s.comp[u]
                        && g[u][j] < |s.comp| && cv == s.comp[g[u][j]])
    case Marking(j, high, low) =>
      j < |g[u]| && Linked(g, high, low) && low < high && high in s.start
    case Writing(j, high, low) =>
      j < |g[u]| && Linked(g, high, low) && low < high && high in s.start && s.change
  }

  /** Some root of the pass's start is gone. */
  ghost predicate RootLost(s: State) {
    exists x :: x in s.start && x !in TreeRoots(s.comp)
  }

  ghost predicate Base(g: Adj, s: State) {
    && Valid(g) && |s.comp| == |g| && s.iter >= 1
    && (forall x :: 0 <= x < |g| ==> s.comp[x] <= x && Linked(g, x, s.comp[x]))
    && TreeRoots(s.comp) <= s.start
    && |s.start| + s.iter <= |g| + 1
    && (!s.change ==> Star(s.comp))
  }

  ghost predicate Inv(g: Adj, s: State) {
    && Base(g, s)
    && match s.phase
       case Hooking(hooks) =>
         && |hooks| == |g|
         && (forall u: nat :: u < |g| ==> HookOk(g, s, u, hooks[u]))
         && (s.change ==> RootLost(s) || exists u: nat :: u < |g| && hooks[u].Writing?)
       case Compressing(crawls) =>
         && Descending(s.comp) && CompressRuns.Inv(Roots(s.comp), Compression(s))
         && (if s.change then RootLost(s) else forall u: nat :: u < |g| ==> EdgesAgree(g, s.comp, u, |g[u]|))
       case Done =>
         !s.change && forall u: nat :: u < |g| ==> EdgesAgree(g, s.comp, u, |g[u]|)
  }

  // ---------------------------------------------------------------- every step keeps the invariant

  lemma LinkedVia(g: Adj, x: nat, y: nat, z: nat)
    requires Linked(g, y, x) && Linked(g, y, z)
    ensures Linked(g, x, z)
  {
    ConnectedSym(EdgeSet(g), y, x);
    ConnectedTrans(EdgeSet(g), x, y, z);
  }

  lemma LinkedEdge(g: Adj, u: nat, j: nat)
    requires Valid(g) && u < |g| && j < |g[u]|
    ensures Linked(g, u, g[u][j]) && Linked(g, g[u][j], u)
  {
    ConnectedEdge(EdgeSet(g), u, g[u][j]);
    ConnectedSym(EdgeSet(g), u, g[u][j]);
  }

  lemma InitInv(g: Adj)
    requires Valid(g)
    ensures Inv(g, Init(g))
  {
    forall x | 0 <= x < |g| ensures Linked(g, x, x) {
      ConnectedRefl(EdgeSet(g), x);
    }
    RangeCard(TreeRoots(Init(g).comp), |g|);
  }

  /** Writing a smaller connected label keeps the labels sound and can only remove a root. */
  lemma WriteKeepsBase(g: Adj, s: State, x: nat, y: nat)
    requires Base(g, s) && s.change && x < |g| && y < x && Linked(g, x, y)
    ensures Base(g, s.(comp := s.comp[x := y]))
    ensures RootLost(s) ==> RootLost(s.(comp := s.comp[x := y]))
    ensures x in s.start ==> RootLost(s.(comp := s.comp[x := y]))
  {
    var t := s.(comp := s.comp[x := y]);
    assert TreeRoots(t.comp) <= TreeRoots(s.comp);
    if RootLost(s) {
      var r :| r in s.start && r !in TreeRoots(s.comp);
      assert r !in TreeRoots(t.comp);
    }
    assert x !in TreeRoots(t.comp);
  }

  lemma HookReadKeeps(g: Adj, s: State, u: nat)
    requires Inv(g, s) && s.phase.Hooking? && u < |g| && !HookDone(g, s.phase.hooks, u)
    requires s.phase.hooks[u].AtEdge? || s.phase.hooks[u].ReadU?
    ensures Inv(g, HookStep(g, s, u))
  {
    var t := HookStep(g, s, u);
    match s.phase.hooks[u] {
      case AtEdge(j) =>
      case ReadU(j, cu) =>
        LinkedEdge(g, u, j);
        LinkedVia(g, cu, u, g[u][j]);
        LinkedVia(g, g[u][j], g[u][j], s.comp[g[u][j]]) by { ConnectedRefl(EdgeSet(g), g[u][j]); }
        ConnectedTrans(EdgeSet(g), cu, g[u][j], s.comp[g[u][j]]);
    }
    forall w: nat | w < |g| ensures HookOk(g, t, w, t.phase.hooks[w]) {
      assert HookOk(g, s, w, s.phase.hooks[w]);
    }
    if s.change && !RootLost(s) {
      var w: nat :| w < |g| && s.phase.hooks[w].Writing?;
      assert t.phase.hooks[w].Writing?;
    }
  }

  lemma HookTestKeeps(g: Adj, s: State, u: nat)
    requires Inv(g, s) && s.phase.Hooking? && u < |g| && s.phase.hooks[u].ReadBoth?
    ensures Inv(g, HookStep(g, s, u))
  {
    hide Connected;
    var t := HookStep(g, s, u);
    var ReadBoth(j, cu, cv) := s.phase.hooks[u];
    ConnectedSym(EdgeSet(g), cu, cv);
    assert HookOk(g, s, u, s.phase.hooks[u]);
    assert t.comp == s.comp && t.change == s.change && t.start == s.start;
    assert HookOk(g, t, u, t.phase.hooks[u]) by {
      var high := if cu > cv then cu else cv;
      assert s.comp[high] == high ==> high in TreeRoots(s.comp);
    }
    forall w: nat | w < |g| ensures HookOk(g, t, w, t.phase.hooks[w]) {
      assert HookOk(g, s, w, s.phase.hooks[w]);
    }
    if s.change && !RootLost(s) {
      var w: nat :| w < |g| && s.phase.hooks[w].Writing?;
      assert t.phase.hooks[w].Writing?;
    }
  }

  lemma HookMarkKeeps(g: Adj, s: State, u: nat)
    requires Inv(g, s) && s.phase.Hooking? && u < |g| && s.phase.hooks[u].Marking?
    ensures Inv(g, HookStep(g, s, u))
  {
    var t := HookStep(g, s, u);
    forall w: nat | w < |g| ensures HookOk(g, t, w, t.phase.hooks[w]) {
      assert HookOk(g, s, w, s.phase.hooks[w]);
    }
    assert t.phase.hooks[u].Writing?;
  }

  lemma HookWriteKeeps(g: Adj, s: State, u: nat)
    requires Inv(g, s) && s.phase.Hooking? && u < |g| && s.phase.hooks[u].Writing?
    ensures Inv(g, HookStep(g, s, u))
  {
    var t := HookStep(g, s, u);
    var Writing(j, high, low) := s.phase.hooks[u];
    WriteKeepsBase(g, s, high, low);
    forall w: nat | w < |g| ensures HookOk(g, t, w, t.phase.hooks[w]) {
      assert HookOk(g, s, w, s.phase.hooks[w]);
    }
  }

  lemma HookEndKeeps(g: Adj, s: State)
    requires Inv(g, s) && s.phase.Hooking?
    requires forall u: nat :: u < |g| ==> HookDone(g, s.phase.hooks, u)
    ensures Inv(g, StartCompressing(s))
  {
    forall u: nat | u < |g| ensures !s.change ==> EdgesAgree(g, s.comp, u, |g[u]|) {
      assert HookDone(g, s.phase.hooks, u) && HookOk(g, s, u, s.phase.hooks[u]);
    }
    if s.change {
      assert forall u: nat :: u < |g| ==> HookDone(g, s.phase.hooks, u) && !s.phase.hooks[u].Writing?;
      var x :| x in s.start && x !in TreeRoots(s.comp);
      assert RootLost(StartCompressing(s));
    }
    CompressRuns.StartInv(s.comp);
  }

  /** Labels are connected to what lies in the same tree. */
  lemma TreeIsLinked(g: Adj, s: State, x: nat, y: nat)
    requires Base(g, s) && Descending(s.comp) && x < |g| && y < |g| && Root(s.comp, x) == Root(s.comp, y)
    ensures Linked(g, x, y)
  {
    RootLinked(g, s.comp, x);
    RootLinked(g, s.comp, y);
    ConnectedSym(EdgeSet(g), y, Root(s.comp, y));
    ConnectedTrans(EdgeSet(g), x, Root(s.comp, x), y);
  }

  lemma CrawlKeeps(g: Adj, s: State, n: nat)
    requires Inv(g, s) && s.phase.Compressing? && n < |s.phase.crawls| && !s.phase.crawls[n].Done?
    ensures n < |s.comp| == |s.phase.crawls| && Inv(g, CrawlStep(s, n))
  {
    hide Connected, CompressRuns.Inv, CompressRuns.Step, EdgesAgree;
    var r, c := Roots(s.comp), Compression(s);
    CompressRuns.InvShape(r, c);
    CompressRuns.StepKeeps(r, c, n);
    CompressRuns.InvRoots(r, CompressRuns.Step(c, n));
    if s.phase.crawls[n].Assign? {
      CompressRuns.AssignFacts(r, c, n);
      TreeIsLinked(g, s, n, s.phase.crawls[n].next);
      WriteKeepsBase(g, s, n, s.phase.crawls[n].next);
    } else {
      CompressRuns.ReadKeeps(r, c, n);
    }
  }

  lemma CrawlEndKeeps(g: Adj, s: State)
    requires Inv(g, s) && s.phase.Compressing?
    requires forall n: nat :: n < |g| ==> n < |s.phase.crawls| && s.phase.crawls[n].Done?
    ensures Inv(g, if s.change then NewPass(s.comp, s.iter + 1) else s.(phase := Done))
  {
    assert Star(s.comp) by {
      forall x | 0 <= x < |s.comp| ensures s.comp[x] < |s.comp| && s.comp[s.comp[x]] == s.comp[x] {
        assert CompressRuns.CrawlOk(s.comp, x, s.phase.crawls[x]);
      }
    }
    if s.change {
      ProperSubsetCard(TreeRoots(s.comp), s.start);
    }
  }

  lemma NextKeepsInv(g: Adj, s: State, t: State)
    requires Inv(g, s) && Next(g, s, t)
    ensures Inv(g, t)
  {
    match s.phase {
      case Hooking(hooks) =>
        if u: nat :| u < |g| && !HookDone(g, hooks, u) && t == HookStep(g, s, u) {
          match hooks[u] {
            case AtEdge(_) => HookReadKeeps(g, s, u);
            case ReadU(_, _) => HookReadKeeps(g, s, u);
            case ReadBoth(_, _, _) => HookTestKeeps(g, s, u);
            case Marking(_, _, _) => HookMarkKeeps(g, s, u);
            case Writing(_, _, _) => HookWriteKeeps(g, s, u);
          }
        } else {
          HookEndKeeps(g, s);
        }
      case Compressing(crawls) =>
        if n: nat :| n < |crawls| && !crawls[n].Done? && t == CrawlStep(s, n) {
          CrawlKeeps(g, s, n);
        } else {
          CrawlEndKeeps(g, s);
        }
      case Done =>
    }
  }

  lemma {:induction false} RunKeepsInv(g: Adj, run: seq<State>, i: nat)
    requires Valid(g) && Run(g, run) && i < |run|
    ensures Inv(g, run[i])
  {
    if i == 0 {
      InitInv(g);
    } else {
      RunKeepsInv(g, run, i - 1);
      NextKeepsInv(g, run[i - 1], run[i]);
    }
  }

  // ---------------------------------------------------------------- results

  /** At every moment of every schedule a label is at most its vertex and connected to it. */
  lemma LabelsAlwaysSound(g: Adj, run: seq<State>, i: nat, x: nat)
    requires Valid(g) && Run(g, run) && i < |run| && x < |g|
    ensures |run[i].comp| == |g| && run[i].comp[x] <= x && Connected(EdgeSet(g), x, run[i].comp[x])
  {
    RunKeepsInv(g, run, i);
  }

  /** When the loop ends, every schedule has labelled each vertex with its component's minimum. */
  lemma DoneLabelsAreMinima(g: Adj, run: seq<State>, i: nat, x: nat)
    requires Valid(g) && Run(g, run) && i < |run| && run[i].phase.Done? && x < |g|
    ensures |run[i].comp| == |g| && ComponentMin(EdgeSet(g), x, run[i].comp[x])
  {
    RunKeepsInv(g, run, i);
    var c := run[i].comp;
    forall u: nat, v: nat | (u, v) in EdgeSet(g) ensures u < |c| && v < |c| && c[u] == c[v] {
      assert EdgesAgree(g, c, u, |g[u]|);
    }
    LabelsAreMinima(EdgeSet(g), c, x);
  }

  /** No schedule starts more than |V| - #components + 1 outer passes. */
  lemma PassBound(g: Adj, run: seq<State>, i: nat)
    requires Valid(g) && Run(g, run) && i < |run|
    ensures run[i].iter <= |g| - |Minima(EdgeSet(g), |g|)| + 1
  {
    RunKeepsInv(g, run, i);
    var s := run[i];
    forall m | m in Minima(EdgeSet(g), |g|) ensures m in TreeRoots(s.comp) {
      assert Linked(g, m, s.comp[m]);
    }
    SubsetCard(Minima(EdgeSet(g), |g|), s.start);
  }

  // ---------------------------------------------------------------- termination

  function HookLeft(degree: nat, h: Hook): nat {
    var j := h.j;
    var stage := match h
      case AtEdge(_) => 0
      case ReadU(_, _) => 1
      case ReadBoth(_, _, _) => 2
      case Marking(_, _, _) => 3
      case Writing(_, _, _) => 4;
    if j < degree then 5 * (degree - j) - stage else 0
  }

  function HooksLeft(g: Adj, hooks: seq<Hook>): seq<nat>
    requires |g| == |hooks|
  {
    seq(|g|, u requires 0 <= u < |g| => HookLeft(|g[u]|, hooks[u]))
  }

  /** A lexicographic rank: passes left, loop of the pass, actions left in the loop. */
  function Rank(g: Adj, s: State): (int, nat, nat) {
    match s.phase
    case Hooking(hooks) =>
      (|g| + 1 - s.iter, 2, if |hooks| == |g| then SumSeq(HooksLeft(g, hooks)) else 0)
    case Compressing(crawls) =>
      (|g| + 1 - s.iter, 1, if |crawls| == |s.comp| then SumSeq(CompressRuns.Lefts(Compression(s))) else 0)
    case Done => (|g| + 1 - s.iter, 0, 0)
  }

  predicate Below(r: (int, nat, nat), q: (int, nat, nat)) {
    || (0 <= r.0 < q.0)
    || (r.0 == q.0 && r.1 < q.1)
    || (r.0 == q.0 && r.1 == q.1 && r.2 < q.2)
  }

  lemma HookLeftDrops(g: Adj, s: State, u: nat)
    requires Inv(g, s) && s.phase.Hooking? && u < |g| && !HookDone(g, s.phase.hooks, u)
    ensures HookLeft(|g[u]|, HookStep(g, s, u).phase.hooks[u]) < HookLeft(|g[u]|, s.phase.hooks[u])
  {
    hide Connected, RootLost;
    assert HookOk(g, s, u, s.phase.hooks[u]);
  }

  lemma HookStepDescends(g: Adj, s: State, u: nat)
    requires Inv(g, s) && s.phase.Hooking? && u < |g| && !HookDone(g, s.phase.hooks, u)
    ensures Below(Rank(g, HookStep(g, s, u)), Rank(g, s))
  {
    hide Connected, RootLost, HookLeft, HookOk;
    HookLeftDrops(g, s, u);
    var t := HookStep(g, s, u);
    var before, after := HooksLeft(g, s.phase.hooks), HooksLeft(g, t.phase.hooks);
    assert after == before[u := after[u]];
    SumUpdate(before, u, after[u]);
  }

  lemma CrawlStepDescends(g: Adj, s: State, n: nat)
    requires Inv(g, s) && s.phase.Compressing? && n < |s.phase.crawls| && !s.phase.crawls[n].Done?
    ensures n < |s.comp| == |s.phase.crawls| && Below(Rank(g, CrawlStep(s, n)), Rank(g, s))
  {
    hide Connected, RootLost, CompressRuns.Inv, CompressRuns.Lefts, CompressRuns.Step;
    CompressRuns.InvShape(Roots(s.comp), Compression(s));
    CompressRuns.StepDescends(Roots(s.comp), Compression(s), n);
  }

  /** Every action of every task lowers the rank: no schedule, fair or not, runs forever. */
  lemma EveryStepDescends(g: Adj, run: seq<State>, i: nat)
    requires Valid(g) && Run(g, run) && i + 1 < |run|
    ensures Below(Rank(g, run[i + 1]), Rank(g, run[i]))
  {
    RunKeepsInv(g, run, i);
    RunKeepsInv(g, run, i + 1);
    var s, t := run[i], run[i + 1];
    assert Next(g, s, t);
    match s.phase {
      case Hooking(hooks) =>
        if u: nat :| u < |g| && !HookDone(g, hooks, u) && t == HookStep(g, s, u) {
          HookStepDescends(g, s, u);
        }
      case Compressing(crawls) =>
        if n: nat :| n < |crawls| && !crawls[n].Done? && t == CrawlStep(s, n) {
          CrawlStepDescends(g, s, n);
        }
      case Done =>
    }
  }

  /** A run that is not done can always go on. */
  lemma NeverStuck(g: Adj, run: seq<State>, i: nat)
    requires Valid(g) && Run(g, run) && i < |run|
    ensures run[i].phase.Done? || exists t :: Next(g, run[i], t)
  {
    RunKeepsInv(g, run, i);
    var s := run[i];
    match s.phase {
      case Hooking(hooks) =>
        if u: nat :| u < |g| && !HookDone(g, hooks, u) {
          assert Next(g, s, HookStep(g, s, u));
        } else {
          assert Next(g, s, StartCompressing(s));
        }
      case Compressing(crawls) =>
        if n: nat :| n < |crawls| && !crawls[n].Done? {
          assert Next(g, s, CrawlStep(s, n));
        } else {
          assert Next(g, s, if s.change then NewPass(s.comp, s.iter + 1) else s.(phase := Done));
        }
      case Done =>
    }
  }

  lemma RankIsNatural(g: Adj, run: seq<State>, i: nat)
    requires Valid(g) && Run(g, run) && i < |run|
    ensures Rank(g, run[i]).0 >= 0
  {
    PassBound(g, run, i);
  }

  /** So from every reachable state any way of going on ends, and ends done. */
  lemma {:induction false} CanFinish(g: Adj, run: seq<State>) returns (whole: seq<State>)
    requires Valid(g) && Run(g, run)
    ensures Run(g, whole) && run <= whole && whole[|whole| - 1].phase.Done?
    decreases Rank(g, run[|run| - 1]).0, Rank(g, run[|run| - 1]).1, Rank(g, run[|run| - 1]).2
  {
    hide Next, Rank, Init;
    NeverStuck(g, run, |run| - 1);
    if run[|run| - 1].phase.Done? {
      whole := run;
    } else {
      var t :| Next(g, run[|run| - 1], t);
      var longer := run + [t];
      forall i | 0 < i < |longer| ensures Next(g, longer[i - 1], longer[i]) {
        if i < |run| {
          assert Next(g, run[i - 1], run[i]);
        }
      }
      RankIsNatural(g, run, |run| - 1);
      EveryStepDescends(g, longer, |run| - 1);
      whole := CanFinish(g, longer);
    }
  }

  // ---------------------------------------------------------------- the sequential schedule, in place

  ghost predicate SoundLabels(g: Adj, c: seq<nat>) {
    |c| == |g| && forall x :: 0 <= x < |g| ==> c[x] <= x && Linked(g, x, c[x])
  }

  lemma HookKeepsSound(g: Adj, c: seq<nat>, u: nat, j: nat)
    requires Valid(g) && SoundLabels(g, c) && u < |g| && j < |g[u]|
    ensures var v := g[u][j];
            && Linked(g, c[u], c[v]) && Linked(g, c[v], c[u])
            && (c[v] < c[u] ==> SoundLabels(g, c[c[u] := c[v]]))
            && (c[u] < c[v] ==> SoundLabels(g, c[c[v] := c[u]]))
  {
    var v := g[u][j];
    LinkedEdge(g, u, j);
    LinkedVia(g, c[u], u, v);
    ConnectedTrans(EdgeSet(g), c[u], v, c[v]);
    ConnectedSym(EdgeSet(g), c[u], c[v]);
  }

  lemma LabelsShape(g: Adj, c: seq<nat>)
    requires SoundLabels(g, c)
    ensures |c| == |g|
  {
  }

  lemma NoEdgesDisagree(g: Adj, c: seq<nat>, u: nat)
    requires u < |g| == |c|
    ensures EdgesAgree(g, c, u, 0)
  {
  }

  /** The labels of one edge's ends: equal, or the larger can be hooked if it is still a root, as in a star it is. */
  lemma PairFacts(g: Adj, c: seq<nat>, u: nat, j: nat)
    requires Valid(g) && SoundLabels(g, c) && u < |g| && j < |g[u]|
    ensures var v := g[u][j];
            && v < |c| == |g| && c[u] < |c| && c[v] < |c|
            && (c[u] == c[v] && EdgesAgree(g, c, u, j) ==> EdgesAgree(g, c, u, j + 1))
    ensures var v := g[u][j];
            var high, low := if c[u] > c[v] then c[u] else c[v], if c[u] > c[v] then c[v] else c[u];
            && (Star(c) ==> c[high] == high)
            && (c[u] != c[v] && c[high] == high ==>
                  SoundLabels(g, c[high := low]) && TreeRoots(c[high := low]) < TreeRoots(c))
  {
    HookKeepsSound(g, c, u, j);
    var v := g[u][j];
    var high, low := if c[u] > c[v] then c[u] else c[v], if c[u] > c[v] then c[v] else c[u];
    if c[u] != c[v] && c[high] == high {
      assert high in TreeRoots(c) && TreeRoots(c[high := low]) == TreeRoots(c) - {high};
    }
  }

  /** The labels after the edge from u to v: the larger label, when it is a root, is hooked below the smaller. */
  function HookPair(c: seq<nat>, u: nat, v: nat): seq<nat> {
    if u >= |c| || v >= |c| || c[u] == c[v] then c
    else
      var high := if c[u] > c[v] then c[u] else c[v];
      if high < |c| && c[high] == high then c[high := c[u] + c[v] - high] else c
  }

  function HookList(c: seq<nat>, u: nat, list: seq<nat>): seq<nat> {
    if list == [] then c else HookPair(HookList(c, u, list[..|list| - 1]), u, list[|list| - 1])
  }

  /** After the edges of the vertices below n, one after the other. */
  function HookUpTo(g: Adj, c: seq<nat>, n: nat): seq<nat>
    requires n <= |g|
  {
    if n == 0 then c else HookList(HookUpTo(g, c, n - 1), n - 1, g[n - 1])
  }

  lemma HookNext(c: seq<nat>, u: nat, list: seq<nat>, j: nat)
    requires j < |list|
    ensures HookList(c, u, list[..j + 1]) == HookPair(HookList(c, u, list[..j]), u, list[j])
    ensures HookList(c, u, list[..0]) == c && list[..|list|] == list
  {
    assert list[..j + 1][..j] == list[..j];
  }

  lemma PairHooked(c: seq<nat>, u: nat, v: nat)
    requires u < |c| && v < |c| && c[u] < |c| && c[v] < |c|
    ensures c[u] == c[v] ==> HookPair(c, u, v) == c
    ensures var high, low := if c[u] > c[v] then c[u] else c[v], if c[u] > c[v] then c[v] else c[u];
            c[u] != c[v] ==> HookPair(c, u, v) == if c[high] == high then c[high := low] else c
  {
  }

  lemma NothingHooked(g: Adj, c: seq<nat>, u: nat)
    ensures HookUpTo(g, c, 0) == c
    ensures u < |g| ==> HookList(c, u, g[u][..0]) == c && g[u][..|g[u]|] == g[u]
    ensures u < |g| ==> HookUpTo(g, c, u + 1) == HookList(HookUpTo(g, c, u), u, g[u])
  {
  }

  /** One pass over all edges: either nothing changed and every edge already agrees, or a root is gone. */
  method HookPass(g: Adj, comp: array<nat>) returns (change: bool)
    requires Valid(g) && SoundLabels(g, comp[..]) && Star(comp[..])
    modifies comp
    ensures SoundLabels(g, comp[..])
    ensures !change ==> comp[..] == old(comp[..]) && forall u: nat :: u < |g| ==> EdgesAgree(g, comp[..], u, |g[u]|)
    ensures change ==> TreeRoots(comp[..]) < TreeRoots(old(comp[..]))
    ensures comp[..] == HookUpTo(g, old(comp[..]), |g|)
  {
    hide TreeRoots, SoundLabels, EdgesAgree, Star, HookPair, HookList, HookUpTo;
    ghost var before := comp[..];
    LabelsShape(g, before);
    NothingHooked(g, before, 0);
    change := false;
    for u := 0 to |g|
      invariant SoundLabels(g, comp[..])
      invariant !change ==> comp[..] == before && forall w: nat :: w < u ==> EdgesAgree(g, before, w, |g[w]|)
      invariant change ==> TreeRoots(comp[..]) < TreeRoots(before)
      invariant comp[..] == HookUpTo(g, before, u)
    {
      NoEdgesDisagree(g, before, u);
      NothingHooked(g, before, u);
      ghost var c0 := comp[..];
      NothingHooked(g, c0, u);
      for j := 0 to |g[u]|
        invariant SoundLabels(g, comp[..])
        invariant !change ==> comp[..] == before && EdgesAgree(g, before, u, j)
                              && forall w: nat :: w < u ==> EdgesAgree(g, before, w, |g[w]|)
        invariant change ==> TreeRoots(comp[..]) < TreeRoots(before)
        invariant comp[..] == HookList(c0, u, g[u][..j])
      {
        ghost var c := comp[..];
        PairFacts(g, c, u, j);
        HookNext(c0, u, g[u], j);
        PairHooked(c, u, g[u][j]);
        var compU, compV := comp[u], comp[g[u][j]];
        if compU == compV {
          continue;
        }
        var high := if compU > compV then compU else compV;
        var low := compU + compV - high;
        if comp[high] == high {
          change := true;
          comp[high] := low;
          assert comp[..] == c[high := low];
        }
      }
    }
  }

  lemma StarRoots(c: seq<nat>)
    requires Descending(c)
    ensures Star(Roots(c)) && TreeRoots(Roots(c)) == TreeRoots(c)
    ensures Star(c) ==> Roots(c) == c
  {
    if Star(c) {
      assert forall x :: 0 <= x < |c| ==> Root(c, x) == c[x];
    }
  }

  lemma RootsSound(g: Adj, c: seq<nat>)
    requires SoundLabels(g, c)
    ensures SoundLabels(g, Roots(c))
  {
    forall x: nat | x < |g| ensures Linked(g, x, Root(c, x)) {
      RootLinked(g, c, x);
    }
  }

  lemma {:induction false} RootLinked(g: Adj, c: seq<nat>, x: nat)
    requires SoundLabels(g, c) && x < |g|
    ensures Linked(g, x, Root(c, x))
    decreases x
  {
    if c[x] != x {
      RootLinked(g, c, c[x]);
      ConnectedTrans(EdgeSet(g), x, c[x], Root(c, x));
    }
  }

  lemma MinimaAreRoots(g: Adj, c: seq<nat>)
    requires SoundLabels(g, c)
    ensures |Minima(EdgeSet(g), |g|)| <= |TreeRoots(c)|
  {
    forall m | m in Minima(EdgeSet(g), |g|) ensures m in TreeRoots(c) {
      assert Linked(g, m, c[m]);
    }
    SubsetCard(Minima(EdgeSet(g), |g|), TreeRoots(c));
  }

  /** What one pass makes of the labels: all edges hooked, then compressed. */
  ghost predicate IsPass(g: Adj, c: seq<nat>, c': seq<nat>) {
    var hooked := HookUpTo(g, c, |g|);
    Descending(hooked) && c' == Roots(hooked)
  }

  /** The labels before and after each pass; unless `change` holds, the last pass is the first that hooks nothing. */
  ghost predicate Passes(g: Adj, labels: seq<seq<nat>>, change: bool) {
    && |labels| > 0 && labels[0] == seq(|g|, x => x)
    && (forall k :: 0 <= k < |labels| - 1 ==> IsPass(g, labels[k], labels[k + 1]))
    && (forall k :: 0 <= k < |labels| - 1 ==>
          (HookUpTo(g, labels[k], |g|) == labels[k] <==> !change && k == |labels| - 2))
    && (!change ==> |labels| > 1)
  }

  lemma PassMade(g: Adj, labels: seq<seq<nat>>, c: seq<nat>, change: bool)
    requires Passes(g, labels, true)
    requires IsPass(g, labels[|labels| - 1], c)
    requires change <==> HookUpTo(g, labels[|labels| - 1], |g|) != labels[|labels| - 1]
    ensures Passes(g, labels + [c], change)
  {
    hide IsPass, HookUpTo;
    var now := labels + [c];
    forall k | 0 <= k < |now| - 1
      ensures IsPass(g, now[k], now[k + 1])
      ensures HookUpTo(g, now[k], |g|) == now[k] <==> !change && k == |now| - 2
    {
      if k < |labels| - 1 {
        assert IsPass(g, labels[k], labels[k + 1]);
      }
    }
  }

  lemma NoPasses(g: Adj)
    requires Valid(g)
    ensures Passes(g, [seq(|g|, x => x)], true)
    ensures SoundLabels(g, seq(|g|, x => x)) && Star(seq(|g|, x => x)) && |TreeRoots(seq(|g|, x => x))| <= |g|
  {
    InitInv(g);
    var c: seq<nat> := seq(|g|, x => x);
    assert c == Init(g).comp;
    RangeCard(TreeRoots(c), |g|);
  }

  /** A pass that changed nothing had no root to lose; any other lost one. */
  lemma PassDone(g: Adj, before: seq<nat>, hooked: seq<nat>, after: seq<nat>, change: bool)
    requires SoundLabels(g, before) && Star(before) && SoundLabels(g, hooked) && Descending(hooked)
    requires hooked == HookUpTo(g, before, |g|) && after == Roots(hooked)
    requires if change then TreeRoots(hooked) < TreeRoots(before) else hooked == before
    ensures SoundLabels(g, after) && Star(after) && IsPass(g, before, after) && (change <==> hooked != before)
    ensures change ==> |TreeRoots(after)| < |TreeRoots(before)|
    ensures !change ==> after == before
  {
    hide HookUpTo, TreeRoots, SoundLabels, Star;
    StarRoots(hooked);
    RootsSound(g, hooked);
    if change {
      ProperSubsetCard(TreeRoots(hooked), TreeRoots(before));
    }
  }

  lemma AgreeingAreMinima(g: Adj, c: seq<nat>)
    requires Valid(g) && SoundLabels(g, c) && forall u: nat :: u < |g| ==> EdgesAgree(g, c, u, |g[u]|)
    ensures |c| == |g| && forall x :: 0 <= x < |g| ==> ComponentMin(EdgeSet(g), x, c[x])
  {
    forall u: nat, v: nat | (u, v) in EdgeSet(g) ensures u < |c| && v < |c| && c[u] == c[v] {
      assert EdgesAgree(g, c, u, |g[u]|);
    }
    forall x | 0 <= x < |g| ensures ComponentMin(EdgeSet(g), x, c[x]) {
      LabelsAreMinima(EdgeSet(g), c, x);
    }
  }

  /** The sequential schedule. `passes` counts the passes up to the first that hooks nothing. */
  method ShiloachVishkin(g: Adj) returns (comp: array<nat>, passes: nat, ghost labels: seq<seq<nat>>)
    requires Valid(g)
    ensures comp.Length == |g|
    ensures Passes(g, labels, false) && passes == |labels| - 1 && comp[..] == labels[passes]
    ensures forall x :: 0 <= x < |g| ==> ComponentMin(EdgeSet(g), x, comp[x])
    ensures passes <= |g| - |Minima(EdgeSet(g), |g|)| + 1
  {
    hide Passes, IsPass, HookUpTo, TreeRoots, SoundLabels, EdgesAgree, Star, ComponentMin, Minima, Roots,
      Descending;
    comp := new nat[|g|](n => n);
    NoPasses(g);
    assert comp[..] == seq(|g|, x => x);
    var change := true;
    passes, labels := 0, [comp[..]];
    while change
      invariant Passes(g, labels, change) && passes == |labels| - 1 && comp[..] == labels[passes]
      invariant SoundLabels(g, comp[..]) && Star(comp[..])
      invariant |TreeRoots(comp[..])| + passes <= if change then |g| else |g| + 1
      invariant !change ==> forall u: nat :: u < |g| ==> EdgesAgree(g, comp[..], u, |g[u]|)
      decreases if change then 1 else 0, |TreeRoots(comp[..])|
    {
      ghost var before := comp[..];
      change := HookPass(g, comp);
      passes := passes + 1;
      ghost var hooked := comp[..];
      SoundDescends(g, hooked);
      Compress(comp);
      PassDone(g, before, hooked, comp[..], change);
      PassMade(g, labels, comp[..], change);
      labels := labels + [comp[..]];
    }
    MinimaAreRoots(g, comp[..]);
    AgreeingAreMinima(g, comp[..]);
  }

  lemma SoundDescends(g: Adj, c: seq<nat>)
    requires SoundLabels(g, c)
    ensures Descending(c)
  {
  }
}
