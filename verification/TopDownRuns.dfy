/** The top-down step of the breadth-first search as atomic steps in any interleaving: every window vertex walks
    its list, reading parents one at a time and claiming unvisited ends with a compare-and-swap that may fail. */
module TopDownRuns {
  import opened Graphs
  import opened Sets
  import opened Sums
  import opened BfsLevels
  import opened DirectionBfs

  /** Before the read of the next end's parent, or with a negative value read and the swap ahead. */
  datatype Point = AtEdge | Swap(value: int)

  datatype Task = Task(u: nat, j: nat, at: Point)

  /** `pushed` are the vertices put into any thread's buffer, in the order of their pushes. */
  datatype State = State(parent: seq<int>, tasks: seq<Task>, pushed: seq<nat>)

  predicate Enabled(g: Adj, s: State, i: nat) {
    i < |s.tasks| && s.tasks[i].u < |g| && s.tasks[i].j < |g[s.tasks[i].u]|
  }

  function Get(a: seq<int>, v: nat): int {
    if v < |a| then a[v] else 0
  }

  /** The next read or swap of task i. */
  function Step(g: Adj, s: State, i: nat): State
    requires Enabled(g, s, i)
  {
    var t := s.tasks[i];
    var v := g[t.u][t.j];
    var next := s.(tasks := s.tasks[i := Task(t.u, t.j + 1, AtEdge)]);
    match t.at
    case AtEdge => if Get(s.parent, v) < 0 then s.(tasks := s.tasks[i := t.(at := Swap(Get(s.parent, v)))]) else next
    case Swap(value) =>
      if v < |s.parent| && s.parent[v] == value then next.(parent := s.parent[v := t.u], pushed := s.pushed + [v])
      else next
  }

  predicate Legal(g: Adj, s: State, schedule: seq<nat>)
    decreases |schedule|
  {
    schedule == [] || (Enabled(g, s, schedule[0]) && Legal(g, Step(g, s, schedule[0]), schedule[1..]))
  }

  function Exec(g: Adj, s: State, schedule: seq<nat>): State
    requires Legal(g, s, schedule)
    decreases |schedule|
  {
    if schedule == [] then s else Exec(g, Step(g, s, schedule[0]), schedule[1..])
  }

  // ---------------------------------------------------------------- invariant

  ghost predicate TaskOk(g: Adj, p: seq<int>, t: Task) {
    && t.u < |g| && t.j <= |g[t.u]| && NeighboursSeen(g, p, t.u, t.j)
    && match t.at
       case AtEdge => true
       case Swap(value) => value < 0 && t.j < |g[t.u]| && g[t.u][t.j] < |p|
                           && (p[g[t.u][t.j]] == value || p[g[t.u][t.j]] >= 0)
  }

  /** Whatever raced, the parents and pushes are those of a partly done step, with no vertex pushed twice. */
  ghost predicate Inv(g: Adj, root: nat, d: nat, p0: seq<int>, window: seq<nat>, s: State) {
    && SearchedTo(g, root, p0, d) && ListsLevel(g, root, window, d)
    && TopDown(g, root, d, p0, s.parent, s.pushed)
    && |s.tasks| == |window| && (forall i :: 0 <= i < |window| ==> s.tasks[i].u == window[i])
    && forall i :: 0 <= i < |s.tasks| ==> TaskOk(g, s.parent, s.tasks[i])
  }

  lemma TaskCarries(g: Adj, p: seq<int>, v: nat, u: nat, t: Task)
    requires TaskOk(g, p, t) && v < |p|
    ensures TaskOk(g, p[v := u], t)
  {
  }

  lemma ClaimKeeps(g: Adj, root: nat, d: nat, p0: seq<int>, window: seq<nat>, s: State, i: nat)
    requires Inv(g, root, d, p0, window, s) && Enabled(g, s, i) && s.tasks[i].at.Swap?
    requires Get(s.parent, g[s.tasks[i].u][s.tasks[i].j]) == s.tasks[i].at.value
    ensures Inv(g, root, d, p0, window, Step(g, s, i))
  {
    hide SearchedTo, ListsLevel, TopDown;
    var t := s.tasks[i];
    assert TaskOk(g, s.parent, t);
    var v := g[t.u][t.j];
    SearchShape(g, root, p0, d);
    WindowVertex(g, root, window, d, i);
    NothingQueued(g, root, d);
    VisitKeepsTopDown(g, root, d, p0, s.parent, s.pushed, [], t.u, v);
    forall k | 0 <= k < |s.tasks| ensures TaskOk(g, s.parent[v := t.u as int], Step(g, s, i).tasks[k]) {
      TaskCarries(g, s.parent, v, t.u, s.tasks[k]);
    }
  }

  lemma NothingQueued(g: Adj, root: nat, d: nat)
    ensures QueueOk(g, root, [], d)
  {
  }

  lemma ReadKeeps(g: Adj, root: nat, d: nat, p0: seq<int>, window: seq<nat>, s: State, i: nat)
    requires Inv(g, root, d, p0, window, s) && Enabled(g, s, i) && Step(g, s, i).parent == s.parent
    requires Step(g, s, i).pushed == s.pushed
    ensures Inv(g, root, d, p0, window, Step(g, s, i))
  {
    hide SearchedTo, ListsLevel;
    var t := s.tasks[i];
    assert TaskOk(g, s.parent, t);
    SearchShape(g, root, p0, d);
    assert g[t.u][t.j] < |s.parent|;
    forall k | 0 <= k < |s.tasks| ensures TaskOk(g, s.parent, Step(g, s, i).tasks[k]) {
      assert TaskOk(g, s.parent, s.tasks[k]);
    }
  }

  lemma StepKeeps(g: Adj, root: nat, d: nat, p0: seq<int>, window: seq<nat>, s: State, i: nat)
    requires Inv(g, root, d, p0, window, s) && Enabled(g, s, i)
    ensures Inv(g, root, d, p0, window, Step(g, s, i))
  {
    var t := s.tasks[i];
    assert TaskOk(g, s.parent, t);
    SearchShape(g, root, p0, d);
    if t.at.Swap? && Get(s.parent, g[t.u][t.j]) == t.at.value {
      ClaimKeeps(g, root, d, p0, window, s, i);
    } else {
      ReadKeeps(g, root, d, p0, window, s, i);
    }
  }

  lemma {:induction false} RunKeepsInv(g: Adj, root: nat, d: nat, p0: seq<int>, window: seq<nat>, s: State,
                                       schedule: seq<nat>)
    requires Inv(g, root, d, p0, window, s) && Legal(g, s, schedule)
    ensures Inv(g, root, d, p0, window, Exec(g, s, schedule))
    decreases |schedule|
  {
    hide Inv;
    if schedule != [] {
      StepKeeps(g, root, d, p0, window, s, schedule[0]);
      RunKeepsInv(g, root, d, p0, window, Step(g, s, schedule[0]), schedule[1..]);
    }
  }

  /** Reads and swaps that are left. */
  function TaskLeft(g: Adj, t: Task): nat {
    if t.u < |g| && t.j < |g[t.u]| then 2 * (|g[t.u]| - t.j) - (if t.at.Swap? then 1 else 0) else 0
  }

  function Lefts(g: Adj, s: State): seq<nat> {
    seq(|s.tasks|, i requires 0 <= i < |s.tasks| => TaskLeft(g, s.tasks[i]))
  }

  /** Every step, a failed swap included, lowers one sum: each schedule ends. */
  lemma StepDescends(g: Adj, s: State, i: nat)
    requires Enabled(g, s, i)
    ensures SumSeq(Lefts(g, Step(g, s, i))) < SumSeq(Lefts(g, s))
  {
    var before, after := Lefts(g, s), Lefts(g, Step(g, s, i));
    assert after == before[i := after[i]];
    SumUpdate(before, i, after[i]);
  }

  /** Any run can be carried on until no task has an edge left. */
  lemma {:induction false} RunEnds(g: Adj, s: State) returns (schedule: seq<nat>)
    ensures Legal(g, s, schedule) && |Exec(g, s, schedule).tasks| == |s.tasks|
    ensures forall i :: 0 <= i < |s.tasks| ==> !Enabled(g, Exec(g, s, schedule), i)
    decreases SumSeq(Lefts(g, s))
  {
    hide Lefts, Step;
    if i: nat :| i < |s.tasks| && Enabled(g, s, i) {
      StepDescends(g, s, i);
      StepTasks(g, s, i);
      var rest := RunEnds(g, Step(g, s, i));
      schedule := [i] + rest;
      assert schedule[1..] == rest;
    } else {
      schedule := [];
    }
  }

  lemma StepTasks(g: Adj, s: State, i: nat)
    requires Enabled(g, s, i)
    ensures |Step(g, s, i).tasks| == |s.tasks|
  {
  }

  // ---------------------------------------------------------------- one level

  function Start(p0: seq<int>, window: seq<nat>): State {
    State(p0, seq(|window|, i requires 0 <= i < |window| => Task(window[i], 0, AtEdge)), [])
  }

  /** Some complete schedule of the window's tasks turns p0 into p and pushes `pushed`. */
  ghost predicate Expands(g: Adj, p0: seq<int>, window: seq<nat>, p: seq<int>, pushed: seq<nat>) {
    exists schedule :: ExpandsBy(g, p0, window, p, pushed, schedule)
  }

  ghost predicate ExpandsBy(g: Adj, p0: seq<int>, window: seq<nat>, p: seq<int>, pushed: seq<nat>,
                            schedule: seq<nat>) {
    Legal(g, Start(p0, window), schedule) &&
    var e := Exec(g, Start(p0, window), schedule);
    e.parent == p && e.pushed == pushed && forall i :: 0 <= i < |e.tasks| ==> !Enabled(g, e, i)
  }

  /** However the threads interleave, the step visits exactly the next level, pushes each of its vertices once,
      and the queue has room for them. */
  lemma ExpandedExactly(g: Adj, root: nat, d: nat, p0: seq<int>, window: seq<nat>, p: seq<int>, pushed: seq<nat>,
                        queued: seq<nat>)
    requires SearchedTo(g, root, p0, d) && ListsLevel(g, root, window, d) && QueueOk(g, root, queued, d)
    requires Expands(g, p0, window, p, pushed)
    ensures SearchedTo(g, root, p, d + 1) && ListsLevel(g, root, pushed, d + 1) && Distinct(pushed)
    ensures QueueOk(g, root, queued + pushed, d + 1) && |queued + pushed| <= |g|
  {
    hide SearchedTo, ListsLevel, QueueOk;
    var schedule :| ExpandsBy(g, p0, window, p, pushed, schedule);
    var s := Start(p0, window);
    SearchShape(g, root, p0, d);
    TopDownStarts(g, root, d, p0, window);
    forall i | 0 <= i < |window| ensures TaskOk(g, p0, s.tasks[i]) {
      WindowVertex(g, root, window, d, i);
    }
    RunKeepsInv(g, root, d, p0, window, s, schedule);
    var e := Exec(g, s, schedule);
    forall k | 0 <= k < |window| ensures window[k] < |g| && NeighboursSeen(g, p, window[k], |g[window[k]]|) {
      assert TaskOk(g, p, e.tasks[k]) && !Enabled(g, e, k);
    }
    TopDownDone(g, root, d, p0, p, pushed, queued, window);
  }
}
