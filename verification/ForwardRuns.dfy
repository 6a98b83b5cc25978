/** The path-counting search as atomic steps in any interleaving: every window vertex walks its list, claiming
    unvisited ends with a compare-and-swap on their depth, and for every end one level down sets the edge's
    bit and adds its own path count. */
module ForwardRuns {
  import opened Graphs
  import opened Multisets
  import opened Sets
  import opened Sums
  import opened PathCounting
  import opened EdgeNumbering
  import opened ForwardSearch
  import opened BfsLevels

  /** What the thread of a vertex does next for the current edge: read the end's depth, swap it, read it again,
      set the bit, read its own count, add it. */
  datatype Point = AtEdge | Swap | Test | SetBit | Load | Add(count: nat)

  datatype Task = Task(j: nat, at: Point)

  /** One task for every vertex; those outside the window never start. */
  datatype State = State(depths: seq<int>, counts: seq<nat>, succ: seq<bool>, pushed: seq<nat>, tasks: seq<Task>)

  predicate Shape(g: Adj, s: State) {
    |s.depths| == |s.counts| == |s.tasks| == |g| && Valid(g)
  }

  predicate Enabled(g: Adj, window: seq<nat>, s: State, x: nat)
    requires Shape(g, s)
  {
    x in window && x < |g| && s.tasks[x].j < |g[x]|
  }

  /** The next atomic action of vertex x. */
  function Step(g: Adj, prefix: seq<nat>, window: seq<nat>, depth: nat, s: State, x: nat): State
    requires Shape(g, s) && Enabled(g, window, s, x) && |prefix| > |g|
    ensures Shape(g, Step(g, prefix, window, depth, s, x))
  {
    var t := s.tasks[x];
    var v := g[x][t.j];
    var to := (p: Point) => s.(tasks := s.tasks[x := t.(at := p)]);
    var next := s.(tasks := s.tasks[x := Task(t.j + 1, AtEdge)]);
    match t.at
    case AtEdge => to(if s.depths[v] == -1 then Swap else Test)
    case Swap =>
      if s.depths[v] == -1 then to(Test).(depths := s.depths[v := depth], pushed := s.pushed + [v]) else to(Test)
    case Test => if s.depths[v] == depth then to(SetBit) else next
    case SetBit =>
      var id := GetEdgeId(prefix, x, t.j);
      if id < |s.succ| then to(Load).(succ := s.succ[id := true]) else to(Load)
    case Load => to(Add(s.counts[x]))
    case Add(count) => next.(counts := s.counts[v := s.counts[v] + count])
  }

  predicate Legal(g: Adj, prefix: seq<nat>, window: seq<nat>, depth: nat, s: State, schedule: seq<nat>)
    requires Shape(g, s) && |prefix| > |g|
    decreases |schedule|
  {
    schedule == [] ||
    (Enabled(g, window, s, schedule[0])
     && Legal(g, prefix, window, depth, Step(g, prefix, window, depth, s, schedule[0]), schedule[1..]))
  }

  function Exec(g: Adj, prefix: seq<nat>, window: seq<nat>, depth: nat, s: State, schedule: seq<nat>): State
    requires Shape(g, s) && |prefix| > |g| && Legal(g, prefix, window, depth, s, schedule)
    ensures Shape(g, Exec(g, prefix, window, depth, s, schedule))
    decreases |schedule|
  {
    if schedule == [] then s
    else Exec(g, prefix, window, depth, Step(g, prefix, window, depth, s, schedule[0]), schedule[1..])
  }

  // ---------------------------------------------------------------- invariant

  /** What vertex x of level d has done and read. */
  ghost predicate TaskOk(g: Adj, root: nat, dist: seq<int>, d: nat, depths: seq<int>, x: nat, t: Task)
    requires Valid(g) && |depths| == |g| == |dist| && x < |g|
  {
    && t.j <= |g[x]| && (t != Task(0, AtEdge) ==> dist[x] == d)
    && (forall i :: 0 <= i < t.j ==> depths[g[x][i]] >= 0)
    && (!t.at.AtEdge? ==> t.j < |g[x]|)
    && match t.at
       case AtEdge => true
       case Swap => true
       case Test => depths[g[x][t.j]] >= 0
       case SetBit => depths[g[x][t.j]] == d + 1
       case Load => depths[g[x][t.j]] == d + 1
       case Add(count) => depths[g[x][t.j]] == d + 1 && count == Walks(g, root, x, d)
  }

  /** The paths vertex x has added to v so far. */
  ghost function Added(g: Adj, root: nat, d: nat, tasks: seq<Task>, v: nat, x: nat): int {
    if x < |tasks| && x < |g| && tasks[x].j <= |g[x]| then Walks(g, root, x, d) * Mult(g, x, v, tasks[x].j) else 0
  }

  ghost function Gained(g: Adj, root: nat, d: nat, tasks: seq<Task>, v: nat): int {
    SumInt(|g|, (x: nat) => Added(g, root, d, tasks, v, x))
  }

  /** Counts are final up to level d; below it, the paths that were added. */
  ghost predicate CountsSoFar(g: Adj, root: nat, dist: seq<int>, d: nat, tasks: seq<Task>, counts: seq<nat>) {
    && |dist| == |counts| == |g|
    && forall v :: 0 <= v < |g| ==>
         if 0 <= dist[v] <= d then counts[v] == Walks(g, root, v, dist[v])
         else counts[v] == Gained(g, root, d, tasks, v)
  }

  /** Edge i of x is processed as far as its bit is concerned. */
  predicate Passed(dist: seq<int>, d: nat, tasks: seq<Task>, x: nat, i: nat)
    requires x < |dist|
  {
    0 <= dist[x] < d ||
    (x < |tasks| && (i < tasks[x].j || (i == tasks[x].j && (tasks[x].at.Load? || tasks[x].at.Add?))))
  }

  ghost predicate BitsSoFar(g: Adj, prefix: seq<nat>, dist: seq<int>, d: nat, tasks: seq<Task>, succ: seq<bool>) {
    && EdgeIds(g, prefix) && |succ| >= prefix[|g|] && |dist| == |g|
    && forall x, i :: 0 <= x < |g| && 0 <= i < |g[x]| ==>
         (Bit(prefix, succ, x, i) <==> Passed(dist, d, tasks, x, i) && OneDown(g, dist, x, i))
  }

  ghost predicate TasksOk(g: Adj, root: nat, dist: seq<int>, d: nat, depths: seq<int>, tasks: seq<Task>)
    requires Valid(g) && |depths| == |g| == |dist| == |tasks|
  {
    forall x :: 0 <= x < |g| ==> TaskOk(g, root, dist, d, depths, x, tasks[x])
  }

  /** Edges of the levels above lead to visited vertices. */
  ghost predicate AboveSeen(g: Adj, dist: seq<int>, d: nat, depths: seq<int>) {
    |depths| == |g| == |dist| && Valid(g)
    && forall x, i :: 0 <= x < |g| && 0 <= i < |g[x]| && 0 <= dist[x] < d ==> depths[g[x][i]] >= 0
  }

  ghost predicate Inv(g: Adj, prefix: seq<nat>, root: nat, dist: seq<int>, d: nat, window: seq<nat>, s: State) {
    && Shape(g, s) && |dist| == |g| && Depths(g, root, dist) && Level(dist, window, d)
    && Known(dist, s.depths, d) && Found(s.depths, d, s.pushed)
    && CountsSoFar(g, root, dist, d, s.tasks, s.counts)
    && BitsSoFar(g, prefix, dist, d, s.tasks, s.succ)
    && TasksOk(g, root, dist, d, s.depths, s.tasks)
    && AboveSeen(g, dist, d, s.depths)
  }

  // ---------------------------------------------------------------- each step

  /** Visited stays visited, at the same depth. */
  predicate Later(depths: seq<int>, depths': seq<int>) {
    |depths'| == |depths| && forall v :: 0 <= v < |depths| ==> depths[v] != -1 ==> depths'[v] == depths[v]
  }

  lemma TasksCarry(g: Adj, root: nat, dist: seq<int>, d: nat, depths: seq<int>, depths': seq<int>, tasks: seq<Task>,
                   tasks': seq<Task>, x: nat)
    requires Valid(g) && |depths| == |g| == |dist| == |tasks| && TasksOk(g, root, dist, d, depths, tasks)
    requires Later(depths, depths') && x < |g| == |tasks'| && tasks' == tasks[x := tasks'[x]]
    requires TaskOk(g, root, dist, d, depths', x, tasks'[x])
    ensures TasksOk(g, root, dist, d, depths', tasks')
  {
    hide Walks;
    forall y | 0 <= y < |g| ensures TaskOk(g, root, dist, d, depths', y, tasks'[y]) {
      assert TaskOk(g, root, dist, d, depths, y, tasks[y]);
    }
  }

  /** A step inside an edge that touches no count. */
  lemma SameAdded(g: Adj, root: nat, dist: seq<int>, d: nat, tasks: seq<Task>, x: nat, t: Task, counts: seq<nat>)
    requires x < |tasks| == |g| && t.j == tasks[x].j && CountsSoFar(g, root, dist, d, tasks, counts)
    ensures CountsSoFar(g, root, dist, d, tasks[x := t], counts)
  {
    hide Walks, Mult;
    forall v | 0 <= v < |g|
      ensures Gained(g, root, d, tasks[x := t], v) == Gained(g, root, d, tasks, v)
    {
      SumIntEq(|g|, (y: nat) => Added(g, root, d, tasks[x := t], v, y), (y: nat) => Added(g, root, d, tasks, v, y));
    }
  }

  lemma {:induction false} SumIntUpdate(n: nat, f: nat -> int, h: nat -> int, x: nat)
    requires x < n && forall y: nat :: y < n && y != x ==> f(y) == h(y)
    ensures SumInt(n, h) == SumInt(n, f) - f(x) + h(x)
  {
    if x == n - 1 {
      SumIntEq(n - 1, f, h);
    } else {
      SumIntUpdate(n - 1, f, h, x);
    }
  }

  /** Moving on past an edge adds x's walks to that edge's end only. */
  lemma AddedNext(g: Adj, root: nat, d: nat, tasks: seq<Task>, x: nat, v: nat)
    requires x < |tasks| == |g| && tasks[x].j < |g[x]|
    ensures Gained(g, root, d, tasks[x := Task(tasks[x].j + 1, AtEdge)], v)
            == Gained(g, root, d, tasks, v) + if g[x][tasks[x].j] == v then Walks(g, root, x, d) else 0
  {
    hide Walks;
    var tasks' := tasks[x := Task(tasks[x].j + 1, AtEdge)];
    MultStep(Walks(g, root, x, d), Mult(g, x, v, tasks[x].j), if g[x][tasks[x].j] == v then 1 else 0);
    SumIntUpdate(|g|, (y: nat) => Added(g, root, d, tasks, v, y), (y: nat) => Added(g, root, d, tasks', v, y), x);
  }

  lemma CountsNext(g: Adj, root: nat, dist: seq<int>, d: nat, tasks: seq<Task>, x: nat, counts: seq<nat>)
    requires Valid(g) && x < |tasks| == |g| && tasks[x].j < |g[x]| && CountsSoFar(g, root, dist, d, tasks, counts)
    ensures var v, tasks' := g[x][tasks[x].j], tasks[x := Task(tasks[x].j + 1, AtEdge)];
            (0 <= dist[v] <= d ==> CountsSoFar(g, root, dist, d, tasks', counts)) &&
            (dist[v] > d ==> CountsSoFar(g, root, dist, d, tasks', counts[v := counts[v] + Walks(g, root, x, d)]))
  {
    hide Walks, Mult, Gained;
    forall v: nat | v < |g|
      ensures Gained(g, root, d, tasks[x := Task(tasks[x].j + 1, AtEdge)], v)
              == Gained(g, root, d, tasks, v) + if g[x][tasks[x].j] == v then Walks(g, root, x, d) else 0
    {
      AddedNext(g, root, d, tasks, x, v);
    }
  }

  /** Bits do not change while no edge passes its bit. */
  lemma SameMarks(g: Adj, prefix: seq<nat>, dist: seq<int>, d: nat, tasks: seq<Task>, tasks': seq<Task>,
                  succ: seq<bool>)
    requires BitsSoFar(g, prefix, dist, d, tasks, succ)
    requires forall x, i :: 0 <= x < |g| && 0 <= i < |g[x]| ==>
      (Passed(dist, d, tasks', x, i) && OneDown(g, dist, x, i) <==>
       Passed(dist, d, tasks, x, i) && OneDown(g, dist, x, i))
    ensures BitsSoFar(g, prefix, dist, d, tasks', succ)
  {
    hide EdgeIds, Bit, Passed, OneDown;
  }

  lemma MarkNext(g: Adj, prefix: seq<nat>, dist: seq<int>, d: nat, tasks: seq<Task>, succ: seq<bool>, x: nat)
    requires Valid(g) && x < |tasks| == |g| && tasks[x].j < |g[x]| && tasks[x].at.SetBit?
    requires BitsSoFar(g, prefix, dist, d, tasks, succ) && OneDown(g, dist, x, tasks[x].j)
    ensures x < |prefix| && GetEdgeId(prefix, x, tasks[x].j) < |succ|
    ensures BitsSoFar(g, prefix, dist, d, tasks[x := Task(tasks[x].j, Load)],
                      succ[GetEdgeId(prefix, x, tasks[x].j) := true])
  {
    hide OneDown;
    var u, j, tasks' := x, tasks[x].j, tasks[x := Task(tasks[x].j, Load)];
    EdgeIdInRange(g, prefix, u, j);
    var succ' := succ[GetEdgeId(prefix, u, j) := true];
    forall y, i | 0 <= y < |g| && 0 <= i < |g[y]|
      ensures Bit(prefix, succ', y, i) <==> Passed(dist, d, tasks', y, i) && OneDown(g, dist, y, i)
    {
      assert Bit(prefix, succ, y, i) <==> Passed(dist, d, tasks, y, i) && OneDown(g, dist, y, i);
      if GetEdgeId(prefix, y, i) == GetEdgeId(prefix, u, j) {
        EdgeIdsInjective(g, prefix, y, i, u, j);
      } else {
        assert Bit(prefix, succ', y, i) == Bit(prefix, succ, y, i);
      }
    }
  }

  /** What is known of the current edge of a window vertex. */
  lemma EdgeFacts(g: Adj, prefix: seq<nat>, root: nat, dist: seq<int>, d: nat, window: seq<nat>, s: State, x: nat)
    requires Inv(g, prefix, root, dist, d, window, s) && Enabled(g, window, s, x)
    ensures dist[x] == d && |prefix| > |g| && Shape(g, s)
    ensures var v := g[x][s.tasks[x].j];
            && 0 <= dist[v] <= d + 1 && (s.depths[v] == -1 || s.depths[v] == dist[v])
            && (s.depths[v] == -1 ==> dist[v] == d + 1)
    ensures TaskOk(g, root, dist, d, s.depths, x, s.tasks[x])
  {
    DistsStep(g, root, dist, x, s.tasks[x].j);
  }

  /** A step that changes only the point of x. */
  lemma MoveKeeps(g: Adj, prefix: seq<nat>, root: nat, dist: seq<int>, d: nat, window: seq<nat>, s: State, x: nat,
                  at: Point)
    requires Inv(g, prefix, root, dist, d, window, s) && Enabled(g, window, s, x) && !s.tasks[x].at.SetBit?
    requires (s.tasks[x].at.Load? || s.tasks[x].at.Add?) <==> (at.Load? || at.Add?)
    requires TaskOk(g, root, dist, d, s.depths, x, Task(s.tasks[x].j, at))
    ensures Inv(g, prefix, root, dist, d, window, s.(tasks := s.tasks[x := Task(s.tasks[x].j, at)]))
  {
    hide Walks, Mult, OneDown, Bit, EdgeIds, Depths, Level, CountsSoFar, BitsSoFar, TasksOk, AboveSeen, Known, Found,
      TaskOk;
    var t := Task(s.tasks[x].j, at);
    SameAdded(g, root, dist, d, s.tasks, x, t, s.counts);
    SameMarks(g, prefix, dist, d, s.tasks, s.tasks[x := t], s.succ);
    LaterRefl(s.depths);
    TasksCarry(g, root, dist, d, s.depths, s.depths, s.tasks, s.tasks[x := t], x);
  }

  lemma LaterRefl(depths: seq<int>)
    ensures Later(depths, depths)
  {
  }

  lemma ReadKeeps(g: Adj, prefix: seq<nat>, root: nat, dist: seq<int>, d: nat, window: seq<nat>, s: State, x: nat)
    requires Inv(g, prefix, root, dist, d, window, s) && Enabled(g, window, s, x) && |prefix| > |g|
    requires var t := s.tasks[x];
             t.at.AtEdge? || (t.at.Swap? && s.depths[g[x][t.j]] != -1) || (t.at.Test? && s.depths[g[x][t.j]] == d + 1)
             || t.at.Load?
    ensures Inv(g, prefix, root, dist, d, window, Step(g, prefix, window, d + 1, s, x))
  {
    hide Walks, Mult, OneDown, Bit, EdgeIds, Depths, Level, BitsSoFar, TasksOk, AboveSeen, Known, Found;
    EdgeFacts(g, prefix, root, dist, d, window, s, x);
    MoveKeeps(g, prefix, root, dist, d, window, s, x, Step(g, prefix, window, d + 1, s, x).tasks[x].at);
  }

  /** A successful swap of a depth. */
  lemma ClaimKeeps(g: Adj, prefix: seq<nat>, root: nat, dist: seq<int>, d: nat, window: seq<nat>, s: State, x: nat)
    requires Inv(g, prefix, root, dist, d, window, s) && Enabled(g, window, s, x) && |prefix| > |g|
    requires s.tasks[x].at.Swap? && s.depths[g[x][s.tasks[x].j]] == -1
    ensures Inv(g, prefix, root, dist, d, window, Step(g, prefix, window, d + 1, s, x))
  {
    hide Walks, Mult, OneDown, Bit, EdgeIds, Depths, Level, CountsSoFar, BitsSoFar, TasksOk, TaskOk, Found;
    EdgeFacts(g, prefix, root, dist, d, window, s, x);
    var t := s.tasks[x];
    var v := g[x][t.j];
    var depths' := s.depths[v := d + 1];
    ClaimedTask(g, root, dist, d, s.depths, x, t);
    ClaimFound(s.depths, d, s.pushed, v);
    SameAdded(g, root, dist, d, s.tasks, x, Task(t.j, Test), s.counts);
    SameMarks(g, prefix, dist, d, s.tasks, s.tasks[x := Task(t.j, Test)], s.succ);
    TasksCarry(g, root, dist, d, s.depths, depths', s.tasks, s.tasks[x := Task(t.j, Test)], x);
  }

  lemma ClaimedTask(g: Adj, root: nat, dist: seq<int>, d: nat, depths: seq<int>, x: nat, t: Task)
    requires Valid(g) && |depths| == |g| == |dist| && x < |g| && TaskOk(g, root, dist, d, depths, x, t)
    requires t.at.Swap?
    ensures t.j < |g[x]| && TaskOk(g, root, dist, d, depths[g[x][t.j] := d + 1], x, Task(t.j, Test))
  {
  }

  lemma ClaimFound(depths: seq<int>, d: nat, pushed: seq<nat>, v: nat)
    requires v < |depths| && depths[v] == -1 && Found(depths, d, pushed)
    ensures Found(depths[v := d + 1], d, pushed + [v])
  {
    assert v !in pushed;
    assert Distinct(pushed + [v]);
  }

  /** Setting the bit of an edge. */
  lemma SetBitKeeps(g: Adj, prefix: seq<nat>, root: nat, dist: seq<int>, d: nat, window: seq<nat>, s: State, x: nat)
    requires Inv(g, prefix, root, dist, d, window, s) && Enabled(g, window, s, x) && |prefix| > |g|
    requires s.tasks[x].at.SetBit?
    ensures Inv(g, prefix, root, dist, d, window, Step(g, prefix, window, d + 1, s, x))
  {
    hide Walks, Mult, Bit, EdgeIds, Depths, Level, CountsSoFar, BitsSoFar, TasksOk, AboveSeen, Known, Found;
    EdgeFacts(g, prefix, root, dist, d, window, s, x);
    var t := s.tasks[x];
    SameAdded(g, root, dist, d, s.tasks, x, Task(t.j, Load), s.counts);
    MarkNext(g, prefix, dist, d, s.tasks, s.succ, x);
    LaterRefl(s.depths);
    TasksCarry(g, root, dist, d, s.depths, s.depths, s.tasks, s.tasks[x := Task(t.j, Load)], x);
  }

  /** The edge is done and there was nothing to do, for an end that is not one level down. */
  lemma PassOverKeeps(g: Adj, prefix: seq<nat>, root: nat, dist: seq<int>, d: nat, window: seq<nat>, s: State, x: nat)
    requires Inv(g, prefix, root, dist, d, window, s) && Enabled(g, window, s, x) && |prefix| > |g|
    requires s.tasks[x].at.Test? && s.depths[g[x][s.tasks[x].j]] != d + 1
    ensures Inv(g, prefix, root, dist, d, window, Step(g, prefix, window, d + 1, s, x))
  {
    hide Walks, Mult, Passed, OneDown, Depths, Level, CountsSoFar, BitsSoFar, TasksOk, TaskOk, AboveSeen, Known, Found;
    EdgeFacts(g, prefix, root, dist, d, window, s, x);
    FinishTask(g, root, dist, d, s.depths, x, s.tasks[x]);
    NotOneDown(g, dist, x, s.tasks[x].j);
    CountsNext(g, root, dist, d, s.tasks, x, s.counts);
    FinishMarks(g, prefix, dist, d, s.tasks, s.succ, x);
    LaterRefl(s.depths);
    TasksCarry(g, root, dist, d, s.depths, s.depths, s.tasks, s.tasks[x := Task(s.tasks[x].j + 1, AtEdge)], x);
  }

  /** The count is added. */
  lemma AddKeeps(g: Adj, prefix: seq<nat>, root: nat, dist: seq<int>, d: nat, window: seq<nat>, s: State, x: nat)
    requires Inv(g, prefix, root, dist, d, window, s) && Enabled(g, window, s, x) && |prefix| > |g|
    requires s.tasks[x].at.Add?
    ensures Inv(g, prefix, root, dist, d, window, Step(g, prefix, window, d + 1, s, x))
  {
    hide Walks, Mult, Passed, OneDown, Depths, Level, CountsSoFar, BitsSoFar, TasksOk, TaskOk, AboveSeen, Known, Found;
    EdgeFacts(g, prefix, root, dist, d, window, s, x);
    FinishTask(g, root, dist, d, s.depths, x, s.tasks[x]);
    CountsNext(g, root, dist, d, s.tasks, x, s.counts);
    FinishMarks(g, prefix, dist, d, s.tasks, s.succ, x);
    LaterRefl(s.depths);
    TasksCarry(g, root, dist, d, s.depths, s.depths, s.tasks, s.tasks[x := Task(s.tasks[x].j + 1, AtEdge)], x);
  }

  lemma FinishTask(g: Adj, root: nat, dist: seq<int>, d: nat, depths: seq<int>, x: nat, t: Task)
    requires Valid(g) && |depths| == |g| == |dist| && x < |g| && TaskOk(g, root, dist, d, depths, x, t)
    requires t.at.Test? || t.at.Add?
    ensures t.j < |g[x]| && TaskOk(g, root, dist, d, depths, x, Task(t.j + 1, AtEdge)) && depths[g[x][t.j]] >= 0
    ensures t.at.Add? ==> t.at.count == Walks(g, root, x, d) && depths[g[x][t.j]] == d + 1
  {
  }

  lemma NotOneDown(g: Adj, dist: seq<int>, x: nat, j: nat)
    requires Valid(g) && x < |g| == |dist| && j < |g[x]|
    ensures OneDown(g, dist, x, j) <==> dist[g[x][j]] == dist[x] + 1
  {
  }

  lemma FinishMarks(g: Adj, prefix: seq<nat>, dist: seq<int>, d: nat, tasks: seq<Task>, succ: seq<bool>, x: nat)
    requires x < |tasks| == |g| && tasks[x].j < |g[x]| && BitsSoFar(g, prefix, dist, d, tasks, succ)
    requires tasks[x].at.Add? || !OneDown(g, dist, x, tasks[x].j)
    ensures BitsSoFar(g, prefix, dist, d, tasks[x := Task(tasks[x].j + 1, AtEdge)], succ)
  {
    hide OneDown, Bit, EdgeIds, BitsSoFar;
    BitsShape(g, prefix, dist, d, tasks, succ);
    SameMarks(g, prefix, dist, d, tasks, tasks[x := Task(tasks[x].j + 1, AtEdge)], succ);
  }

  lemma BitsShape(g: Adj, prefix: seq<nat>, dist: seq<int>, d: nat, tasks: seq<Task>, succ: seq<bool>)
    requires BitsSoFar(g, prefix, dist, d, tasks, succ)
    ensures |dist| == |g|
  {
  }

  lemma StepKeeps(g: Adj, prefix: seq<nat>, root: nat, dist: seq<int>, d: nat, window: seq<nat>, s: State, x: nat)
    requires Inv(g, prefix, root, dist, d, window, s) && Enabled(g, window, s, x) && |prefix| > |g|
    ensures Inv(g, prefix, root, dist, d, window, Step(g, prefix, window, d + 1, s, x))
  {
    hide Inv, Step;
    EdgeFacts(g, prefix, root, dist, d, window, s, x);
    var t := s.tasks[x];
    var v := g[x][t.j];
    if t.at.SetBit? {
      SetBitKeeps(g, prefix, root, dist, d, window, s, x);
    } else if t.at.Add? {
      AddKeeps(g, prefix, root, dist, d, window, s, x);
    } else if t.at.Test? && s.depths[v] != d + 1 {
      PassOverKeeps(g, prefix, root, dist, d, window, s, x);
    } else if t.at.Swap? && s.depths[v] == -1 {
      ClaimKeeps(g, prefix, root, dist, d, window, s, x);
    } else {
      ReadKeeps(g, prefix, root, dist, d, window, s, x);
    }
  }

  lemma {:induction false} RunKeepsInv(g: Adj, prefix: seq<nat>, root: nat, dist: seq<int>, d: nat, window: seq<nat>,
                                       s: State, schedule: seq<nat>)
    requires |prefix| > |g| && Shape(g, s) && Inv(g, prefix, root, dist, d, window, s)
    requires Legal(g, prefix, window, d + 1, s, schedule)
    ensures Inv(g, prefix, root, dist, d, window, Exec(g, prefix, window, d + 1, s, schedule))
    decreases |schedule|
  {
    hide Inv, Step;
    if schedule != [] {
      StepKeeps(g, prefix, root, dist, d, window, s, schedule[0]);
      RunKeepsInv(g, prefix, root, dist, d, window, Step(g, prefix, window, d + 1, s, schedule[0]), schedule[1..]);
    }
  }

  /** Actions left, as a task's j and point tell. */
  function TaskLeft(g: Adj, x: nat, t: Task): nat {
    var stage := match t.at
      case AtEdge => 0
      case Swap => 1
      case Test => 2
      case SetBit => 3
      case Load => 4
      case Add(_) => 5;
    if x < |g| && t.j < |g[x]| then 6 * (|g[x]| - t.j) - stage else 0
  }

  function Lefts(g: Adj, s: State): seq<nat> {
    seq(|s.tasks|, x requires 0 <= x < |s.tasks| => TaskLeft(g, x, s.tasks[x]))
  }

  /** Every action, a failed swap included, lowers one sum: each schedule ends. */
  lemma StepDescends(g: Adj, prefix: seq<nat>, window: seq<nat>, depth: nat, s: State, x: nat)
    requires Shape(g, s) && Enabled(g, window, s, x) && |prefix| > |g|
    ensures SumSeq(Lefts(g, Step(g, prefix, window, depth, s, x))) < SumSeq(Lefts(g, s))
  {
    var before, after := Lefts(g, s), Lefts(g, Step(g, prefix, window, depth, s, x));
    assert after == before[x := after[x]];
    SumUpdate(before, x, after[x]);
  }

  /** Any run can be carried on until no window vertex has an edge left. */
  lemma {:induction false} RunEnds(g: Adj, prefix: seq<nat>, window: seq<nat>, depth: nat, s: State)
    returns (schedule: seq<nat>)
    requires Shape(g, s) && |prefix| > |g|
    ensures Legal(g, prefix, window, depth, s, schedule)
    ensures forall x :: x in window ==> !Enabled(g, window, Exec(g, prefix, window, depth, s, schedule), x)
    decreases SumSeq(Lefts(g, s))
  {
    hide Lefts, Step;
    if x: nat :| x in window && Enabled(g, window, s, x) {
      StepDescends(g, prefix, window, depth, s, x);
      var rest := RunEnds(g, prefix, window, depth, Step(g, prefix, window, depth, s, x));
      schedule := [x] + rest;
      assert schedule[1..] == rest;
    } else {
      schedule := [];
    }
  }

  // ---------------------------------------------------------------- one level

  function Start(g: Adj, w: Wave): State {
    State(w.depths, w.counts, w.succ, [], seq(|g|, _ => Task(0, AtEdge)))
  }

  /** Some complete schedule of the window's tasks turns one level's arrays into the next's and pushes what is
      in w'.found. */
  ghost predicate Spreads(g: Adj, prefix: seq<nat>, window: seq<nat>, depth: nat, w: Wave, w': Wave) {
    exists schedule :: SpreadsBy(g, prefix, window, depth, w, w', schedule)
  }

  ghost predicate SpreadsBy(g: Adj, prefix: seq<nat>, window: seq<nat>, depth: nat, w: Wave, w': Wave,
                            schedule: seq<nat>) {
    Shape(g, Start(g, w)) && |prefix| > |g| && Legal(g, prefix, window, depth, Start(g, w), schedule) &&
    var e := Exec(g, prefix, window, depth, Start(g, w), schedule);
    Wave(e.depths, e.counts, e.succ, e.pushed) == w' && forall x :: x in window ==> !Enabled(g, window, e, x)
  }

  lemma StartInv(g: Adj, prefix: seq<nat>, root: nat, dist: seq<int>, d: nat, window: seq<nat>, w: Wave)
    requires Valid(g) && Depths(g, root, dist) && Level(dist, window, d) && AtStart(g, prefix, root, dist, d, w)
    requires Shape(g, Start(g, w))
    ensures Inv(g, prefix, root, dist, d, window, Start(g, w))
  {
    hide Walks, Added, Extended, Bit, OneDown, EdgeIds, Gathered, Gained;
    var s := Start(g, w);
    forall v | 0 <= v < |g| ensures Gained(g, root, d, s.tasks, v) == 0 {
      StartGains(g, root, d, s.tasks, v);
    }
    forall v | 0 <= v < |g| ensures Gathered(g, root, dist, d, Below(dist, d), v) == 0 {
      BelowGathersNothing(g, root, dist, d, v);
    }
  }

  lemma StartGains(g: Adj, root: nat, d: nat, tasks: seq<Task>, v: nat)
    requires forall x :: 0 <= x < |tasks| ==> tasks[x].j == 0
    ensures Gained(g, root, d, tasks, v) == 0
  {
    hide Walks;
    SumIntZero(|g|, (x: nat) => Added(g, root, d, tasks, v, x));
  }

  lemma BelowGathersNothing(g: Adj, root: nat, dist: seq<int>, d: nat, v: nat)
    ensures Gathered(g, root, dist, d, Below(dist, d), v) == 0
  {
    hide Extended;
    SumIntZero(|g|, (x: nat) =>
      if x in Below(dist, d) && x < |dist| && dist[x] == d then Extended(g, root, v, d, x) else 0);
  }

  /** All paths that were added are all paths over level d. */
  lemma GainedAll(g: Adj, prefix: seq<nat>, root: nat, dist: seq<int>, d: nat, window: seq<nat>, s: State, v: nat)
    requires Inv(g, prefix, root, dist, d, window, s) && forall x :: x in window ==> !Enabled(g, window, s, x)
    ensures Gained(g, root, d, s.tasks, v) == Gathered(g, root, dist, d, Below(dist, d + 1), v)
  {
    hide Walks, Added, Extended;
    var done := Below(dist, d + 1);
    forall x: nat | x < |g|
      ensures Added(g, root, d, s.tasks, v, x)
              == if x in done && x < |dist| && dist[x] == d then Extended(g, root, v, d, x) else 0
    {
      assert TaskOk(g, root, dist, d, s.depths, x, s.tasks[x]);
      assert dist[x] == d ==> !Enabled(g, window, s, x);
      AddedAll(g, root, d, s.tasks, v, x);
    }
    SumIntEq(|g|, (x: nat) => Added(g, root, d, s.tasks, v, x),
             (x: nat) => if x in done && x < |dist| && dist[x] == d then Extended(g, root, v, d, x) else 0);
  }

  lemma AddedAll(g: Adj, root: nat, d: nat, tasks: seq<Task>, v: nat, x: nat)
    requires x < |g| == |tasks|
    ensures tasks[x].j == |g[x]| ==> Added(g, root, d, tasks, v, x) == Extended(g, root, v, d, x)
    ensures tasks[x].j == 0 ==> Added(g, root, d, tasks, v, x) == 0
  {
    hide Walks;
  }

  lemma EndRests(g: Adj, prefix: seq<nat>, root: nat, dist: seq<int>, d: nat, window: seq<nat>, s: State)
    requires |g| > 0 && Inv(g, prefix, root, dist, d, window, s)
    requires forall x :: x in window ==> !Enabled(g, window, s, x)
    ensures Resting(g, prefix, root, dist, d, Below(dist, d + 1), Wave(s.depths, s.counts, s.succ, s.pushed))
  {
    hide Walks, Depths, Gathered, Gained, OneDown;
    var done := Below(dist, d + 1);
    forall v | 0 <= v < |g| && !(0 <= dist[v] <= d)
      ensures s.counts[v] == Gathered(g, root, dist, d, done, v) + Walks(g, root, 0, d) * Mult(g, 0, v, 0)
    {
      GainedAll(g, prefix, root, dist, d, window, s, v);
    }
    forall x, i | 0 <= x < |g| && 0 <= i < |g[x]|
      ensures Passed(dist, d, s.tasks, x, i) <==> x in done
      ensures x in done ==> s.depths[g[x][i]] >= 0
    {
      assert TaskOk(g, root, dist, d, s.depths, x, s.tasks[x]);
      assert dist[x] == d ==> !Enabled(g, window, s, x);
    }
  }

  /** However the threads interleave, the next level is found exactly, each vertex pushed once, path counts are
      final up to it and bits are exact up to it. */
  lemma SpreadExactly(g: Adj, prefix: seq<nat>, root: nat, dist: seq<int>, d: nat, window: seq<nat>, w: Wave, w': Wave)
    requires Valid(g) && root < |g| && Depths(g, root, dist) && Level(dist, window, d)
    requires AtStart(g, prefix, root, dist, d, w) && Spreads(g, prefix, window, d + 1, w, w')
    ensures AtStart(g, prefix, root, dist, d + 1, w'.(found := []))
    ensures Level(dist, w'.found, d + 1) && Distinct(w'.found)
  {
    hide AtStart, Depths, Level, Inv;
    var schedule :| SpreadsBy(g, prefix, window, d + 1, w, w', schedule);
    StartInv(g, prefix, root, dist, d, window, w);
    RunKeepsInv(g, prefix, root, dist, d, window, Start(g, w), schedule);
    EndRests(g, prefix, root, dist, d, window, Exec(g, prefix, window, d + 1, Start(g, w), schedule));
    LevelDone(g, prefix, root, dist, d, w');
    assert Found(w'.depths, d, w'.found);
  }

  // ---------------------------------------------------------------- the whole search

  /** Level by level, each in its own interleaving; a window is what was pushed before, in any order. */
  ghost predicate Search(g: Adj, prefix: seq<nat>, waves: seq<Wave>, windows: seq<seq<nat>>) {
    && |waves| == |windows| > 0
    && forall k :: 0 <= k < |waves| - 1 ==> Turn(g, prefix, windows[k], k, waves[k], waves[k + 1], windows[k + 1])
  }

  ghost predicate Turn(g: Adj, prefix: seq<nat>, window: seq<nat>, d: nat, w: Wave, w': Wave, next: seq<nat>) {
    && w'.found == []
    && exists pushed :: Spreads(g, prefix, window, d + 1, w, w'.(found := pushed)) && Permuted(pushed, next)
  }

  /** From any arrays a level can be spread. */
  lemma CanSpread(g: Adj, prefix: seq<nat>, window: seq<nat>, d: nat, w: Wave) returns (w': Wave, next: seq<nat>)
    requires Valid(g) && |w.depths| == |w.counts| == |g| && |prefix| > |g|
    ensures Turn(g, prefix, window, d, w, w', next)
  {
    hide Step;
    var schedule := RunEnds(g, prefix, window, d + 1, Start(g, w));
    var e := Exec(g, prefix, window, d + 1, Start(g, w), schedule);
    next := e.pushed;
    w' := Wave(e.depths, e.counts, e.succ, []);
    assert SpreadsBy(g, prefix, window, d + 1, w, w'.(found := next), schedule);
    assert Permuted(next, next);
  }

  lemma SameLevel(dist: seq<int>, pushed: seq<nat>, window: seq<nat>, d: int)
    requires Level(dist, pushed, d) && Distinct(pushed) && Permuted(pushed, window)
    ensures Level(dist, window, d) && Distinct(window)
  {
    PermutedDistinct(pushed, window);
    forall v: nat ensures v in window <==> v in pushed {
      assert v in window <==> v in multiset(window);
      assert v in pushed <==> v in multiset(pushed);
    }
  }

  lemma {:induction false} SearchReaches(g: Adj, prefix: seq<nat>, root: nat, dist: seq<int>, waves: seq<Wave>,
                                         windows: seq<seq<nat>>, k: nat)
    requires Valid(g) && root < |g| && Depths(g, root, dist) && Search(g, prefix, waves, windows) && k < |waves|
    requires AtStart(g, prefix, root, dist, 0, waves[0]) && Level(dist, windows[0], 0) && Distinct(windows[0])
    ensures AtStart(g, prefix, root, dist, k, waves[k]) && Level(dist, windows[k], k) && Distinct(windows[k])
  {
    hide AtStart, Level, Depths, Spreads, Permuted, Distinct;
    if k > 0 {
      SearchReaches(g, prefix, root, dist, waves, windows, k - 1);
      assert Turn(g, prefix, windows[k - 1], k - 1, waves[k - 1], waves[k], windows[k]);
      var pushed :| Spreads(g, prefix, windows[k - 1], k, waves[k - 1], waves[k].(found := pushed))
                    && Permuted(pushed, windows[k]);
      SpreadExactly(g, prefix, root, dist, k - 1, windows[k - 1], waves[k - 1], waves[k].(found := pushed));
      SameLevel(dist, pushed, windows[k], k);
    }
  }

  /** And level after level, as many as wanted. */
  lemma {:induction false} CanSearch(g: Adj, prefix: seq<nat>, w0: Wave, window0: seq<nat>, k: nat)
    returns (waves: seq<Wave>, windows: seq<seq<nat>>)
    requires Valid(g) && |w0.depths| == |w0.counts| == |g| && |prefix| > |g|
    ensures Search(g, prefix, waves, windows) && |waves| == k + 1 && waves[0] == w0 && windows[0] == window0
    ensures |waves[k].depths| == |waves[k].counts| == |g|
  {
    hide Turn;
    if k == 0 {
      waves, windows := [w0], [window0];
    } else {
      var before, fronts := CanSearch(g, prefix, w0, window0, k - 1);
      var w, next := CanSpread(g, prefix, fronts[k - 1], k - 1, before[k - 1]);
      TurnShape(g, prefix, fronts[k - 1], k - 1, before[k - 1], w, next);
      waves, windows := before + [w], fronts + [next];
      forall i | 0 <= i < k ensures Turn(g, prefix, windows[i], i, waves[i], waves[i + 1], windows[i + 1]) {
        if i < k - 1 {
          assert Turn(g, prefix, fronts[i], i, before[i], before[i + 1], fronts[i + 1]);
        }
      }
    }
  }

  lemma TurnShape(g: Adj, prefix: seq<nat>, window: seq<nat>, d: nat, w: Wave, w': Wave, next: seq<nat>)
    requires Turn(g, prefix, window, d, w, w', next)
    ensures |w'.depths| == |w'.counts| == |g|
  {
  }

  /** There are no more levels than vertices before the window is empty. */
  lemma SearchEnds(g: Adj, prefix: seq<nat>, root: nat, dist: seq<int>, waves: seq<Wave>, windows: seq<seq<nat>>,
                   k: nat)
    requires Valid(g) && root < |g| && Depths(g, root, dist) && Search(g, prefix, waves, windows)
    requires AtStart(g, prefix, root, dist, 0, waves[0]) && Level(dist, windows[0], 0) && Distinct(windows[0])
    requires |g| <= k < |waves|
    ensures windows[k] == []
  {
    hide AtStart;
    SearchReaches(g, prefix, root, dist, waves, windows, k);
    if windows[k] != [] {
      var v := windows[k][0];
      assert v in windows[k];
      LevelBound(g, root, v, k);
    }
  }

  // ---------------------------------------------------------------- the queue and its depth index

  /** Everything queued: the windows one behind the other. */
  function Queue(windows: seq<seq<nat>>): seq<nat> {
    if windows == [] then [] else Queue(windows[..|windows| - 1]) + windows[|windows| - 1]
  }

  /** Where each window starts, behind the entry made before the source was a window. */
  function DepthIndex(windows: seq<seq<nat>>): seq<nat> {
    if windows == [] then [0] else DepthIndex(windows[..|windows| - 1]) + [|Queue(windows[..|windows| - 1])|]
  }

  lemma QueueNext(windows: seq<seq<nat>>, k: nat)
    requires k < |windows|
    ensures Queue(windows[..k + 1]) == Queue(windows[..k]) + windows[k]
    ensures DepthIndex(windows[..k + 1]) == DepthIndex(windows[..k]) + [|Queue(windows[..k])|]
  {
    assert windows[..k + 1][..k] == windows[..k];
  }

  lemma {:induction false} DepthIndexLength(windows: seq<seq<nat>>)
    ensures |DepthIndex(windows)| == |windows| + 1
  {
    if windows != [] {
      DepthIndexLength(windows[..|windows| - 1]);
    }
  }

  lemma NothingQueued()
    ensures Queue([]) == [] && DepthIndex([]) == [0]
  {
  }

  /** The index entries delimit the levels in what is queued, and nothing is queued twice. */
  lemma {:induction false} QueueLists(g: Adj, prefix: seq<nat>, root: nat, dist: seq<int>, waves: seq<Wave>,
                                      windows: seq<seq<nat>>, k: nat)
    requires Valid(g) && root < |g| && Depths(g, root, dist) && Search(g, prefix, waves, windows) && k < |waves|
    requires AtStart(g, prefix, root, dist, 0, waves[0]) && Level(dist, windows[0], 0) && Distinct(windows[0])
    ensures LevelStarts(dist, Queue(windows[..k + 1]), DepthIndex(windows[..k + 1]))
    ensures QueuedUpTo(dist, Queue(windows[..k + 1]), k)
  {
    hide AtStart, Level, Depths, Search, Distinct, Queue, DepthIndex;
    SearchShape(g, prefix, waves, windows);
    SearchReaches(g, prefix, root, dist, waves, windows, k);
    QueueNext(windows, k);
    NothingQueued();
    if k == 0 {
      assert windows[..0] == [] && [] + windows[0] == windows[0];
      FirstQueued(dist, windows[0]);
    } else {
      QueueLists(g, prefix, root, dist, waves, windows, k - 1);
      SearchReaches(g, prefix, root, dist, waves, windows, k - 1);
      QueueNext(windows, k - 1);
      DepthIndexLength(windows[..k - 1]);
      DepthIndexLength(windows[..k]);
      var q, q', idx := Queue(windows[..k]), Queue(windows[..k + 1]), DepthIndex(windows[..k]);
      assert q'[idx[k]..|q|] == windows[k - 1];
      NextSlice(dist, q, q', idx, |q|);
      WindowQueued(dist, q, windows[k], k);
    }
  }

  lemma SearchShape(g: Adj, prefix: seq<nat>, waves: seq<Wave>, windows: seq<seq<nat>>)
    requires Search(g, prefix, waves, windows)
    ensures |waves| == |windows| > 0
  {
  }

  lemma FirstQueued(dist: seq<int>, window: seq<nat>)
    requires Level(dist, window, 0) && Distinct(window)
    ensures LevelStarts(dist, window, [0, 0]) && QueuedUpTo(dist, window, 0)
  {
  }

  lemma WindowQueued(dist: seq<int>, q: seq<nat>, window: seq<nat>, k: nat)
    requires k > 0 && QueuedUpTo(dist, q, k - 1) && Level(dist, window, k) && Distinct(window)
    ensures QueuedUpTo(dist, q + window, k)
  {
    QueueGrows(dist, q, k - 1, window);
  }

  /** The arrays before the search: the source alone known, with one path. */
  predicate Fresh(g: Adj, prefix: seq<nat>, root: nat, w: Wave) {
    && |w.depths| == |w.counts| == |g| && w.found == [] && |prefix| > |g| && |w.succ| >= prefix[|g|]
    && (forall v :: 0 <= v < |g| ==> w.depths[v] == if v == root then 0 else -1)
    && (forall v :: 0 <= v < |g| ==> w.counts[v] == if v == root then 1 else 0)
    && forall i :: 0 <= i < |w.succ| ==> !w.succ[i]
  }

  lemma {:induction false} SuccLength(g: Adj, prefix: seq<nat>, waves: seq<Wave>, windows: seq<seq<nat>>, k: nat)
    requires Search(g, prefix, waves, windows) && k < |waves|
    ensures |waves[k].succ| == |waves[0].succ|
  {
    hide Spreads;
    if k > 0 {
      SuccLength(g, prefix, waves, windows, k - 1);
      assert Turn(g, prefix, windows[k - 1], k - 1, waves[k - 1], waves[k], windows[k]);
      var pushed :| Spreads(g, prefix, windows[k - 1], k, waves[k - 1], waves[k].(found := pushed))
                    && Permuted(pushed, windows[k]);
      SpreadLength(g, prefix, windows[k - 1], k, waves[k - 1], waves[k].(found := pushed));
    }
  }

  lemma SpreadLength(g: Adj, prefix: seq<nat>, window: seq<nat>, depth: nat, w: Wave, w': Wave)
    requires Spreads(g, prefix, window, depth, w, w')
    ensures |w'.succ| == |w.succ|
  {
    var schedule :| SpreadsBy(g, prefix, window, depth, w, w', schedule);
    ExecLength(g, prefix, window, depth, Start(g, w), schedule);
  }

  lemma {:induction false} ExecLength(g: Adj, prefix: seq<nat>, window: seq<nat>, depth: nat, s: State,
                                      schedule: seq<nat>)
    requires Shape(g, s) && |prefix| > |g| && Legal(g, prefix, window, depth, s, schedule)
    ensures |Exec(g, prefix, window, depth, s, schedule).succ| == |s.succ|
    decreases |schedule|
  {
    if schedule != [] {
      ExecLength(g, prefix, window, depth, Step(g, prefix, window, depth, s, schedule[0]), schedule[1..]);
    }
  }

  /** From the source alone to an empty window, whatever the interleaving of every level: path counts are the
      numbers of shortest paths, the bits are exactly those of the edges one level down, and the depth index
      slices the queue into the levels. */
  lemma AnyInterleavingCountsPaths(g: Adj, prefix: seq<nat>, root: nat, waves: seq<Wave>, windows: seq<seq<nat>>)
    requires Valid(g) && root < |g| && EdgeIds(g, prefix) && Search(g, prefix, waves, windows)
    requires windows[0] == [root] && windows[|windows| - 1] == [] && Fresh(g, prefix, root, waves[0])
    ensures var w, dist := waves[|waves| - 1], Dists(g, root);
            && |w.counts| == |g| && (forall v :: 0 <= v < |g| ==> w.counts[v] == PathCount(g, root, dist, v))
            && (forall u, j :: 0 <= u < |g| && 0 <= j < |g[u]| ==>
                  (Bit(prefix, w.succ, u, j) <==> dist[u] >= 0 && OneDown(g, dist, u, j)))
            && Slices(dist, Queue(windows), DepthIndex(windows)) && |Queue(windows)| <= |g|
  {
    hide AtStart, Level, Depths, Turn, PathCount, OneDown, Queue, DepthIndex, LevelStarts;
    var k, dist := |waves| - 1, Dists(g, root);
    DepthsAreDists(g, root, dist);
    StartOfSearch(g, prefix, root, dist, waves[0]);
    SearchReaches(g, prefix, root, dist, waves, windows, k);
    SearchDone(g, prefix, root, dist, k, waves[k]);
    QueueLists(g, prefix, root, dist, waves, windows, k);
    assert windows[..k + 1] == windows;
    QueueNext(windows, k);
    DepthIndexLength(windows);
    QueueFits(dist, Queue(windows), k);
  }

  /** And there is such a search. */
  lemma CompleteSearch(g: Adj, prefix: seq<nat>, root: nat, w0: Wave) returns (waves: seq<Wave>, windows: seq<seq<nat>>)
    requires Valid(g) && root < |g| && EdgeIds(g, prefix) && Fresh(g, prefix, root, w0)
    ensures Search(g, prefix, waves, windows) && waves[0] == w0
    ensures windows[0] == [root] && windows[|windows| - 1] == []
  {
    hide AtStart, Level, Depths, Turn;
    DepthsAreDists(g, root, Dists(g, root));
    StartOfSearch(g, prefix, root, Dists(g, root), w0);
    waves, windows := CanSearch(g, prefix, w0, [root], |g|);
    SearchEnds(g, prefix, root, Dists(g, root), waves, windows, |g|);
  }
}
