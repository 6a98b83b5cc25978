/** The sweep of the incremental search as atomic steps in any interleaving: every vertex tests its mark, clears it,
    loads its level and offers it to its neighbours, testing, storing and marking one at a time. */
module SweepRuns {
  import opened Graphs
  import opened Sums
  import opened StreamBfs

  /** Before the read of the mark, of the level, the clearing, the load; then at edge i before the test, the store
      or the mark. */
  datatype Point =
    | Check
    | Look
    | Clear
    | Load
    | Test(level: Level, i: nat)
    | Store(level: Level, i: nat)
    | Mark(level: Level, i: nat)
    | Finished

  /** `atomic`: a store happens only if the level is still too high, as a compare-and-swap would have it. The code
      stores in any case. */
  datatype State = State(atomic: bool, status: seq<Level>, changed: seq<bool>, points: seq<Point>, frontier: nat)

  predicate Shape(g: Adj, s: State) {
    Valid(g) && |s.status| == |s.changed| == |s.points| == |g|
  }

  function Up(level: Level): Level {
    if level < 255 then level + 1 else 255
  }

  /** The end of the edge a vertex stands at, itself when it is past the last. */
  function End(g: Adj, v: nat, i: nat): nat
    requires Valid(g) && v < |g|
    ensures End(g, v, i) < |g|
  {
    if i < |g[v]| then g[v][i] else v
  }

  /** The next read or write of vertex v. */
  function Step(g: Adj, s: State, v: nat): State
    requires Shape(g, s) && v < |g|
    ensures Shape(g, Step(g, s, v)) && Step(g, s, v).atomic == s.atomic
  {
    var to := (p: Point) => s.(points := s.points[v := p]);
    match s.points[v]
    case Check => to(if s.changed[v] then Look else Finished)
    case Look => to(if s.status[v] == 255 then Finished else Clear)
    case Clear => to(Load).(changed := s.changed[v := false])
    case Load => to(if g[v] == [] then Finished else Test(s.status[v], 0))
    case Test(level, i) =>
      to(if i >= |g[v]| then Finished
         else if s.status[g[v][i]] as int > level as int + 1 then Store(level, i) else Test(level, i + 1))
    case Store(level, i) =>
      var w := End(g, v, i);
      if s.atomic && s.status[w] <= Up(level) then to(Test(level, i + 1))
      else to(Mark(level, i)).(status := s.status[w := Up(level)])
    case Mark(level, i) =>
      to(Test(level, i + 1)).(changed := s.changed[End(g, v, i) := true], frontier := s.frontier + 1)
    case Finished => s
  }

  function Exec(g: Adj, s: State, schedule: seq<nat>): State
    requires Shape(g, s)
    ensures Shape(g, Exec(g, s, schedule))
    decreases |schedule|
  {
    if schedule == [] then s
    else Exec(g, if schedule[0] < |g| then Step(g, s, schedule[0]) else s, schedule[1..])
  }

  function Start(atomic: bool, status: seq<Level>, changed: seq<bool>): State {
    State(atomic, status, changed, seq(|status|, _ => Check), 0)
  }

  // ---------------------------------------------------------------- invariant of the atomic sweep

  /** Some vertex is about to mark u. */
  ghost predicate Pending(g: Adj, s: State, u: nat)
    requires Shape(g, s)
  {
    exists x: nat :: MarksNext(g, s, x, u)
  }

  predicate MarksNext(g: Adj, s: State, x: nat, u: nat)
    requires Shape(g, s)
  {
    x < |g| && s.points[x].Mark? && End(g, x, s.points[x].i) == u
  }

  /** u is offering the level it has. */
  ghost predicate InHand(g: Adj, s: State, u: nat)
    requires Shape(g, s) && u < |g|
  {
    match s.points[u]
    case Load => true
    case Test(level, i) => level == s.status[u] && Relaxed(g, s.status, u, i)
    case Store(level, i) => level == s.status[u] && Relaxed(g, s.status, u, i)
    case Mark(level, i) => level == s.status[u] && Relaxed(g, s.status, u, i + 1)
    case _ => false
  }

  /** Nothing u could improve is forgotten. */
  ghost predicate Covered(g: Adj, s: State, u: nat)
    requires Shape(g, s) && u < |g|
  {
    s.changed[u] || Pending(g, s, u) || InHand(g, s, u) || Relaxed(g, s.status, u, |g[u]|)
  }

  /** A level in hand was the vertex's own, and can only have become too high. */
  ghost predicate PointOk(g: Adj, root: nat, s: State, v: nat)
    requires Shape(g, s) && v < |g|
  {
    match s.points[v]
    case Clear => s.status[v] < 255
    case Load => s.status[v] < 255
    case Test(level, i) => i <= |g[v]| && s.status[v] <= level < 255 && Reach(g, root, v, level)
    case Store(level, i) => i < |g[v]| && s.status[v] <= level < 254 && Reach(g, root, v, level)
    case Mark(level, i) => i < |g[v]| && s.status[v] <= level < 255 && Reach(g, root, v, level)
    case _ => true
  }

  ghost predicate Inv(g: Adj, root: nat, s: State) {
    && Shape(g, s) && s.atomic && Sound(g, root, s.status)
    && (forall v: nat :: v < |g| ==> PointOk(g, root, s, v))
    && forall u: nat :: u < |g| && s.status[u] < 255 ==> Covered(g, s, u)
  }

  lemma StartInv(g: Adj, root: nat, status: seq<Level>, changed: seq<bool>)
    requires Valid(g) && Sound(g, root, status) && Settled(g, status, changed)
    ensures Inv(g, root, Start(true, status, changed))
  {
    hide Relaxed;
  }

  // ---------------------------------------------------------------- each step

  /** A step of v that changes neither levels nor marks of others leaves the others covered. */
  lemma OthersCovered(g: Adj, s: State, s': State, v: nat, u: nat)
    requires Shape(g, s) && Shape(g, s') && v < |g| && u < |g| && u != v && Covered(g, s, u)
    requires s'.status == s.status && s'.points == s.points[v := s'.points[v]] && !s.points[v].Mark?
    requires s'.changed[u] == s.changed[u]
    ensures Covered(g, s', u)
  {
    hide Relaxed, End;
    if Pending(g, s, u) {
      var x: nat :| MarksNext(g, s, x, u);
      assert MarksNext(g, s', x, u);
    }
  }

  /** Everything but the store of a level and the setting of a mark. */
  lemma QuietStepKeeps(g: Adj, root: nat, s: State, v: nat)
    requires Inv(g, root, s) && v < |g| && !s.points[v].Store? && !s.points[v].Mark?
    ensures Inv(g, root, Step(g, s, v))
  {
    hide Sound, End, Reach;
    var s' := Step(g, s, v);
    assert PointOk(g, root, s, v);
    SoundMeansReach(g, root, s.status, v);
    forall u: nat | u < |g| ensures PointOk(g, root, s', u) {
      assert PointOk(g, root, s, u);
    }
    if s.status[v] < 255 {
      assert Covered(g, s, v);
      if Pending(g, s, v) {
        var x: nat :| MarksNext(g, s, x, v);
        assert MarksNext(g, s', x, v);
      }
    }
    forall u: nat | u < |g| && s'.status[u] < 255 ensures Covered(g, s', u) {
      if u != v {
        OthersCovered(g, s, s', v, u);
      }
    }
  }

  lemma SoundMeansReach(g: Adj, root: nat, st: seq<Level>, v: nat)
    requires Sound(g, root, st) && v < |g|
    ensures |st| == |g| && (st[v] < 255 ==> Reach(g, root, v, st[v]))
  {
  }

  /** The store finds the level low enough by now. */
  lemma PassedOverKeeps(g: Adj, root: nat, s: State, v: nat)
    requires Inv(g, root, s) && v < |g| && s.points[v].Store?
    requires s.status[End(g, v, s.points[v].i)] <= Up(s.points[v].level)
    ensures Inv(g, root, Step(g, s, v))
  {
    hide Sound, Reach;
    var s' := Step(g, s, v);
    assert PointOk(g, root, s, v);
    forall u: nat | u < |g| ensures PointOk(g, root, s', u) {
      assert PointOk(g, root, s, u);
    }
    if s.status[v] < 255 {
      assert Covered(g, s, v);
      if Pending(g, s, v) {
        var x: nat :| MarksNext(g, s, x, v);
        assert MarksNext(g, s', x, v);
      }
    }
    forall u: nat | u < |g| && s'.status[u] < 255 ensures Covered(g, s', u) {
      if u != v {
        OthersCovered(g, s, s', v, u);
      }
    }
  }

  /** A lower level of w, which v is about to mark. */
  lemma LowerKeepsCovered(g: Adj, s: State, s': State, v: nat, w: nat, u: nat)
    requires Shape(g, s) && Shape(g, s') && v < |g| && w < |g| && u < |g| && s.points[v].Store?
    requires s'.changed == s.changed && s'.status == s.status[w := s'.status[w]] && s'.status[w] < s.status[w]
    requires s'.points == s.points[v := s'.points[v]] && MarksNext(g, s', v, w)
    requires u != v && (s.status[u] < 255 ==> Covered(g, s, u))
    ensures s'.status[u] < 255 ==> Covered(g, s', u)
  {
    hide End;
    if u == w {
      assert Pending(g, s', u);
    } else if s.status[u] < 255 && Pending(g, s, u) {
      var x: nat :| MarksNext(g, s, x, u);
      assert MarksNext(g, s', x, u);
    }
  }

  lemma StoreKeeps(g: Adj, root: nat, s: State, v: nat)
    requires Inv(g, root, s) && v < |g| && s.points[v].Store?
    requires s.status[End(g, v, s.points[v].i)] > Up(s.points[v].level)
    ensures Inv(g, root, Step(g, s, v))
  {
    hide Reach;
    var s' := Step(g, s, v);
    assert PointOk(g, root, s, v);
    var Store(level, i) := s.points[v];
    var w := g[v][i];
    assert HasEdge(g, v, w);
    ReachStep(g, root, v, w, level);
    assert MarksNext(g, s', v, w);
    forall u: nat | u < |g| ensures PointOk(g, root, s', u) {
      assert PointOk(g, root, s, u);
    }
    forall u: nat | u < |g| && s'.status[u] < 255 ensures Covered(g, s', u) {
      if u == v {
        assert Covered(g, s, v);
        if Pending(g, s, v) {
          var x: nat :| MarksNext(g, s, x, v);
          assert MarksNext(g, s', x, v);
        }
      } else {
        LowerKeepsCovered(g, s, s', v, w, u);
      }
    }
  }

  lemma MarkKeeps(g: Adj, root: nat, s: State, v: nat)
    requires Inv(g, root, s) && v < |g| && s.points[v].Mark?
    ensures Inv(g, root, Step(g, s, v))
  {
    hide Sound, Reach, Relaxed;
    var s' := Step(g, s, v);
    assert PointOk(g, root, s, v);
    forall u: nat | u < |g| ensures PointOk(g, root, s', u) {
      assert PointOk(g, root, s, u);
    }
    forall u: nat | u < |g| && s'.status[u] < 255 ensures Covered(g, s', u) {
      assert Covered(g, s, u);
      if Pending(g, s, u) && !s'.changed[u] {
        var x: nat :| MarksNext(g, s, x, u);
        assert x != v && MarksNext(g, s', x, u);
      }
    }
  }

  lemma StepKeeps(g: Adj, root: nat, s: State, v: nat)
    requires Inv(g, root, s) && v < |g|
    ensures Inv(g, root, Step(g, s, v))
  {
    hide Inv;
    InvShape(g, root, s);
    if s.points[v].Store? {
      if s.status[End(g, v, s.points[v].i)] <= Up(s.points[v].level) {
        PassedOverKeeps(g, root, s, v);
      } else {
        StoreKeeps(g, root, s, v);
      }
    } else if s.points[v].Mark? {
      MarkKeeps(g, root, s, v);
    } else {
      QuietStepKeeps(g, root, s, v);
    }
  }

  lemma InvShape(g: Adj, root: nat, s: State)
    requires Inv(g, root, s)
    ensures Shape(g, s)
  {
  }

  lemma {:induction false} RunKeepsInv(g: Adj, root: nat, s: State, schedule: seq<nat>)
    requires Shape(g, s) && Inv(g, root, s)
    ensures Inv(g, root, Exec(g, s, schedule))
    decreases |schedule|
  {
    hide Inv, Step;
    if schedule != [] {
      var s1 := if schedule[0] < |g| then Step(g, s, schedule[0]) else s;
      if schedule[0] < |g| {
        StepKeeps(g, root, s, schedule[0]);
      }
      RunKeepsInv(g, root, s1, schedule[1..]);
    }
  }

  // ---------------------------------------------------------------- a sweep without a store

  ghost predicate Stored(s: State) {
    s.frontier > 0 || exists x: nat :: x < |s.points| && s.points[x].Mark?
  }

  /** As long as nothing was stored, levels are as before and every vertex that was looked at is unmarked or has no
      level. */
  ghost predicate Calm(g: Adj, st0: seq<Level>, s: State) {
    Shape(g, s) && (!Stored(s) ==> s.status == st0 && forall v: nat :: v < |g| ==> CalmAt(s, v))
  }

  predicate CalmAt(s: State, v: nat)
    requires v < |s.points| == |s.status| == |s.changed|
  {
    match s.points[v]
    case Load => !s.changed[v]
    case Test(_, _) => !s.changed[v]
    case Store(_, _) => !s.changed[v]
    case Finished => !(s.changed[v] && s.status[v] < 255)
    case _ => true
  }

  lemma StoredStays(g: Adj, s: State, v: nat)
    requires Shape(g, s) && v < |g| && Stored(s)
    ensures Stored(Step(g, s, v))
  {
    if s.frontier == 0 {
      var x: nat :| x < |s.points| && s.points[x].Mark?;
      assert x != v ==> Step(g, s, v).points[x].Mark?;
    }
  }

  lemma CalmStep(g: Adj, root: nat, st0: seq<Level>, s: State, v: nat)
    requires Inv(g, root, s) && Calm(g, st0, s) && v < |g|
    ensures Calm(g, st0, Step(g, s, v))
  {
    hide Sound, Reach, Covered, Relaxed;
    var s' := Step(g, s, v);
    if Stored(s) {
      StoredStays(g, s, v);
    }
    if !Stored(s') {
      assert CalmAt(s, v);
      assert !s'.points[v].Mark?;
      forall u: nat | u < |g| ensures CalmAt(s', u) {
        assert CalmAt(s, u);
      }
    }
  }

  lemma {:induction false} CalmRun(g: Adj, root: nat, st0: seq<Level>, s: State, schedule: seq<nat>)
    requires Shape(g, s) && Inv(g, root, s) && Calm(g, st0, s)
    ensures Calm(g, st0, Exec(g, s, schedule))
    decreases |schedule|
  {
    hide Inv, Calm, Step;
    if schedule != [] {
      var s1 := if schedule[0] < |g| then Step(g, s, schedule[0]) else s;
      if schedule[0] < |g| {
        StepKeeps(g, root, s, schedule[0]);
        CalmStep(g, root, st0, s, schedule[0]);
      }
      CalmRun(g, root, st0, s1, schedule[1..]);
    }
  }

  // ---------------------------------------------------------------- complete sweeps

  /** Some complete schedule of the vertices makes of the first levels and marks the second, with this frontier. */
  ghost predicate Sweep(g: Adj, atomic: bool, a: Marks, b: Marks, frontier: nat) {
    exists schedule :: SweepBy(g, atomic, a, b, frontier, schedule)
  }

  /** Levels and marks between sweeps. */
  datatype Marks = Marks(status: seq<Level>, changed: seq<bool>)

  ghost predicate SweepBy(g: Adj, atomic: bool, a: Marks, b: Marks, frontier: nat, schedule: seq<nat>) {
    Shape(g, Start(atomic, a.status, a.changed)) &&
    var e := Exec(g, Start(atomic, a.status, a.changed), schedule);
    e.status == b.status && e.changed == b.changed && e.frontier == frontier
    && forall v :: 0 <= v < |g| ==> e.points[v].Finished?
  }

  /** A whole do-while: sweeps until one finds nothing. */
  ghost predicate Settles(g: Adj, atomic: bool, marks: seq<Marks>, frontiers: seq<nat>) {
    && |marks| == |frontiers| + 1 > 1 && frontiers[|frontiers| - 1] == 0
    && forall k :: 0 <= k < |frontiers| ==> Sweep(g, atomic, marks[k], marks[k + 1], frontiers[k])
  }

  lemma SweepKeeps(g: Adj, root: nat, a: Marks, b: Marks, frontier: nat)
    requires Valid(g) && Sound(g, root, a.status) && Settled(g, a.status, a.changed) && Sweep(g, true, a, b, frontier)
    ensures Sound(g, root, b.status) && Settled(g, b.status, b.changed)
    ensures frontier == 0 ==> Quiet(b.status, b.changed, |b.status|)
  {
    hide Sound, Relaxed;
    var schedule :| SweepBy(g, true, a, b, frontier, schedule);
    var s := Start(true, a.status, a.changed);
    StartInv(g, root, a.status, a.changed);
    RunKeepsInv(g, root, s, schedule);
    CalmRun(g, root, a.status, s, schedule);
    var e := Exec(g, s, schedule);
    forall u: nat | u < |g| && !b.changed[u] && b.status[u] < 255 ensures Relaxed(g, b.status, u, |g[u]|) {
      assert Covered(g, e, u) && e.points[u].Finished?;
    }
    if frontier == 0 {
      forall v: nat | v < |g| ensures !(b.changed[v] && b.status[v] < 255) {
        assert e.points[v].Finished? && CalmAt(e, v);
      }
    }
  }

  lemma {:induction false} SweepsKeep(g: Adj, root: nat, marks: seq<Marks>, frontiers: seq<nat>, k: nat)
    requires Valid(g) && Settles(g, true, marks, frontiers) && k < |marks|
    requires Sound(g, root, marks[0].status) && Settled(g, marks[0].status, marks[0].changed)
    ensures Sound(g, root, marks[k].status) && Settled(g, marks[k].status, marks[k].changed)
  {
    hide Sound, Settled, Sweep;
    if k > 0 {
      SweepsKeep(g, root, marks, frontiers, k - 1);
      assert Sweep(g, true, marks[k - 1], marks[k - 1 + 1], frontiers[k - 1]);
      SweepKeeps(g, root, marks[k - 1], marks[k], frontiers[k - 1]);
    }
  }

  /** With conditional stores any interleaving of every sweep ends at the capped distances. */
  lemma AtomicSweepsAreExact(g: Adj, root: nat, marks: seq<Marks>, frontiers: seq<nat>)
    requires Valid(g) && Settles(g, true, marks, frontiers)
    requires Sound(g, root, marks[0].status) && Settled(g, marks[0].status, marks[0].changed)
    ensures CappedLevels(g, root, marks[|marks| - 1].status)
  {
    hide Sound, Settled, Sweep, Quiet, CappedLevels;
    var k := |frontiers| - 1;
    SweepsKeep(g, root, marks, frontiers, k);
    assert Sweep(g, true, marks[k], marks[k + 1], frontiers[k]);
    SweepKeeps(g, root, marks[k], marks[k + 1], 0);
    SoundShape(g, root, marks[k + 1].status);
    SettledIsExact(g, root, marks[k + 1].status, marks[k + 1].changed);
  }

  // ---------------------------------------------------------------- a sweep ends, and so do the sweeps

  /** Reads and writes that a vertex of this degree has left, stores and marks included. */
  function PointLeft(p: Point, degree: nat): nat {
    match p
    case Check => 3 * degree + 6
    case Look => 3 * degree + 5
    case Clear => 3 * degree + 4
    case Load => 3 * degree + 3
    case Test(_, i) => if i < degree then 3 * (degree - i) + 1 else 1
    case Store(_, i) => if i < degree then 3 * (degree - i) else 3
    case Mark(_, i) => if i < degree then 3 * (degree - i) - 1 else 2
    case Finished => 0
  }

  function Lefts(g: Adj, s: State): seq<nat>
    requires Shape(g, s)
  {
    seq(|g|, v requires 0 <= v < |g| => PointLeft(s.points[v], |g[v]|))
  }

  /** Every read and write, of either kind of sweep, lowers one sum: each schedule ends, with every vertex
      finished. */
  lemma StepDescends(g: Adj, s: State, v: nat)
    requires Shape(g, s) && v < |g| && !s.points[v].Finished?
    ensures SumSeq(Lefts(g, Step(g, s, v))) < SumSeq(Lefts(g, s))
  {
    var before, after := Lefts(g, s), Lefts(g, Step(g, s, v));
    assert after == before[v := after[v]];
    SumUpdate(before, v, after[v]);
  }

  /** And there is one. */
  lemma {:induction false} RunEnds(g: Adj, s: State) returns (schedule: seq<nat>)
    requires Shape(g, s)
    ensures forall v :: 0 <= v < |g| ==> Exec(g, s, schedule).points[v].Finished?
    decreases SumSeq(Lefts(g, s))
  {
    hide Lefts, Step;
    if v: nat :| v < |g| && !s.points[v].Finished? {
      StepDescends(g, s, v);
      var rest := RunEnds(g, Step(g, s, v));
      schedule := [v] + rest;
      assert schedule[1..] == rest;
    } else {
      schedule := [];
    }
  }

  lemma CanSweep(g: Adj, atomic: bool, a: Marks) returns (b: Marks, frontier: nat)
    requires Valid(g) && |a.status| == |a.changed| == |g|
    ensures Sweep(g, atomic, a, b, frontier)
  {
    var schedule := RunEnds(g, Start(atomic, a.status, a.changed));
    var e := Exec(g, Start(atomic, a.status, a.changed), schedule);
    b, frontier := Marks(e.status, e.changed), e.frontier;
    assert SweepBy(g, atomic, a, b, frontier, schedule);
  }

  /** One for every vertex about to set a mark. */
  function Marking(s: State): seq<nat> {
    seq(|s.points|, v requires 0 <= v < |s.points| => if s.points[v].Mark? then 1 else 0)
  }

  /** What the levels can still fall, and the marks set or about to be. */
  function Spent(s: State): nat {
    SumSeq(s.status) + SumSeq(Marking(s)) + s.frontier
  }

  lemma MarkingNext(s: State, s': State, v: nat)
    requires v < |s.points| == |s'.points| && s'.points == s.points[v := s'.points[v]]
    ensures SumSeq(Marking(s')) == SumSeq(Marking(s)) - (if s.points[v].Mark? then 1 else 0)
                                   + if s'.points[v].Mark? then 1 else 0
  {
    var now := if s'.points[v].Mark? then 1 else 0;
    assert Marking(s') == Marking(s)[v := now];
    SumUpdate(Marking(s), v, now);
  }

  /** A conditional store takes at least one level off for the mark it leads to. */
  lemma SpentNext(g: Adj, s: State, v: nat)
    requires Shape(g, s) && v < |g| && s.atomic
    ensures Spent(Step(g, s, v)) <= Spent(s)
  {
    hide SumSeq, Marking;
    MarkingNext(s, Step(g, s, v), v);
    if s.points[v].Store? {
      var w := End(g, v, s.points[v].i);
      SumUpdate(s.status, w, Up(s.points[v].level));
    }
  }

  lemma {:induction false} SpentRun(g: Adj, s: State, schedule: seq<nat>)
    requires Shape(g, s) && s.atomic
    ensures Spent(Exec(g, s, schedule)) <= Spent(s)
    decreases |schedule|
  {
    hide Step, Spent;
    if schedule != [] {
      if schedule[0] < |g| {
        SpentNext(g, s, schedule[0]);
      }
      SpentRun(g, if schedule[0] < |g| then Step(g, s, schedule[0]) else s, schedule[1..]);
    }
  }

  lemma {:induction false} NoneMarking(c: seq<nat>)
    requires forall v :: 0 <= v < |c| ==> c[v] == 0
    ensures SumSeq(c) == 0
  {
    if c != [] {
      NoneMarking(c[..|c| - 1]);
    }
  }

  /** A sweep with conditional stores lowers the levels by at least its frontier count. */
  lemma SweepLowers(g: Adj, a: Marks, b: Marks, frontier: nat)
    requires Sweep(g, true, a, b, frontier)
    ensures SumSeq(b.status) + frontier <= SumSeq(a.status)
  {
    hide Exec, SumSeq;
    var schedule :| SweepBy(g, true, a, b, frontier, schedule);
    var s := Start(true, a.status, a.changed);
    SpentRun(g, s, schedule);
    NoneMarking(Marking(s));
  }

  /** So a do-while of such sweeps, in any interleaving, ends: as long as every frontier is positive there are no
      more sweeps than levels to fall. */
  lemma {:induction false} SweepsEnd(g: Adj, marks: seq<Marks>, frontiers: seq<nat>)
    requires |marks| == |frontiers| + 1
    requires forall k :: 0 <= k < |frontiers| ==>
               Sweep(g, true, marks[k], marks[k + 1], frontiers[k]) && frontiers[k] > 0
    ensures SumSeq(marks[|frontiers|].status) + |frontiers| <= SumSeq(marks[0].status)
    decreases |frontiers|
  {
    hide Sweep, SumSeq;
    if frontiers != [] {
      var k := |frontiers| - 1;
      assert Sweep(g, true, marks[k], marks[k + 1], frontiers[k]);
      SweepLowers(g, marks[k], marks[k + 1], frontiers[k]);
      var before, rest := marks[..k + 1], frontiers[..k];
      forall j | 0 <= j < k ensures Sweep(g, true, before[j], before[j + 1], rest[j]) && rest[j] > 0 {
        assert Sweep(g, true, marks[j], marks[j + 1], frontiers[j]);
      }
      SweepsEnd(g, before, rest);
    }
  }

  // ---------------------------------------------------------------- a lost level

  lemma Then(g: Adj, s: State, schedule: seq<nat>, v: nat)
    requires Shape(g, s) && v < |g|
    ensures Exec(g, s, schedule + [v]) == Step(g, Exec(g, s, schedule), v)
    decreases |schedule|
  {
    hide Step;
    if schedule == [] {
      assert schedule + [v] == [v] && [v][1..] == [];
    } else {
      assert (schedule + [v])[0] == schedule[0] && (schedule + [v])[1..] == schedule[1..] + [v];
      Then(g, if schedule[0] < |g| then Step(g, s, schedule[0]) else s, schedule[1..], v);
    }
  }

  /** 0 -> 1 -> 2 is settled; then 1 -> 3 and 2 -> 3 arrive. */
  const LATE: Adj := [[1], [2, 3], [3], []]

  const BEFORE := Marks([0, 1, 2, 255], [false, true, true, false])

  /** Vertex 3 has kept the longer way. */
  const AFTER := Marks([0, 1, 2, 3], [false, false, false, false])

  /** A sweep under way on that graph. */
  ghost predicate Reaches(a: Marks, s: State) {
    exists schedule :: Shape(LATE, Start(false, a.status, a.changed))
                       && Exec(LATE, Start(false, a.status, a.changed), schedule) == s
  }

  lemma Begin(a: Marks)
    requires |a.status| == |a.changed| == 4
    ensures Reaches(a, State(false, a.status, a.changed, [Check, Check, Check, Check], 0))
  {
    var s := Start(false, a.status, a.changed);
    assert s.points == [Check, Check, Check, Check];
    assert Exec(LATE, s, []) == s;
  }

  lemma Go(a: Marks, s: State, v: nat) returns (s': State)
    requires Reaches(a, s) && v < 4 && Shape(LATE, s)
    ensures Reaches(a, s') && Shape(LATE, s') && s' == Step(LATE, s, v)
  {
    hide Step, Exec;
    var schedule :| Shape(LATE, Start(false, a.status, a.changed))
                    && Exec(LATE, Start(false, a.status, a.changed), schedule) == s;
    Then(LATE, Start(false, a.status, a.changed), schedule, v);
    s' := Step(LATE, s, v);
  }

  /** A marked vertex looks, clears its mark and loads its level. */
  lemma Opens(a: Marks, s: State, v: nat) returns (s': State)
    requires Reaches(a, s) && Shape(LATE, s) && v < 4 && s.points[v].Check? && s.changed[v] && s.status[v] < 255
    ensures Reaches(a, s') && Shape(LATE, s')
    ensures s' == s.(changed := s.changed[v := false],
                     points := s.points[v := if LATE[v] == [] then Finished else Test(s.status[v], 0)])
  {
    hide Reaches;
    s' := Go(a, s, v);
    s' := Go(a, s', v);
    s' := Go(a, s', v);
    s' := Go(a, s', v);
    assert s'.points == s.points[v := if LATE[v] == [] then Finished else Test(s.status[v], 0)];
  }

  /** Vertices 1 and 2 both find vertex 3 without a level. */
  lemma BothOffer() returns (s: State)
    ensures Reaches(BEFORE, s) && Shape(LATE, s)
    ensures s == State(false, [0, 1, 2, 255], [false, false, false, false], [Check, Store(1, 1), Store(2, 0), Check], 0)
  {
    hide Reaches;
    Begin(BEFORE);
    s := Opens(BEFORE, State(false, [0, 1, 2, 255], [false, true, true, false], [Check, Check, Check, Check], 0), 1);
    s := Go(BEFORE, s, 1);
    s := Go(BEFORE, s, 1);
    assert s.points == [Check, Store(1, 1), Check, Check];
    s := Opens(BEFORE, s, 2);
    s := Go(BEFORE, s, 2);
    assert s.changed == [false, false, false, false] && s.points == [Check, Store(1, 1), Store(2, 0), Check];
  }

  /** Vertex 1 stores the shorter way, then vertex 2 the longer over it. */
  lemma LongerStays(s: State) returns (s': State)
    requires Reaches(BEFORE, s) && Shape(LATE, s)
    requires s.status == [0, 1, 2, 255] && s.changed == [false, false, false, false] && !s.atomic && s.frontier == 0
    requires s.points == [Check, Store(1, 1), Store(2, 0), Check]
    ensures Reaches(BEFORE, s') && Shape(LATE, s')
    ensures s' == State(false, [0, 1, 2, 3], [false, false, false, true], [Check, Finished, Finished, Check], 2)
  {
    hide Reaches;
    s' := Go(BEFORE, s, 1);
    s' := Go(BEFORE, s', 2);
    assert s'.status == [0, 1, 2, 3] && s'.points == [Check, Mark(1, 1), Mark(2, 0), Check];
    s' := Go(BEFORE, s', 1);
    s' := Go(BEFORE, s', 2);
    assert s'.changed == [false, false, false, true] && s'.points == [Check, Test(1, 2), Test(2, 1), Check];
    s' := Go(BEFORE, s', 1);
    s' := Go(BEFORE, s', 2);
    assert s'.points == [Check, Finished, Finished, Check];
  }

  lemma FirstSweep()
    ensures Sweep(LATE, false, BEFORE, AFTER, 2)
  {
    hide Step;
    var s := BothOffer();
    s := LongerStays(s);
    s := Opens(BEFORE, s, 3);
    s := Closes(BEFORE, s, 0);
    assert s.points == [Finished, Finished, Finished, Finished];
    assert s.changed == [false, false, false, false];
    Swept(BEFORE, s);
  }

  lemma Closes(a: Marks, s: State, v: nat) returns (s': State)
    requires Reaches(a, s) && Shape(LATE, s) && v < 4 && s.points[v].Check? && !s.changed[v]
    ensures Reaches(a, s') && Shape(LATE, s') && s' == s.(points := s.points[v := Finished])
  {
    hide Reaches;
    s' := Go(a, s, v);
  }

  lemma Swept(a: Marks, s: State)
    requires Reaches(a, s) && forall v :: 0 <= v < 4 ==> v < |s.points| && s.points[v].Finished?
    ensures Sweep(LATE, false, a, Marks(s.status, s.changed), s.frontier)
  {
    hide Exec;
    var schedule :| Shape(LATE, Start(false, a.status, a.changed))
                    && Exec(LATE, Start(false, a.status, a.changed), schedule) == s;
    assert SweepBy(LATE, false, a, Marks(s.status, s.changed), s.frontier, schedule);
  }

  /** The next sweep finds no mark, so the search ends. */
  lemma SecondSweep()
    ensures Sweep(LATE, false, AFTER, AFTER, 0)
  {
    hide Step;
    Begin(AFTER);
    var s := Closes(AFTER, State(false, AFTER.status, AFTER.changed, [Check, Check, Check, Check], 0), 0);
    s := Closes(AFTER, s, 1);
    s := Closes(AFTER, s, 2);
    s := Closes(AFTER, s, 3);
    assert s.points == [Finished, Finished, Finished, Finished];
    Swept(AFTER, s);
  }

  /** The ways to 1, 2 and 3 over 1. */
  lemma LateWays()
    ensures Valid(LATE) && Reach(LATE, 0, 0, 0) && Reach(LATE, 0, 1, 1) && Reach(LATE, 0, 2, 2) && Reach(LATE, 0, 3, 2)
  {
    assert LATE[0][0] == 1 && LATE[1][0] == 2 && LATE[1][1] == 3;
    assert HasEdge(LATE, 0, 1) && HasEdge(LATE, 1, 2) && HasEdge(LATE, 1, 3);
    ReachStep(LATE, 0, 0, 1, 0);
    ReachStep(LATE, 0, 1, 2, 1);
    ReachStep(LATE, 0, 1, 3, 1);
  }

  lemma BeforeIsSettled()
    ensures Valid(LATE) && Sound(LATE, 0, BEFORE.status) && Settled(LATE, BEFORE.status, BEFORE.changed)
  {
    hide Reach;
    LateWays();
  }

  lemma CappedAt(g: Adj, root: nat, st: seq<Level>, v: nat)
    requires CappedLevels(g, root, st) && v < |g|
    ensures |st| == |g| && (st[v] < 255 ==> IsDist(g, root, v, st[v]))
  {
  }

  lemma AfterIsWrong()
    ensures !CappedLevels(LATE, 0, AFTER.status)
  {
    hide CappedLevels;
    LateWays();
    assert !IsDist(LATE, 0, 3, 3);
    if CappedLevels(LATE, 0, AFTER.status) {
      CappedAt(LATE, 0, AFTER.status, 3);
    }
  }

  /** Two marked vertices race for one neighbour, and the longer way is stored over the shorter: no vertex is left
      marked, and its level stays too high. */
  lemma PlainStoreLosesALevel()
    ensures Valid(LATE) && Sound(LATE, 0, BEFORE.status) && Settled(LATE, BEFORE.status, BEFORE.changed)
    ensures Settles(LATE, false, [BEFORE, AFTER, AFTER], [2, 0]) && !CappedLevels(LATE, 0, AFTER.status)
  {
    hide Sweep, Sound, Settled, CappedLevels;
    BeforeIsSettled();
    AfterIsWrong();
    FirstSweep();
    SecondSweep();
  }

  /** A search that starts settled ends at the capped distances. */
  ghost predicate Exact(g: Adj, root: nat, atomic: bool, marks: seq<Marks>, frontiers: seq<nat>) {
    Valid(g) && Settles(g, atomic, marks, frontiers) ==>
      Sound(g, root, marks[0].status) && Settled(g, marks[0].status, marks[0].changed) ==>
        CappedLevels(g, root, marks[|marks| - 1].status)
  }

  /** Over every graph, every batch and every interleaving, parallel sweeps end at the capped distances exactly if
      a store is conditional on the level still being too high. */
  lemma ExactIffAtomic(atomic: bool)
    ensures (forall g: Adj, root: nat, marks: seq<Marks>, frontiers: seq<nat> ::
               Exact(g, root, atomic, marks, frontiers)) <==> atomic
  {
    hide Sweep, Sound, Settled, CappedLevels;
    if atomic {
      forall g: Adj, root: nat, marks: seq<Marks>, frontiers: seq<nat> ensures Exact(g, root, true, marks, frontiers) {
        if Valid(g) && Settles(g, true, marks, frontiers) && Sound(g, root, marks[0].status)
          && Settled(g, marks[0].status, marks[0].changed)
        {
          AtomicSweepsAreExact(g, root, marks, frontiers);
        }
      }
    } else {
      PlainStoreLosesALevel();
      assert !Exact(LATE, 0, false, [BEFORE, AFTER, AFTER], [2, 0]);
    }
  }
}
