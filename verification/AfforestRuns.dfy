/** Afforest's link passes as atomic steps in any interleaving: every vertex links to its targets one
    after the other, each link reading single labels and writing with one compare-and-swap that may fail. */
module AfforestRuns {
  import opened Graphs
  import opened Forests
  import Afforest
  import opened Sums
  import CompressRuns

  /** Where a vertex is: before the skip test, before a link, inside the link's loop, or between the
      reads that climb to the next pair. */
  datatype Point =
    | Check
    | Start
    | HaveU(p1: nat)
    | Loop(p1: nat, p2: nat)
    | Swap(high: nat, low: nat)
    | Climb(high: nat, low: nat)
    | Climbed(a: nat, low: nat)
    | Fallen(p1: nat, low: nat)

  datatype Task = Task(u: nat, targets: seq<nat>, linked: nat, at: Point, skipped: bool)

  datatype State = State(comp: seq<nat>, tasks: seq<Task>, skip: nat)

  predicate Finished(t: Task) {
    t.skipped || (t.at.Start? && t.linked >= |t.targets|)
  }

  /** The next atomic action of task i. */
  function Step(s: State, i: nat): State
    requires i < |s.tasks| && !Finished(s.tasks[i])
  {
    var t := s.tasks[i];
    var to := (p: Point) => s.(tasks := s.tasks[i := t.(at := p)]);
    var done := s.(tasks := s.tasks[i := t.(at := Start, linked := t.linked + 1)]);
    match t.at
    case Check => if Get(s.comp, t.u) == s.skip then s.(tasks := s.tasks[i := t.(skipped := true)]) else to(Start)
    case Start => to(HaveU(Get(s.comp, t.u)))
    case HaveU(p1) => to(Loop(p1, Get(s.comp, if t.linked < |t.targets| then t.targets[t.linked] else 0)))
    case Loop(p1, p2) =>
      var high := if p1 > p2 then p1 else p2;
      var low := p1 + p2 - high;
      if p1 == p2 || Get(s.comp, high) == low then done
      else if Get(s.comp, high) == high then to(Swap(high, low)) else to(Climb(high, low))
    case Swap(high, low) =>
      if high < |s.comp| && s.comp[high] == high then done.(comp := s.comp[high := low]) else to(Climb(high, low))
    case Climb(high, low) => to(Climbed(Get(s.comp, high), low))
    case Climbed(a, low) => to(Fallen(Get(s.comp, a), low))
    case Fallen(p1, low) => to(Loop(p1, Get(s.comp, low)))
  }

  predicate Legal(s: State, schedule: seq<nat>)
    decreases |schedule|
  {
    schedule == [] ||
    (schedule[0] < |s.tasks| && !Finished(s.tasks[schedule[0]]) && Legal(Step(s, schedule[0]), schedule[1..]))
  }

  function Exec(s: State, schedule: seq<nat>): State
    requires Legal(s, schedule)
    decreases |schedule|
  {
    if schedule == [] then s else Exec(Step(s, schedule[0]), schedule[1..])
  }

  // ---------------------------------------------------------------- invariant

  /** p and q stand for u and v, in either order. */
  ghost predicate StandFor(r: seq<nat>, p: nat, q: nat, u: nat, v: nat) {
    && p < |r| && q < |r| && u < |r| && v < |r|
    && ((r[p] == r[u] && r[q] == r[v]) || (r[p] == r[v] && r[q] == r[u]))
  }

  ghost predicate PointOk(r: seq<nat>, comp: seq<nat>, t: Task)
    requires |r| == |comp|
  {
    if t.at.Check? || t.at.Start? then true
    else
      t.linked < |t.targets| &&
      var u, v := t.u, t.targets[t.linked];
      match t.at
      case HaveU(p1) => p1 <= u < |r| && v < |r| && r[p1] == r[u]
      case Loop(p1, p2) => StandFor(r, p1, p2, u, v)
      case Swap(high, low) => low < high && StandFor(r, high, low, u, v)
      case Climb(high, low) => low < high < |comp| && comp[high] < high && StandFor(r, high, low, u, v)
      case Climbed(a, low) => StandFor(r, a, low, u, v)
      case Fallen(p1, low) => StandFor(r, p1, low, u, v)
  }

  ghost predicate TaskOk(E: set<Edge>, skip: nat, r: seq<nat>, comp: seq<nat>, t: Task)
    requires |r| == |comp|
  {
    && t.u < |r| && t.linked <= |t.targets|
    && (forall k :: 0 <= k < |t.targets| ==> t.targets[k] < |r| && Adjacent(E, t.u, t.targets[k]))
    && (forall k :: 0 <= k < t.linked ==> r[t.targets[k]] == r[t.u])
    && (t.skipped ==> t.at.Check? && skip < |r| && r[t.u] == r[skip])
    && PointOk(r, comp, t)
  }

  ghost predicate Inv(E: set<Edge>, s: State) {
    && Descending(s.comp) && Sound(E, Roots(s.comp))
    && forall i :: 0 <= i < |s.tasks| ==> TaskOk(E, s.skip, Roots(s.comp), s.comp, s.tasks[i])
  }

  /** Links already in place are only ever added to. */
  ghost predicate Grows(comp: seq<nat>, comp': seq<nat>) {
    && |comp| == |comp'| && Descending(comp) && Descending(comp') && Coarser(Roots(comp), Roots(comp'))
    && forall x :: 0 <= x < |comp| && comp[x] != x ==> comp'[x] == comp[x]
  }

  lemma TaskCarries(E: set<Edge>, skip: nat, comp: seq<nat>, comp': seq<nat>, t: Task)
    requires Grows(comp, comp') && TaskOk(E, skip, Roots(comp), comp, t)
    ensures |Roots(comp')| == |comp'| == |comp| && TaskOk(E, skip, Roots(comp'), comp', t)
  {
    hide Root, Descending;
  }

  lemma GrowsRefl(comp: seq<nat>)
    requires Descending(comp)
    ensures Grows(comp, comp)
  {
  }

  lemma GrowsTrans(a: seq<nat>, b: seq<nat>, c: seq<nat>)
    requires Grows(a, b) && Grows(b, c)
    ensures Grows(a, c)
  {
    hide Root, Roots;
  }

  lemma SameTree(comp: seq<nat>, x: nat)
    requires Descending(comp) && x < |comp|
    ensures Get(comp, x) <= x && Get(comp, x) == comp[x] && Roots(comp)[Get(comp, x)] == Roots(comp)[x]
  {
  }

  /** A successful swap unites exactly the two trees. */
  lemma SwapMerges(E: set<Edge>, comp: seq<nat>, high: nat, low: nat, u: nat, v: nat)
    requires Descending(comp) && Sound(E, Roots(comp)) && Adjacent(E, u, v)
    requires low < high && StandFor(Roots(comp), high, low, u, v) && comp[high] == high
    ensures Grows(comp, comp[high := low]) && Sound(E, Roots(comp[high := low]))
    ensures Roots(comp[high := low])[u] == Roots(comp[high := low])[v]
  {
    assert Root(comp, high) == high;
    HookMerges(comp, high, low, u, v);
    MergeSound(E, Roots(comp), u, v);
    MergeCoarser(Roots(comp), u, v);
  }

  lemma MergeCoarser(r: seq<nat>, u: nat, v: nat)
    requires u < |r| && v < |r|
    ensures Coarser(r, Merge(r, u, v)) && Merge(r, u, v)[u] == Merge(r, u, v)[v]
  {
  }

  /** Without a write only the stepping task changes. */
  lemma ReadKeeps(E: set<Edge>, s: State, i: nat)
    requires Inv(E, s) && i < |s.tasks| && !Finished(s.tasks[i]) && Step(s, i).comp == s.comp
    ensures Inv(E, Step(s, i))
  {
    hide Root, Roots, Sound, Coarser, Connected;
    var t, t' := s.tasks[i], Step(s, i).tasks[i];
    assert TaskOk(E, s.skip, Roots(s.comp), s.comp, t);
    SteppedTaskOk(E, s, i);
    forall j | 0 <= j < |s.tasks| ensures TaskOk(E, s.skip, Roots(s.comp), s.comp, Step(s, i).tasks[j]) {
      assert TaskOk(E, s.skip, Roots(s.comp), s.comp, s.tasks[j]);
    }
  }

  lemma SteppedTaskOk(E: set<Edge>, s: State, i: nat)
    requires Inv(E, s) && i < |s.tasks| && !Finished(s.tasks[i]) && Step(s, i).comp == s.comp
    ensures TaskOk(E, s.skip, Roots(s.comp), s.comp, Step(s, i).tasks[i])
  {
    hide Root, Roots, Sound, Coarser, Connected, Descending, Adjacent, TaskOk, Step;
    var t := s.tasks[i];
    assert TaskOk(E, s.skip, Roots(s.comp), s.comp, t);
    if t.at.Check? || t.at.Start? || t.at.HaveU? || t.at.Loop? {
      SteppedFirst(E, s, i);
    } else {
      SteppedLast(E, s, i);
    }
  }

  /** Up to the decision inside the loop. */
  lemma SteppedFirst(E: set<Edge>, s: State, i: nat)
    requires Descending(s.comp) && i < |s.tasks| && !Finished(s.tasks[i]) && Step(s, i).comp == s.comp
    requires TaskOk(E, s.skip, Roots(s.comp), s.comp, s.tasks[i])
    requires s.tasks[i].at.Check? || s.tasks[i].at.Start? || s.tasks[i].at.HaveU? || s.tasks[i].at.Loop?
    ensures TaskOk(E, s.skip, Roots(s.comp), s.comp, Step(s, i).tasks[i])
  {
    hide Root, Roots, Descending, Adjacent;
    var t := s.tasks[i];
    SameTree(s.comp, t.u);
    match t.at
    case Check =>
    case Start =>
    case HaveU(p1) => SameTree(s.comp, t.targets[t.linked]);
    case Loop(p1, p2) => SameTree(s.comp, if p1 > p2 then p1 else p2);
  }

  /** A failed swap, and the climb to the next pair. */
  lemma SteppedLast(E: set<Edge>, s: State, i: nat)
    requires Descending(s.comp) && i < |s.tasks| && !Finished(s.tasks[i]) && Step(s, i).comp == s.comp
    requires TaskOk(E, s.skip, Roots(s.comp), s.comp, s.tasks[i])
    requires s.tasks[i].at.Swap? || s.tasks[i].at.Climb? || s.tasks[i].at.Climbed? || s.tasks[i].at.Fallen?
    ensures TaskOk(E, s.skip, Roots(s.comp), s.comp, Step(s, i).tasks[i])
  {
    hide Root, Roots, Descending, Adjacent;
    match s.tasks[i].at
    case Swap(high, low) => SameTree(s.comp, high);
    case Climb(high, low) => SameTree(s.comp, high);
    case Climbed(a, low) => SameTree(s.comp, a);
    case Fallen(p1, low) => SameTree(s.comp, low);
  }

  lemma WriteKeeps(E: set<Edge>, s: State, i: nat)
    requires Inv(E, s) && i < |s.tasks| && !Finished(s.tasks[i])
    requires s.tasks[i].at.Swap? && s.tasks[i].at.high < |s.comp| && s.comp[s.tasks[i].at.high] == s.tasks[i].at.high
    ensures Inv(E, Step(s, i)) && Grows(s.comp, Step(s, i).comp)
  {
    hide Root, Roots, Sound, Coarser, Connected;
    var t, t' := s.tasks[i], Step(s, i).tasks[i];
    var Swap(high, low) := t.at;
    assert TaskOk(E, s.skip, Roots(s.comp), s.comp, t);
    SwapMerges(E, s.comp, high, low, t.u, t.targets[t.linked]);
    var comp' := s.comp[high := low];
    TaskCarries(E, s.skip, s.comp, comp', t);
    forall j | 0 <= j < |s.tasks| ensures TaskOk(E, s.skip, Roots(comp'), comp', Step(s, i).tasks[j]) {
      TaskCarries(E, s.skip, s.comp, comp', s.tasks[j]);
    }
  }

  lemma StepKeeps(E: set<Edge>, s: State, i: nat)
    requires Inv(E, s) && i < |s.tasks| && !Finished(s.tasks[i])
    ensures Inv(E, Step(s, i)) && Grows(s.comp, Step(s, i).comp) && SameJob(s, Step(s, i))
  {
    hide TaskOk, Grows, Sound;
    var t := s.tasks[i];
    if t.at.Swap? && t.at.high < |s.comp| && s.comp[t.at.high] == t.at.high {
      WriteKeeps(E, s, i);
    } else {
      ReadKeeps(E, s, i);
      GrowsRefl(s.comp);
    }
  }

  /** What a pass is to do never changes. */
  predicate SameJob(s: State, s': State) {
    && |s'.comp| == |s.comp| && |s'.tasks| == |s.tasks| && s'.skip == s.skip
    && forall i :: 0 <= i < |s.tasks| ==>
         s'.tasks[i].u == s.tasks[i].u && s'.tasks[i].targets == s.tasks[i].targets
         && (s'.tasks[i].at.Check? ==> s.tasks[i].at.Check?)
  }

  lemma {:induction false} RunKeepsInv(E: set<Edge>, s: State, schedule: seq<nat>)
    requires Inv(E, s) && Legal(s, schedule)
    ensures Inv(E, Exec(s, schedule)) && Grows(s.comp, Exec(s, schedule).comp) && SameJob(s, Exec(s, schedule))
    decreases |schedule|
  {
    hide Inv, Grows;
    if schedule == [] {
      InvDescending(E, s);
      GrowsRefl(s.comp);
    } else {
      var s1 := Step(s, schedule[0]);
      StepKeeps(E, s, schedule[0]);
      RunKeepsInv(E, s1, schedule[1..]);
      GrowsTrans(s.comp, s1.comp, Exec(s1, schedule[1..]).comp);
    }
  }

  lemma InvDescending(E: set<Edge>, s: State)
    requires Inv(E, s)
    ensures Descending(s.comp)
  {
  }

  // ---------------------------------------------------------------- every schedule ends

  /** Actions a task can still take in its current link, weighed by the labels it holds. */
  function PointLeft(n: nat, p: Point): nat {
    match p
    case Check => 16 * n + 8
    case Start => 16 * n + 7
    case HaveU(p1) => 8 * p1 + 8 * n + 6
    case Loop(p1, p2) => 8 * (p1 + p2) + 4
    case Swap(high, low) => 8 * (high + low) + 3
    case Climb(high, low) => 8 * (high + low) + 2
    case Climbed(a, low) => 8 * (a + low) + 7
    case Fallen(p1, low) => 8 * (p1 + low) + 6
  }

  function LinksLeft(k: nat, n: nat): nat {
    if k == 0 then 0 else LinksLeft(k - 1, n) + 16 * n + 9
  }

  function TaskLeft(n: nat, t: Task): nat {
    if Finished(t) || t.linked > |t.targets| then 0 else LinksLeft(|t.targets| - t.linked, n) + PointLeft(n, t.at)
  }

  function Lefts(n: nat, tasks: seq<Task>): seq<nat> {
    seq(|tasks|, i requires 0 <= i < |tasks| => TaskLeft(n, tasks[i]))
  }

  lemma TaskLeftDrops(E: set<Edge>, s: State, i: nat)
    requires Inv(E, s) && i < |s.tasks| && !Finished(s.tasks[i])
    ensures TaskLeft(|s.comp|, Step(s, i).tasks[i]) < TaskLeft(|s.comp|, s.tasks[i])
  {
    hide Inv, Step, PointLeft;
    PointDrops(E, s, i);
    StartWeighs(|s.comp|);
  }

  lemma StartWeighs(n: nat)
    ensures PointLeft(n, Start) < 16 * n + 9
  {
  }

  lemma PointDrops(E: set<Edge>, s: State, i: nat)
    requires Inv(E, s) && i < |s.tasks| && !Finished(s.tasks[i])
    ensures var t, t' := s.tasks[i], Step(s, i).tasks[i];
            && t'.targets == t.targets && (t'.linked == t.linked || t'.linked == t.linked + 1 <= |t.targets|)
            && (t'.linked == t.linked && !t'.skipped ==> PointLeft(|s.comp|, t'.at) < PointLeft(|s.comp|, t.at))
            && (t'.linked == t.linked + 1 ==> t'.at.Start?) && (t.at.Start? ==> t'.linked == t.linked && !t'.at.Start?)
            && t.linked <= |t.targets| && !t.skipped && PointLeft(|s.comp|, t.at) > 0
  {
    hide Root, Sound, Connected, Roots;
    var t := s.tasks[i];
    assert TaskOk(E, s.skip, Roots(s.comp), s.comp, t);
    SameTree(s.comp, t.u);
    match t.at
    case Check =>
    case Start =>
    case HaveU(p1) => SameTree(s.comp, t.targets[t.linked]);
    case Loop(p1, p2) =>
    case Swap(high, low) =>
    case Climb(high, low) => SameTree(s.comp, high);
    case Climbed(a, low) => SameTree(s.comp, a);
    case Fallen(p1, low) => SameTree(s.comp, low);
  }

  /** Every action, failed swaps included, lowers the same sum: no schedule goes on forever. */
  lemma StepDescends(E: set<Edge>, s: State, i: nat)
    requires Inv(E, s) && i < |s.tasks| && !Finished(s.tasks[i])
    ensures SumSeq(Lefts(|s.comp|, Step(s, i).tasks)) < SumSeq(Lefts(|s.comp|, s.tasks))
  {
    hide Inv, TaskLeft;
    TaskLeftDrops(E, s, i);
    var before, after := Lefts(|s.comp|, s.tasks), Lefts(|s.comp|, Step(s, i).tasks);
    assert after == before[i := after[i]];
    SumUpdate(before, i, after[i]);
  }

  /** Any run can be carried on until every task is finished. */
  lemma {:induction false} RunEnds(E: set<Edge>, s: State) returns (schedule: seq<nat>)
    requires Inv(E, s)
    ensures Legal(s, schedule) && |Exec(s, schedule).comp| == |s.comp|
    ensures forall i :: 0 <= i < |Exec(s, schedule).tasks| ==> Finished(Exec(s, schedule).tasks[i])
    decreases SumSeq(Lefts(|s.comp|, s.tasks))
  {
    hide Inv, Lefts, Step, Finished;
    if i: nat :| i < |s.tasks| && !Finished(s.tasks[i]) {
      StepDescends(E, s, i);
      StepKeeps(E, s, i);
      var rest := RunEnds(E, Step(s, i));
      schedule := [i] + rest;
      assert schedule[1..] == rest;
    } else {
      schedule := [];
    }
  }

  // ---------------------------------------------------------------- passes

  /** comp' is what some complete schedule of these tasks makes of comp. */
  ghost predicate Pass(comp: seq<nat>, tasks: seq<Task>, skip: nat, comp': seq<nat>) {
    exists schedule :: PassBy(comp, tasks, skip, comp', schedule)
  }

  ghost predicate PassBy(comp: seq<nat>, tasks: seq<Task>, skip: nat, comp': seq<nat>, schedule: seq<nat>) {
    var s := State(comp, tasks, skip);
    Legal(s, schedule) && Exec(s, schedule).comp == comp'
    && forall i :: 0 <= i < |tasks| && i < |Exec(s, schedule).tasks| ==> Finished(Exec(s, schedule).tasks[i])
  }

  predicate Fresh(n: nat, t: Task) {
    && t.u < n && t.linked == 0 && !t.skipped && (t.at.Check? || t.at.Start?)
    && forall k :: 0 <= k < |t.targets| ==> t.targets[k] < n
  }

  /** After a pass every vertex shares its root with all its targets, or was skipped. */
  lemma PassLinks(E: set<Edge>, comp: seq<nat>, tasks: seq<Task>, skip: nat, comp': seq<nat>)
    requires Descending(comp) && Sound(E, Roots(comp)) && Pass(comp, tasks, skip, comp')
    requires forall i :: 0 <= i < |tasks| ==> Fresh(|comp|, tasks[i])
    requires forall i, k ::
      0 <= i < |tasks| && 0 <= k < |tasks[i].targets| ==> Adjacent(E, tasks[i].u, tasks[i].targets[k])
    ensures Grows(comp, comp') && Sound(E, Roots(comp'))
    ensures forall i :: 0 <= i < |tasks| ==> Linked(Roots(comp'), tasks[i], skip)
  {
    hide Root, Roots, Sound, Connected, Coarser;
    var schedule :| PassBy(comp, tasks, skip, comp', schedule);
    var s := State(comp, tasks, skip);
    assert Inv(E, s);
    RunKeepsInv(E, s, schedule);
    var e := Exec(s, schedule);
    forall i | 0 <= i < |tasks| ensures Linked(Roots(comp'), tasks[i], skip) {
      assert TaskOk(E, skip, Roots(comp'), comp', e.tasks[i]) && Finished(e.tasks[i]);
    }
  }

  /** And there is such a pass. */
  lemma CanPass(E: set<Edge>, comp: seq<nat>, tasks: seq<Task>, skip: nat) returns (comp': seq<nat>)
    requires Descending(comp) && Sound(E, Roots(comp))
    requires forall i :: 0 <= i < |tasks| ==> Fresh(|comp|, tasks[i])
    requires forall i, k ::
      0 <= i < |tasks| && 0 <= k < |tasks[i].targets| ==> Adjacent(E, tasks[i].u, tasks[i].targets[k])
    ensures Pass(comp, tasks, skip, comp')
  {
    hide Root, Roots, Sound, Connected;
    var s := State(comp, tasks, skip);
    assert Inv(E, s);
    var schedule := RunEnds(E, s);
    comp' := Exec(s, schedule).comp;
    assert PassBy(comp, tasks, skip, comp', schedule);
  }

  ghost predicate Linked(r: seq<nat>, t: Task, skip: nat) {
    t.u < |r| && ((t.at.Check? && skip < |r| && r[t.u] == r[skip])
                  || forall k :: 0 <= k < |t.targets| ==> t.targets[k] < |r| && r[t.targets[k]] == r[t.u])
  }

  // ---------------------------------------------------------------- the whole program

  /** Round k of the sampling: the k-th out-neighbour, where there is one. */
  function RoundTasks(outs: Adj, k: nat): seq<Task> {
    seq(|outs|, u requires 0 <= u < |outs| => Task(u, if k < |outs[u]| then [outs[u][k]] else [], 0, Start, false))
  }

  /** The last pass: unless skipped, the remaining out-neighbours, then all in-neighbours. */
  function LastTasks(outs: Adj, ins: Adj, rounds: nat): seq<Task>
    requires |outs| == |ins|
  {
    seq(|outs|, u requires 0 <= u < |outs| =>
      Task(u, (if rounds <= |outs[u]| then outs[u][rounds..] else []) + ins[u], 0, Check, false))
  }

  /** Labels after each of the first `rounds` sampling rounds, in any interleaving of each. */
  ghost predicate Rounds(outs: Adj, rounds: nat, comps: seq<seq<nat>>) {
    && |comps| == rounds + 1 && comps[0] == seq(|outs|, v => v)
    && forall k :: 0 <= k < rounds ==> Pass(comps[k], RoundTasks(outs, k), 0, comps[k + 1])
  }

  ghost predicate Good(outs: Adj, comp: seq<nat>, rounds: nat) {
    Afforest.Progress(outs, comp) && Afforest.Sampled(outs, Roots(comp), rounds)
  }

  lemma IdentityIsGood(outs: Adj)
    requires Valid(outs)
    ensures Good(outs, seq(|outs|, v => v), 0)
  {
    var c: seq<nat> := seq(|outs|, v => v);
    forall x | 0 <= x < |outs| ensures Connected(EdgeSet(outs), x, x) {
      ConnectedRefl(EdgeSet(outs), x);
    }
  }

  lemma RoundIsGood(outs: Adj, k: nat, comp: seq<nat>, comp': seq<nat>)
    requires Good(outs, comp, k) && Pass(comp, RoundTasks(outs, k), 0, comp')
    ensures Good(outs, comp', k + 1)
  {
    hide Root, Roots, Sound, Connected, Pass, Coarser;
    var tasks := RoundTasks(outs, k);
    forall i, j | 0 <= i < |tasks| && 0 <= j < |tasks[i].targets|
      ensures Adjacent(EdgeSet(outs), tasks[i].u, tasks[i].targets[j])
    {
      assert outs[i][k] == tasks[i].targets[j];
    }
    PassLinks(EdgeSet(outs), comp, tasks, 0, comp');
    forall u | 0 <= u < |outs| ensures Afforest.LinkedTo(Roots(comp'), outs[u], u, 0, k + 1) {
      assert Linked(Roots(comp'), tasks[u], 0);
      Afforest.CoarserKeepsLinks(Roots(comp), Roots(comp'), outs[u], u, 0, k);
      if k < |outs[u]| {
        assert tasks[u].targets[0] == outs[u][k];
      }
    }
  }

  lemma {:induction false} RoundsAreGood(outs: Adj, rounds: nat, comps: seq<seq<nat>>)
    requires Valid(outs) && Rounds(outs, rounds, comps)
    ensures Good(outs, comps[rounds], rounds)
  {
    hide Good, Pass;
    if rounds == 0 {
      IdentityIsGood(outs);
    } else {
      RoundsAreGood(outs, rounds - 1, comps[..rounds]);
      RoundIsGood(outs, rounds - 1, comps[rounds - 1], comps[rounds]);
    }
  }

  lemma LastPassSettles(outs: Adj, ins: Adj, rounds: nat, c: nat, comp: seq<nat>, comp': seq<nat>)
    requires Inverse(outs, ins) && Good(outs, comp, rounds) && Pass(comp, LastTasks(outs, ins, rounds), c, comp')
    ensures Good(outs, comp', rounds)
    ensures forall u :: 0 <= u < |outs| ==> Afforest.Settled(Roots(comp'), outs, ins, rounds, c, u)
  {
    hide Root, Roots, Sound, Connected, Pass, Coarser;
    var tasks := LastTasks(outs, ins, rounds);
    forall i, j | 0 <= i < |tasks| && 0 <= j < |tasks[i].targets|
      ensures tasks[i].targets[j] < |outs| && Adjacent(EdgeSet(outs), tasks[i].u, tasks[i].targets[j])
    {
      LastTarget(outs, ins, rounds, i, j);
    }
    PassLinks(EdgeSet(outs), comp, tasks, c, comp');
    forall u | 0 <= u < |outs|
      ensures Afforest.Settled(Roots(comp'), outs, ins, rounds, c, u)
      ensures Afforest.LinkedTo(Roots(comp'), outs[u], u, 0, rounds)
    {
      assert Linked(Roots(comp'), tasks[u], c);
      TargetsCover(outs, ins, rounds, u, Roots(comp'), c);
      Afforest.CoarserKeepsLinks(Roots(comp), Roots(comp'), outs[u], u, 0, rounds);
    }
  }

  lemma LastTarget(outs: Adj, ins: Adj, rounds: nat, u: nat, j: nat)
    requires Inverse(outs, ins) && u < |outs| && j < |LastTasks(outs, ins, rounds)[u].targets|
    ensures var t := LastTasks(outs, ins, rounds)[u];
            t.targets[j] < |outs| && Adjacent(EdgeSet(outs), t.u, t.targets[j])
  {
    var first := if rounds <= |outs[u]| then outs[u][rounds..] else [];
    if j < |first| {
      assert outs[u][rounds + j] == LastTasks(outs, ins, rounds)[u].targets[j];
    } else {
      var w := ins[u][j - |first|];
      assert HasEdge(ins, u, w) && HasEdge(outs, w, u);
    }
  }

  /** The targets of the last pass are all that settling asks for. */
  lemma TargetsCover(outs: Adj, ins: Adj, rounds: nat, u: nat, r: seq<nat>, c: nat)
    requires |outs| == |ins| && u < |outs| && Linked(r, LastTasks(outs, ins, rounds)[u], c)
    ensures Afforest.Settled(r, outs, ins, rounds, c, u)
  {
    var t := LastTasks(outs, ins, rounds)[u];
    var first := if rounds <= |outs[u]| then outs[u][rounds..] else [];
    if !(c < |r| && r[u] == r[c]) {
      forall i | rounds <= i < |outs[u]| ensures outs[u][i] < |r| && r[outs[u][i]] == r[u] {
        assert t.targets[i - rounds] == outs[u][i];
      }
      forall i | 0 <= i < |ins[u]| ensures ins[u][i] < |r| && r[ins[u][i]] == r[u] {
        assert t.targets[|first| + i] == ins[u][i];
      }
    }
  }

  lemma CompressedIsGood(outs: Adj, comp: seq<nat>, rounds: nat, comp': seq<nat>)
    requires Good(outs, comp, rounds) && CompressRuns.Compressed(comp, comp')
    ensures Good(outs, comp', rounds)
  {
    CompressRuns.CompressedToRoots(comp, comp');
    var r := Roots(comp);
    forall x | 0 <= x < |r| ensures Descending(r) && Root(r, x) == r[x] {
      assert r[r[x]] == r[x];
    }
    assert Roots(r) == r;
  }

  /** Any number of sampling rounds, any skipped label, any interleaving of the links of each pass and of the
      label moves of each compression: at the end every label is the smallest vertex of its component. */
  lemma AnyInterleavingFindsComponents(outs: Adj, ins: Adj, rounds: nat, c: nat, comps: seq<seq<nat>>,
                                       sampled: seq<nat>, linked: seq<nat>, labels: seq<nat>)
    requires Inverse(outs, ins) && Rounds(outs, rounds, comps)
    requires CompressRuns.Compressed(comps[rounds], sampled)
    requires Pass(sampled, LastTasks(outs, ins, rounds), c, linked)
    requires CompressRuns.Compressed(linked, labels)
    ensures |labels| == |outs| && forall x :: 0 <= x < |outs| ==> ComponentMin(EdgeSet(outs), x, labels[x])
    ensures (set x | 0 <= x < |labels| :: labels[x]) == Minima(EdgeSet(outs), |outs|)
  {
    hide Root, Roots, Sound, Connected, Pass, Coarser, CompressRuns.Compressed;
    RoundsAreGood(outs, rounds, comps);
    CompressedIsGood(outs, comps[rounds], rounds, sampled);
    LastPassSettles(outs, ins, rounds, c, sampled, linked);
    Afforest.SettledIsFinal(outs, ins, Roots(linked), rounds, c);
    CompressRuns.CompressedToRoots(linked, labels);
  }
}
