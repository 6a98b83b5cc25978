/** Several thread-local buffers flushed into one sliding queue, as atomic steps in any interleaving:
    a flush reserves its region with one fetch-and-add and then copies element by element. */
module QueueFlushes {
  import opened Multisets
  import Sums

  datatype Stage = Filling | Copying(start: nat, done: nat)

  datatype Buffer = Buffer(local: seq<nat>, stage: Stage)

  /** The queue and its buffers. `plan` and `pushed` are history: what the reserved slots are meant to
      hold, and what was pushed since the last slide. */
  datatype State = State(
    shared: seq<nat>, sharedIn: nat, outStart: nat, outEnd: nat,
    localSize: nat, buffers: seq<Buffer>, plan: seq<nat>, pushed: multiset<nat>)

  datatype Step = Push(t: nat, x: nat) | Reserve(t: nat) | Copy(t: nat) | Finish(t: nat) | Slide

  predicate Idle(b: Buffer) {
    b.stage.Filling? && b.local == []
  }

  /** Pushes stay within capacity, and the window slides when every buffer has been flushed. */
  predicate Enabled(s: State, step: Step) {
    match step
    case Push(t, x) => t < |s.buffers| && s.buffers[t].stage.Filling? && |s.buffers[t].local| < s.localSize
                       && s.outEnd + |s.pushed| < |s.shared|
    case Reserve(t) => t < |s.buffers| && s.buffers[t].stage.Filling?
    case Copy(t) => t < |s.buffers| && s.buffers[t].stage.Copying? && s.buffers[t].stage.done < |s.buffers[t].local|
    case Finish(t) => t < |s.buffers| && s.buffers[t].stage.Copying? && s.buffers[t].stage.done == |s.buffers[t].local|
    case Slide => forall t :: 0 <= t < |s.buffers| ==> Idle(s.buffers[t])
  }

  function Apply(s: State, step: Step): State
    requires Enabled(s, step)
  {
    match step
    case Push(t, x) =>
      var b := s.buffers[t];
      s.(buffers := s.buffers[t := b.(local := b.local + [x])], pushed := s.pushed + multiset{x})
    case Reserve(t) =>
      var b := s.buffers[t];
      s.(sharedIn := s.sharedIn + |b.local|, plan := s.plan + b.local,
         buffers := s.buffers[t := b.(stage := Copying(s.sharedIn, 0))])
    case Copy(t) =>
      var b := s.buffers[t];
      var p := b.stage.start + b.stage.done;
      s.(shared := if p < |s.shared| then s.shared[p := b.local[b.stage.done]] else s.shared,
         buffers := s.buffers[t := b.(stage := Copying(b.stage.start, b.stage.done + 1))])
    case Finish(t) => s.(buffers := s.buffers[t := Buffer([], Filling)])
    case Slide => s.(outStart := s.outEnd, outEnd := s.sharedIn, plan := [], pushed := multiset{})
  }

  predicate Legal(s: State, steps: seq<Step>)
    decreases |steps|
  {
    steps == [] || (Enabled(s, steps[0]) && Legal(Apply(s, steps[0]), steps[1..]))
  }

  function Exec(s: State, steps: seq<Step>): State
    requires Legal(s, steps)
    decreases |steps|
  {
    if steps == [] then s else Exec(Apply(s, steps[0]), steps[1..])
  }

  function Init(capacity: nat, threads: nat, localSize: nat): State {
    State(seq(capacity, _ => 0), 0, 0, 0, localSize, seq(threads, _ => Buffer([], Filling)), [], multiset{})
  }

  // ---------------------------------------------------------------- invariant

  /** What the buffers hold that has no slot yet. */
  function Unplaced(buffers: seq<Buffer>): multiset<nat> {
    if buffers == [] then multiset{}
    else Unplaced(buffers[..|buffers| - 1]) + Loose(buffers[|buffers| - 1])
  }

  function Loose(b: Buffer): multiset<nat> {
    if b.stage.Filling? then multiset(b.local) else multiset{}
  }

  /** b still has to write slot p. */
  predicate Owes(b: Buffer, p: nat) {
    b.stage.Copying? && b.stage.start + b.stage.done <= p < b.stage.start + |b.local|
  }

  predicate Apart(a: Buffer, b: Buffer) {
    a.stage.Copying? && b.stage.Copying? ==>
      a.stage.start + |a.local| <= b.stage.start || b.stage.start + |b.local| <= a.stage.start
  }

  predicate RegionOk(s: State, t: nat)
    requires t < |s.buffers| && s.outEnd + |s.plan| == s.sharedIn
  {
    var b := s.buffers[t];
    b.stage.Copying? ==>
      && s.outEnd <= b.stage.start && b.stage.start + |b.local| <= s.sharedIn && b.stage.done <= |b.local|
      && s.plan[b.stage.start - s.outEnd..b.stage.start - s.outEnd + |b.local|] == b.local
  }

  /** Slot p holds what it is meant to, or someone is still to write it. */
  predicate SlotOk(s: State, p: nat)
    requires s.outEnd <= p < s.outEnd + |s.plan| && p < |s.shared|
  {
    s.shared[p] == s.plan[p - s.outEnd] || exists t :: 0 <= t < |s.buffers| && Owes(s.buffers[t], p)
  }

  ghost predicate Inv(s: State) {
    && s.outStart <= s.outEnd && s.outEnd + |s.plan| == s.sharedIn <= |s.shared|
    && s.pushed == multiset(s.plan) + Unplaced(s.buffers) && s.outEnd + |s.pushed| <= |s.shared|
    && (forall t :: 0 <= t < |s.buffers| ==> |s.buffers[t].local| <= s.localSize)
    && (forall t :: 0 <= t < |s.buffers| ==> RegionOk(s, t))
    && (forall t, u :: 0 <= t < u < |s.buffers| ==> Apart(s.buffers[t], s.buffers[u]))
    && (forall p :: s.outEnd <= p < s.sharedIn ==> SlotOk(s, p))
  }

  lemma {:induction false} UnplacedUpdate(buffers: seq<Buffer>, t: nat, b: Buffer)
    requires t < |buffers|
    ensures Unplaced(buffers[t := b]) + Loose(buffers[t]) == Unplaced(buffers) + Loose(b)
  {
    hide Loose;
    var n := |buffers| - 1;
    if t == n {
      assert buffers[t := b][..n] == buffers[..n];
    } else {
      var rest := buffers[..n];
      assert buffers[t := b][..n] == rest[t := b];
      UnplacedUpdate(rest, t, b);
      SumSwap(Unplaced(rest[t := b]), Loose(buffers[n]), Loose(buffers[t]));
      SumSwap(Unplaced(rest), Loose(b), Loose(buffers[n]));
    }
  }

  /** A buffer that gains `more` loose elements. */
  lemma UnplacedMore(buffers: seq<Buffer>, t: nat, b: Buffer, more: multiset<nat>)
    requires t < |buffers| && Loose(b) == Loose(buffers[t]) + more
    ensures Unplaced(buffers[t := b]) == Unplaced(buffers) + more
  {
    hide Unplaced, Loose;
    UnplacedUpdate(buffers, t, b);
    SumSwap(Unplaced(buffers), Loose(buffers[t]), more);
    assert Unplaced(buffers) + Loose(b) == Unplaced(buffers) + Loose(buffers[t]) + more;
    Cancel(Unplaced(buffers[t := b]), Unplaced(buffers) + more, Loose(buffers[t]));
  }

  /** A slot stays right if its value stays and no debt is forgotten. */
  lemma SlotCarries(s: State, s': State, t: nat, p: nat)
    requires s.outEnd == s'.outEnd <= p < s.outEnd + |s.plan| && s.plan <= s'.plan && p < |s.shared| == |s'.shared|
    requires SlotOk(s, p) && s'.shared[p] == s.shared[p]
    requires t < |s.buffers| == |s'.buffers| && s'.buffers == s.buffers[t := s'.buffers[t]]
    requires Owes(s.buffers[t], p) ==> Owes(s'.buffers[t], p)
    ensures SlotOk(s', p)
  {
    if s.shared[p] != s.plan[p - s.outEnd] {
      var u :| 0 <= u < |s.buffers| && Owes(s.buffers[u], p);
      assert Owes(s'.buffers[u], p);
    }
  }

  /** The other buffers' regions are untouched. */
  lemma RegionsCarry(s: State, s': State, t: nat)
    requires Inv(s) && s'.outEnd == s.outEnd && s.plan <= s'.plan && s'.outEnd + |s'.plan| == s'.sharedIn
    requires t < |s.buffers| == |s'.buffers| && s'.buffers == s.buffers[t := s'.buffers[t]] && RegionOk(s', t)
    ensures forall u :: 0 <= u < |s'.buffers| ==> RegionOk(s', u)
  {
    forall u | 0 <= u < |s'.buffers| ensures RegionOk(s', u) {
      assert RegionOk(s, u);
      if u != t && s.buffers[u].stage.Copying? {
        var lo := s.buffers[u].stage.start - s.outEnd;
        assert s'.plan[lo..lo + |s.buffers[u].local|] == s.plan[lo..lo + |s.buffers[u].local|];
      }
    }
  }

  lemma {:induction false} UnplacedIdle(buffers: seq<Buffer>)
    requires forall t :: 0 <= t < |buffers| ==> Idle(buffers[t])
    ensures Unplaced(buffers) == multiset{}
  {
    if buffers != [] {
      UnplacedIdle(buffers[..|buffers| - 1]);
    }
  }

  lemma InitInv(capacity: nat, threads: nat, localSize: nat)
    ensures Inv(Init(capacity, threads, localSize))
  {
    UnplacedIdle(Init(capacity, threads, localSize).buffers);
  }

  lemma PushKeeps(s: State, t: nat, x: nat)
    requires Inv(s) && Enabled(s, Push(t, x))
    ensures Inv(Apply(s, Push(t, x)))
  {
    hide SlotOk, RegionOk, Unplaced;
    var b := s.buffers[t];
    var b' := b.(local := b.local + [x]);
    var s' := Apply(s, Push(t, x));
    FillingHasNoRegion(s, t);
    FillingHasNoRegion(s', t);
    UnplacedMore(s.buffers, t, b', multiset{x});
    RegionsCarry(s, s', t);
    forall p | s.outEnd <= p < s.sharedIn ensures SlotOk(s', p) {
      SlotCarries(s, s', t, p);
    }
  }

  lemma FillingHasNoRegion(s: State, t: nat)
    requires t < |s.buffers| && s.outEnd + |s.plan| == s.sharedIn && s.buffers[t].stage.Filling?
    ensures RegionOk(s, t) && Loose(s.buffers[t]) == multiset(s.buffers[t].local)
  {
  }

  lemma ReserveKeeps(s: State, t: nat)
    requires Inv(s) && Enabled(s, Reserve(t))
    ensures Inv(Apply(s, Reserve(t)))
  {
    hide SlotOk, RegionOk, Unplaced;
    var b := s.buffers[t];
    var s' := Apply(s, Reserve(t));
    UnplacedUpdate(s.buffers, t, s'.buffers[t]);
    NewRegion(s, t);
    RegionsCarry(s, s', t);
    assert multiset(s'.plan) == multiset(s.plan) + multiset(b.local);
    MoveIn(multiset(s.plan), Unplaced(s.buffers), Unplaced(s'.buffers), multiset(b.local));
    assert s'.pushed == multiset(s'.plan) + Unplaced(s'.buffers);
    assert |multiset(s'.plan)| == |s'.plan|;
    forall p | s'.outEnd <= p < s'.sharedIn ensures SlotOk(s', p) {
      if p < s.sharedIn {
        SlotCarries(s, s', t, p);
      } else {
        SlotOwed(s', t, p);
      }
    }
    forall u | 0 <= u < |s.buffers| && u != t ensures Apart(s'.buffers[u], s'.buffers[t]) {
      EndsBefore(s, u);
    }
  }

  lemma MoveIn(a: multiset<nat>, u: multiset<nat>, v: multiset<nat>, b: multiset<nat>)
    requires v + b == u + multiset{}
    ensures a + u == a + b + v
  {
    assert u == v + b;
  }

  /** The reserved region is planned to hold the buffer. */
  lemma NewRegion(s: State, t: nat)
    requires s.outEnd + |s.plan| == s.sharedIn && t < |s.buffers| && s.buffers[t].stage.Filling?
    ensures RegionOk(Apply(s, Reserve(t)), t)
  {
  }

  lemma EndsBefore(s: State, u: nat)
    requires u < |s.buffers| && s.outEnd + |s.plan| == s.sharedIn && RegionOk(s, u)
    ensures s.buffers[u].stage.Copying? ==> s.buffers[u].stage.start + |s.buffers[u].local| <= s.sharedIn
  {
  }

  lemma SlotOwed(s: State, t: nat, p: nat)
    requires t < |s.buffers| && s.outEnd <= p < s.outEnd + |s.plan| && p < |s.shared| && Owes(s.buffers[t], p)
    ensures SlotOk(s, p)
  {
  }

  /** The slot copied next is inside the region and planned to hold what is copied. */
  lemma CopyTarget(s: State, t: nat)
    requires Inv(s) && Enabled(s, Copy(t))
    ensures var b := s.buffers[t];
            var w := b.stage.start + b.stage.done;
            s.outEnd <= w < s.sharedIn && s.plan[w - s.outEnd] == b.local[b.stage.done]
    ensures RegionOk(Apply(s, Copy(t)), t)
  {
    hide SlotOk, Apart, Unplaced;
    var b := s.buffers[t];
    var lo := b.stage.start - s.outEnd;
    assert RegionOk(s, t);
    assert s.plan[lo + b.stage.done] == s.plan[lo..lo + |b.local|][b.stage.done];
  }

  lemma CopyKeeps(s: State, t: nat)
    requires Inv(s) && Enabled(s, Copy(t))
    ensures Inv(Apply(s, Copy(t)))
  {
    hide SlotOk, RegionOk, Unplaced, Owes;
    CopyTarget(s, t);
    var s' := Apply(s, Copy(t));
    UnplacedMore(s.buffers, t, s'.buffers[t], multiset{});
    RegionsCarry(s, s', t);
    forall p | s'.outEnd <= p < s'.sharedIn ensures SlotOk(s', p) {
      CopySlot(s, t, p);
    }
  }

  lemma CopySlot(s: State, t: nat, p: nat)
    requires Inv(s) && Enabled(s, Copy(t)) && s.outEnd <= p < s.sharedIn
    ensures SlotOk(Apply(s, Copy(t)), p)
  {
    hide RegionOk, Unplaced;
    CopyTarget(s, t);
    var s', b := Apply(s, Copy(t)), s.buffers[t];
    if p == b.stage.start + b.stage.done {
      SlotWritten(s', p);
    } else {
      hide SlotOk;
      SlotCarries(s, s', t, p);
    }
  }

  lemma SlotWritten(s: State, p: nat)
    requires s.outEnd <= p < s.outEnd + |s.plan| && p < |s.shared| && s.shared[p] == s.plan[p - s.outEnd]
    ensures SlotOk(s, p)
  {
  }

  lemma FinishKeeps(s: State, t: nat)
    requires Inv(s) && Enabled(s, Finish(t))
    ensures Inv(Apply(s, Finish(t)))
  {
    hide SlotOk, RegionOk, Unplaced;
    var s' := Apply(s, Finish(t));
    UnplacedMore(s.buffers, t, s'.buffers[t], multiset{});
    FillingHasNoRegion(s', t);
    RegionsCarry(s, s', t);
    forall p | s'.outEnd <= p < s'.sharedIn ensures SlotOk(s', p) {
      SlotCarries(s, s', t, p);
    }
  }

  lemma SlideKeeps(s: State)
    requires Inv(s) && Enabled(s, Slide)
    ensures Inv(Apply(s, Slide))
  {
    hide SlotOk, Unplaced;
    UnplacedIdle(s.buffers);
  }

  lemma StepKeeps(s: State, step: Step)
    requires Inv(s) && Enabled(s, step)
    ensures Inv(Apply(s, step)) && Apply(s, step).localSize == s.localSize
  {
    hide Inv;
    match step
    case Push(t, x) => PushKeeps(s, t, x);
    case Reserve(t) => ReserveKeeps(s, t);
    case Copy(t) => CopyKeeps(s, t);
    case Finish(t) => FinishKeeps(s, t);
    case Slide => SlideKeeps(s);
  }

  lemma {:induction false} RunKeepsInv(s: State, steps: seq<Step>)
    requires Inv(s) && Legal(s, steps)
    ensures Inv(Exec(s, steps)) && Exec(s, steps).localSize == s.localSize
    decreases |steps|
  {
    hide Inv, Enabled, Apply;
    if steps != [] {
      StepKeeps(s, steps[0]);
      RunKeepsInv(Apply(s, steps[0]), steps[1..]);
    }
  }

  // ---------------------------------------------------------------- results over whole runs

  function Window(s: State): seq<nat>
    requires s.outStart <= s.outEnd <= |s.shared|
  {
    s.shared[s.outStart..s.outEnd]
  }

  /** In every reachable state no buffer holds more than its size, and the regions being copied are in bounds,
      disjoint, and beyond the window. */
  lemma FlushesNeverOverlap(capacity: nat, threads: nat, localSize: nat, steps: seq<Step>)
    requires Legal(Init(capacity, threads, localSize), steps)
    ensures var s := Exec(Init(capacity, threads, localSize), steps);
            && (forall t :: 0 <= t < |s.buffers| ==> |s.buffers[t].local| <= localSize)
            && (forall t, u :: 0 <= t < u < |s.buffers| ==> Apart(s.buffers[t], s.buffers[u]))
            && forall t :: 0 <= t < |s.buffers| && s.buffers[t].stage.Copying? ==>
                 s.outEnd <= s.buffers[t].stage.start && s.buffers[t].stage.start + |s.buffers[t].local| <= |s.shared|
  {
    hide SlotOk, Unplaced, Apply, Enabled;
    InitInv(capacity, threads, localSize);
    RunKeepsInv(Init(capacity, threads, localSize), steps);
    var s := Exec(Init(capacity, threads, localSize), steps);
    forall t | 0 <= t < |s.buffers| && s.buffers[t].stage.Copying?
      ensures s.outEnd <= s.buffers[t].stage.start && s.buffers[t].stage.start + |s.buffers[t].local| <= |s.shared|
    {
      assert RegionOk(s, t);
    }
  }

  lemma WindowStep(s: State, step: Step)
    requires Inv(s) && Enabled(s, step) && step != Slide
    ensures var s' := Apply(s, step);
            s'.outStart <= s'.outEnd <= |s'.shared| && Window(s') == Window(s) && s.pushed <= s'.pushed
  {
    hide SlotOk, RegionOk, Apart;
    if step.Copy? {
      CopyTarget(s, step.t);
    }
  }

  /** Readers of the window are undisturbed until it slides. */
  lemma {:induction false} WindowStable(s: State, steps: seq<Step>)
    requires Inv(s) && Legal(s, steps) && forall i :: 0 <= i < |steps| ==> steps[i] != Slide
    ensures Inv(Exec(s, steps)) && Window(Exec(s, steps)) == Window(s)
    ensures s.pushed <= Exec(s, steps).pushed
    decreases |steps|
  {
    if steps != [] {
      hide Inv;
      StepKeeps(s, steps[0]);
      WindowStep(s, steps[0]);
      WindowStable(Apply(s, steps[0]), steps[1..]);
    }
  }

  /** Sliding shows exactly what was pushed since the last slide. */
  lemma SlideDelivers(s: State)
    requires Inv(s) && Enabled(s, Slide)
    ensures Inv(Apply(s, Slide)) && multiset(Window(Apply(s, Slide))) == s.pushed
  {
    SlideKeeps(s);
    UnplacedIdle(s.buffers);
    forall p | s.outEnd <= p < s.sharedIn ensures s.shared[p] == s.plan[p - s.outEnd] {
      assert SlotOk(s, p);
    }
    assert s.shared[s.outEnd..s.sharedIn] == s.plan;
  }

  function Pushes(steps: seq<Step>): multiset<nat> {
    if steps == [] then multiset{}
    else (if steps[0].Push? then multiset{steps[0].x} else multiset{}) + Pushes(steps[1..])
  }

  lemma {:induction false} PushedGrows(s: State, steps: seq<Step>)
    requires Legal(s, steps) && forall i :: 0 <= i < |steps| ==> steps[i] != Slide
    ensures Exec(s, steps).pushed == s.pushed + Pushes(steps)
    decreases |steps|
  {
    if steps != [] {
      PushedGrows(Apply(s, steps[0]), steps[1..]);
    }
  }

  /** Whatever the interleaving, the next window is exactly the multiset of all pushes since the last
      slide; nothing is lost, doubled or overwritten. */
  lemma NextWindowIsPushes(s: State, steps: seq<Step>)
    requires Inv(s) && s.pushed == multiset{} && Legal(s, steps) && forall i :: 0 <= i < |steps| ==> steps[i] != Slide
    requires Enabled(Exec(s, steps), Slide)
    ensures var next := Apply(Exec(s, steps), Slide);
            Inv(next) && next.pushed == multiset{} && multiset(Window(next)) == Pushes(steps)
  {
    hide Inv;
    PushedGrows(s, steps);
    RunKeepsInv(s, steps);
    SlideDelivers(Exec(s, steps));
  }

  // ---------------------------------------------------------------- every flush ends

  predicate FlushStep(step: Step) {
    step.Reserve? || step.Copy? || step.Finish?
  }

  /** Steps until the buffer is idle. */
  function BufferLeft(b: Buffer): nat {
    match b.stage
    case Filling => if b.local == [] then 0 else |b.local| + 2
    case Copying(_, done) => if done < |b.local| then |b.local| - done + 1 else 1
  }

  function Lefts(s: State): seq<nat> {
    seq(|s.buffers|, t requires 0 <= t < |s.buffers| => BufferLeft(s.buffers[t]))
  }

  function Left(s: State): nat {
    Sums.SumSeq(Lefts(s))
  }

  /** The next step of a buffer that is not idle. */
  function NextOf(s: State, t: nat): Step
    requires t < |s.buffers|
  {
    var b := s.buffers[t];
    if b.stage.Filling? then Reserve(t) else if b.stage.done < |b.local| then Copy(t) else Finish(t)
  }

  lemma FlushStepDescends(s: State, t: nat)
    requires Inv(s) && t < |s.buffers| && !Idle(s.buffers[t])
    ensures Enabled(s, NextOf(s, t)) && Left(Apply(s, NextOf(s, t))) < Left(s)
    ensures Apply(s, NextOf(s, t)).pushed == s.pushed && |Apply(s, NextOf(s, t)).buffers| == |s.buffers|
  {
    hide SlotOk, Apart, Unplaced;
    assert RegionOk(s, t);
    var before, after := Lefts(s), Lefts(Apply(s, NextOf(s, t)));
    assert after == before[t := after[t]];
    Sums.SumUpdate(before, t, after[t]);
  }

  /** In every state the window may slide, or a flush has a next step and comes closer to its end. */
  lemma FlushProgress(s: State)
    requires Inv(s)
    ensures Enabled(s, Slide) || exists step :: FlushStep(step) && Enabled(s, step) && Left(Apply(s, step)) < Left(s)
  {
    if t: nat :| t < |s.buffers| && !Idle(s.buffers[t]) {
      FlushStepDescends(s, t);
      assert FlushStep(NextOf(s, t));
    }
  }

  /** So from every reachable state flushes lead to a slide that delivers all that was pushed. */
  lemma {:induction false} PushesAreDelivered(s: State) returns (steps: seq<Step>)
    requires Inv(s)
    ensures Legal(s, steps) && forall i :: 0 <= i < |steps| ==> FlushStep(steps[i])
    ensures Enabled(Exec(s, steps), Slide)
    ensures var next := Apply(Exec(s, steps), Slide);
            Inv(next) && next.pushed == multiset{} && multiset(Window(next)) == s.pushed
    decreases Left(s)
  {
    hide Inv, Left, NextOf, Apply;
    if Enabled(s, Slide) {
      steps := [];
      SlideDelivers(s);
      SlideEmpties(s);
    } else {
      var t: nat :| t < |s.buffers| && !Idle(s.buffers[t]);
      var step := NextOf(s, t);
      FlushStepDescends(s, t);
      NextFlushes(s, t);
      StepKeeps(s, step);
      var rest := PushesAreDelivered(Apply(s, step));
      steps := [step] + rest;
      assert steps[1..] == rest;
    }
  }

  lemma SlideEmpties(s: State)
    requires Enabled(s, Slide)
    ensures Apply(s, Slide).pushed == multiset{}
  {
  }

  lemma NextFlushes(s: State, t: nat)
    requires t < |s.buffers|
    ensures FlushStep(NextOf(s, t))
  {
  }

  /** While the queue has room a thread can always push, after flushing its own buffer if that is full. */
  lemma {:induction false} RoomMeansPush(s: State, t: nat, x: nat) returns (steps: seq<Step>)
    requires Inv(s) && t < |s.buffers| && s.localSize > 0 && s.outEnd + |s.pushed| < |s.shared|
    ensures Legal(s, steps) && forall i :: 0 <= i < |steps| ==> FlushStep(steps[i]) && steps[i].t == t
    ensures Enabled(Exec(s, steps), Push(t, x)) && Exec(s, steps).pushed == s.pushed
    decreases Left(s)
  {
    hide Inv, Left, NextOf, SlotOk, Apart, RegionOk, Unplaced;
    if Enabled(s, Push(t, x)) {
      steps := [];
    } else {
      var step := NextOf(s, t);
      FlushStepDescends(s, t);
      NextFlushes(s, t);
      NextIsOf(s, t);
      StepKeeps(s, step);
      var rest := RoomMeansPush(Apply(s, step), t, x);
      steps := [step] + rest;
      assert steps[1..] == rest;
    }
  }

  lemma NextIsOf(s: State, t: nat)
    requires t < |s.buffers|
    ensures FlushStep(NextOf(s, t)) && NextOf(s, t).t == t
    ensures Enabled(s, NextOf(s, t)) ==>
              var s' := Apply(s, NextOf(s, t));
              s'.localSize == s.localSize && s'.outEnd == s.outEnd && |s'.shared| == |s.shared|
  {
  }
}
