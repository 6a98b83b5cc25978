/** A taken batch of the edge log ends: the steps it still needs are finitely many, none of the others undoes
    one, and one of them is always enabled. */
module EdgeLogProgress {
  import opened Sums
  import opened EdgeLog

  /** Steps the batch waits for: of its writers, and of the archiver short of moving the tail. */
  predicate BatchStep(s: Log, step: Step) {
    (WriterStep(step) && InBatch(s, step.i)) || step.Poll? || step.StartReading? || step.Read?
  }

  function StageLeft(stage: Stage): nat {
    match stage
    case Waiting => 4
    case Storing(src, dst) => 3 - (if src then 1 else 0) - (if dst then 1 else 0)
    case Written => 0
  }

  function PhaseLeft(phase: Phase, i: nat): nat {
    match phase
    case Idle => 0
    case Polling(seen) => if i in seen then 1 else 2
    case Reading(got) => if i in got then 0 else 1
  }

  function IndexLeft(s: Log, i: nat): nat
    requires Shape(s)
  {
    StageLeft(StageOf(s, i)) + PhaseLeft(s.phase, i)
  }

  function Lefts(s: Log): seq<nat>
    requires Shape(s)
  {
    seq<nat>(BatchSize(s), k requires 0 <= k < BatchSize(s) => IndexLeft(s, s.tail + k))
  }

  function BatchSize(s: Log): nat {
    if s.marker <= s.tail then 0 else s.marker - s.tail
  }

  /** The batch's steps that are left, at most. */
  function Left(s: Log): nat
    requires Shape(s)
  {
    SumSeq(Lefts(s)) + if s.phase.Polling? then 1 else 0
  }

  // ---------------------------------------------------------------- what each step does to it

  /** One index of the batch loses a step, the others lose none. */
  lemma OneLess(s: Log, s': Log, i: nat)
    requires Shape(s) && Shape(s') && s'.tail == s.tail && s'.marker == s.marker && InBatch(s, i)
    requires s.phase.Polling? == s'.phase.Polling?
    requires IndexLeft(s', i) < IndexLeft(s, i)
    requires forall j: nat :: InBatch(s, j) && j != i ==> IndexLeft(s', j) == IndexLeft(s, j)
    ensures Left(s') < Left(s)
  {
    hide IndexLeft;
    var k := i - s.tail;
    var before, after := Lefts(s), Lefts(s');
    assert after == before[k := after[k]] by {
      forall j | 0 <= j < |before| && j != k ensures after[j] == before[j] {
        assert InBatch(s, s.tail + j);
      }
    }
    SumUpdate(before, k, after[k]);
  }

  lemma SameLeft(s: Log, s': Log)
    requires Shape(s) && Shape(s') && s'.tail == s.tail && s'.marker == s.marker
    requires s.phase.Polling? == s'.phase.Polling?
    requires forall j: nat :: InBatch(s, j) ==> IndexLeft(s', j) == IndexLeft(s, j)
    ensures Left(s') == Left(s)
  {
    hide IndexLeft;
    assert Lefts(s') == Lefts(s) by {
      forall j | 0 <= j < |Lefts(s)| ensures Lefts(s')[j] == Lefts(s)[j] {
        assert InBatch(s, s.tail + j);
      }
    }
  }

  lemma WriterDescends(s: Log, step: Step)
    requires Shape(s) && WriterStep(step) && Enabled(s, step)
    ensures StageLeft(StageOf(Apply(s, step), step.i)) < StageLeft(StageOf(s, step.i))
    ensures forall j: nat :: j != step.i ==> StageOf(Apply(s, step), j) == StageOf(s, j)
    ensures Apply(s, step).tail == s.tail && Apply(s, step).marker == s.marker && Apply(s, step).phase == s.phase
  {
    hide At, Rewind;
  }

  /** Every step the batch waits for lowers what is left. */
  lemma BatchStepDescends(s: Log, step: Step)
    requires Shape(s) && !s.phase.Idle? && Enabled(s, step) && BatchStep(s, step)
    ensures Left(Apply(s, step)) < Left(s) && !Apply(s, step).phase.Idle?
    ensures Apply(s, step).tail == s.tail && Apply(s, step).marker == s.marker
  {
    hide At, Rewind, Left;
    var s' := Apply(s, step);
    if WriterStep(step) {
      WriterDescends(s, step);
      OneLess(s, s', step.i);
    } else if step.StartReading? {
      ReadingStarts(s);
    } else {
      OneLess(s, s', step.i);
    }
  }

  lemma ReadingStarts(s: Log)
    requires Shape(s) && Enabled(s, StartReading)
    ensures Left(Apply(s, StartReading)) < Left(s)
  {
    var after := Lefts(Apply(s, StartReading));
    assert after == Lefts(s) by {
      forall k | 0 <= k < |after| ensures after[k] == Lefts(s)[k] {
        var i: nat := s.tail + k;
        assert i in s.phase.seen && after[k] == IndexLeft(Apply(s, StartReading), i) == IndexLeft(s, i);
      }
    }
  }

  /** Other steps than moving the tail leave it as it is. */
  lemma OtherStepKeeps(s: Log, step: Step)
    requires Shape(s) && Behind(s) && !s.phase.Idle? && Enabled(s, step)
    requires !BatchStep(s, step) && !step.UpdateMarker?
    ensures Left(Apply(s, step)) == Left(s) && !Apply(s, step).phase.Idle?
    ensures Apply(s, step).tail == s.tail && Apply(s, step).marker == s.marker
  {
    hide At, Rewind, Left;
    if WriterStep(step) {
      WriterDescends(s, step);
    }
    SameLeft(s, Apply(s, step));
  }

  /** A batch that fits always has a next step: its own, or the tail may move. */
  lemma BatchCanMove(s: Log)
    requires Inv(s) && !s.phase.Idle? && s.marker <= s.tail + |s.slots|
    ensures Enabled(s, UpdateMarker) || exists step :: BatchStep(s, step) && Enabled(s, step)
  {
    match s.phase
    case Polling(seen) =>
      if i: nat :| InBatch(s, i) && i !in seen {
        PollingNeverStuck(s, i);
        if Enabled(s, Poll(i)) {
          assert BatchStep(s, Poll(i));
        } else {
          var step :| WriterStep(step) && step.i == i && Enabled(s, step);
          assert BatchStep(s, step);
        }
      } else {
        assert forall i :: s.tail <= i < s.marker ==> InBatch(s, i);
        assert BatchStep(s, StartReading) && Enabled(s, StartReading);
      }
    case Reading(got) =>
      if i: nat :| InBatch(s, i) && i !in got {
        assert BatchStep(s, Read(i)) && Enabled(s, Read(i));
      } else {
        assert forall i :: s.tail <= i < s.marker ==> InBatch(s, i);
      }
  }

  // ---------------------------------------------------------------- over whole runs

  /** The steps of a run, up to the tail's next move, that the batch waits for. */
  function BatchSteps(s: Log, steps: seq<Step>): nat
    requires Shape(s) && Legal(s, steps)
    decreases |steps|
  {
    if steps == [] || steps[0].UpdateMarker? then 0
    else (if BatchStep(s, steps[0]) then 1 else 0) + BatchSteps(Apply(s, steps[0]), steps[1..])
  }

  predicate TailMoves(steps: seq<Step>) {
    exists i :: 0 <= i < |steps| && steps[i].UpdateMarker?
  }

  /** Whatever else writers and callers do, a taken batch that fits ends after at most `Left` steps of its own:
      a run holds no more of them before the tail moves, and as long as it has not moved there is a next one. So
      the batch ends under every schedule that keeps taking steps it waits for. */
  lemma {:induction false} BatchEnds(s: Log, steps: seq<Step>)
    requires Inv(s) && !s.phase.Idle? && s.marker <= s.tail + |s.slots| && s.tail <= s.marker && Legal(s, steps)
    ensures BatchSteps(s, steps) <= Left(s)
    ensures !TailMoves(steps) ==>
              var e := Exec(s, steps);
              Enabled(e, UpdateMarker) || exists step :: BatchStep(e, step) && Enabled(e, step)
    decreases |steps|
  {
    hide Left, BatchStep, Enabled, Inv, Apply;
    InvShape(s);
    if steps == [] {
      BatchCanMove(s);
    } else if !steps[0].UpdateMarker? {
      var step, s1 := steps[0], Apply(s, steps[0]);
      InvBehind(s);
      StepKeeps(s, step);
      if BatchStep(s, step) {
        BatchStepDescends(s, step);
      } else {
        OtherStepKeeps(s, step);
      }
      BatchEnds(s1, steps[1..]);
      if !TailMoves(steps) {
        forall i | 0 <= i < |steps[1..]| ensures !steps[1..][i].UpdateMarker? {
          assert steps[1..][i] == steps[i + 1];
        }
      }
    } else {
      assert TailMoves(steps);
    }
  }

  lemma InvBehind(s: Log)
    requires Inv(s)
    ensures Shape(s) && Behind(s)
  {
  }

  // ---------------------------------------------------------------- every edge can be archived

  lemma BatchStepQuiet(s: Log, step: Step)
    requires Shape(s) && Enabled(s, step) && BatchStep(s, step)
    ensures Apply(s, step).edges == s.edges && |Apply(s, step).slots| == |s.slots| && Fits(s, step)
  {
  }

  lemma TailFollows(s: Log)
    requires Shape(s) && Enabled(s, UpdateMarker)
    ensures var s' := Apply(s, UpdateMarker);
            s'.tail == s.marker && s'.phase.Idle? && s'.edges == s.edges && |s'.slots| == |s.slots|
  {
  }

  /** A taken batch that fits is finished by its own steps and the move of the tail. */
  lemma {:induction false} FinishBatch(s: Log) returns (steps: seq<Step>)
    requires Inv(s) && !s.phase.Idle? && s.tail <= s.marker <= s.tail + |s.slots|
    ensures Legal(s, steps) && BatchesFit(s, steps)
    ensures var e := Exec(s, steps);
            Inv(e) && e.phase.Idle? && e.tail == s.marker && e.edges == s.edges && |e.slots| == |s.slots|
    decreases Left(s)
  {
    hide Left, BatchStep, Enabled, Inv, Apply;
    InvShape(s);
    BatchCanMove(s);
    if Enabled(s, UpdateMarker) {
      StepKeeps(s, UpdateMarker);
      TailFollows(s);
      steps := [UpdateMarker];
      assert steps[1..] == [];
    } else {
      var step :| BatchStep(s, step) && Enabled(s, step);
      BatchStepDescends(s, step);
      BatchStepQuiet(s, step);
      StepKeeps(s, step);
      var rest := FinishBatch(Apply(s, step));
      steps := [step] + rest;
      assert steps[1..] == rest;
    }
  }

  /** A marker queued on an idle log is taken next. */
  lemma MarkerTaken(s: Log, m: nat)
    requires Inv(s) && s.phase.Idle? && s.tail <= m <= s.Head() && m <= s.tail + |s.slots|
    ensures Enabled(s, QueueMarker(m)) && Enabled(Apply(s, QueueMarker(m)), MoveMarker)
    ensures var s' := Apply(Apply(s, QueueMarker(m)), MoveMarker);
            Inv(s') && !s'.phase.Idle? && s'.marker == m && s'.tail == s.tail && s'.edges == s.edges
            && |s'.slots| == |s.slots|
  {
    hide Inv, At;
    InvBehind(s);
    StepKeeps(s, QueueMarker(m));
    InvBehind(Apply(s, QueueMarker(m)));
    StepKeeps(Apply(s, QueueMarker(m)), MoveMarker);
  }

  lemma {:induction false} LegalConcat(s: Log, a: seq<Step>, b: seq<Step>)
    requires Shape(s) && Legal(s, a) && BatchesFit(s, a) && Legal(Exec(s, a), b) && BatchesFit(Exec(s, a), b)
    ensures Legal(s, a + b) && BatchesFit(s, a + b) && Exec(s, a + b) == Exec(Exec(s, a), b)
    decreases |a|
  {
    hide Apply, Enabled, Fits;
    if a == [] {
      assert a + b == b;
    } else {
      assert (a + b)[0] == a[0] && (a + b)[1..] == a[1..] + b;
      LegalConcat(Apply(s, a[0]), a[1..], b);
    }
  }

  /** From every idle state a run whose batches fit has reached, such a run goes on until every appended edge, in
      order and once, is in the archive. */
  lemma {:induction false} EveryEdgeCanBeArchived(s: Log) returns (steps: seq<Step>)
    requires Inv(s) && s.phase.Idle?
    ensures Legal(s, steps) && BatchesFit(s, steps)
    ensures var e := Exec(s, steps); e.edges == s.edges && |e.archived| == |s.edges| && Faithful(e)
    decreases s.Head() - s.tail
  {
    hide Apply, Enabled, Inv;
    InvEnds(s);
    if s.tail == s.Head() {
      steps := [];
    } else {
      var m := if s.tail + |s.slots| < s.Head() then s.tail + |s.slots| else s.Head();
      MarkerTaken(s, m);
      var s1 := Apply(s, QueueMarker(m));
      var s2 := Apply(s1, MoveMarker);
      var batch := FinishBatch(s2);
      var rest := EveryEdgeCanBeArchived(Exec(s2, batch));
      LegalConcat(s2, batch, rest);
      steps := [QueueMarker(m)] + ([MoveMarker] + (batch + rest));
      assert steps[1..] == [MoveMarker] + (batch + rest) && steps[1..][1..] == batch + rest;
    }
  }

  lemma InvEnds(s: Log)
    requires Inv(s)
    ensures Shape(s) && s.tail <= s.Head() && Faithful(s) && |s.archived| == s.tail
  {
  }
}
