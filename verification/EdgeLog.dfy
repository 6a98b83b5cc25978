/** The circular edge log as atomic steps in any interleaving: writers reserve, wait for room and copy the
    two words of their edge into the slot, marking it on every other lap; the archiver takes the newest
    queued marker, polls every slot up to it for this lap's polarity, reads the slots, and moves the tail. */
module EdgeLog {
  import RecordLog
  import Sharding

  /** src may carry the delete mark; dst does not, its top bit is the lap polarity. */
  type Edge = e: Sharding.Record | !RecordLog.IsDel(e.dst) witness Sharding.Record(0, 0)

  /** Whose edge a word of the log came from: history, which no step looks at. */
  datatype Origin = Zeroed | Of(index: nat)

  datatype Word = Word(value: RecordLog.Sid, from: Origin)

  datatype Copy = Copy(src: Word, dst: Word)

  datatype Slot = Slot(copy: Copy, marked: bool)

  /** Waiting for room; storing, with what is stored so far; or complete for its lap. */
  datatype Stage = Waiting | Storing(src: bool, dst: bool) | Written

  datatype Phase = Idle | Polling(seen: set<nat>) | Reading(got: map<nat, Copy>)

  /** `edges` (every reserved index's edge), `stages` and `archived` are what the writers and the archiver
      know or produce; the rest is the log. With `srcFirst`, a lap that sets no mark stores the source
      before the destination, which holds the polled bit. */
  datatype Log = Log(
    srcFirst: bool,
    slots: seq<Slot>, tail: nat, marker: nat,
    edges: seq<Edge>, stages: seq<Stage>,
    queue: seq<nat>, qHead: nat, qTail: nat,
    phase: Phase, archived: seq<Copy>)
  {
    function Head(): nat {
      |edges|
    }
  }

  datatype Step =
    | Reserve(edge: Edge)
    | Pass(i: nat)
    | StoreSrc(i: nat)
    | StoreDst(i: nat)
    | Mark(i: nat)
    | QueueMarker(m: nat)
    | MoveMarker
    | Poll(i: nat)
    | StartReading
    | Read(i: nat)
    | UpdateMarker

  function CopyOf(i: nat, e: Edge): Copy {
    Copy(Word(e.src, Of(i)), Word(e.dst, Of(i)))
  }

  function EdgeIn(c: Copy): Sharding.Record {
    Sharding.Record(c.src.value, c.dst.value)
  }

  function EdgesIn(copies: seq<Copy>): seq<Sharding.Record> {
    seq(|copies|, k requires 0 <= k < |copies| => EdgeIn(copies[k]))
  }

  /** Laps alternate: on even laps slots are marked. */
  predicate Rewind(i: nat, n: nat)
    requires n > 0
  {
    i / n % 2 == 0
  }

  /** The index under the power-of-two mask. */
  function At(i: nat, n: nat): (k: nat)
    requires n > 0
    ensures k < n
  {
    i % n
  }

  predicate Shape(s: Log) {
    |s.slots| > 0 && |s.stages| == |s.edges| && |s.queue| > 0
  }

  /** Both words stored: complete, unless the lap still sets its mark. */
  function Stored(i: nat, n: nat, src: bool, dst: bool): Stage
    requires n > 0
  {
    if src && dst && !Rewind(i, n) then Written else Storing(src, dst)
  }

  predicate Busy(s: Log, i: nat)
    requires Shape(s)
  {
    i < s.Head() && s.stages[i].Storing?
  }

  /** The indices of the batch that was taken. */
  predicate InBatch(s: Log, i: nat) {
    s.tail <= i < s.marker
  }

  /** The guards of the code; in its unsigned arithmetic a tail beyond an index's own end also blocks. A
      marker is any index up to the head, and markers are queued in any order. */
  predicate Enabled(s: Log, step: Step)
    requires Shape(s)
  {
    var n := |s.slots|;
    match step
    case Reserve(_) => true
    case Pass(i) => i < s.Head() && s.stages[i].Waiting? && s.tail <= i + 1 <= s.tail + n
    case StoreSrc(i) => Busy(s, i) && !s.stages[i].src
    case StoreDst(i) => Busy(s, i) && !s.stages[i].dst && (s.srcFirst && !Rewind(i, n) ==> s.stages[i].src)
    case Mark(i) => Busy(s, i) && s.stages[i].src && s.stages[i].dst
    case QueueMarker(m) => m <= s.Head()
    case MoveMarker => s.phase.Idle? && s.qTail != s.qHead && s.qHead > 0
    case Poll(i) =>
      s.phase.Polling? && InBatch(s, i) && i !in s.phase.seen && s.slots[At(i, n)].marked == Rewind(i, n)
    case StartReading => s.phase.Polling? && forall i :: s.tail <= i < s.marker ==> i in s.phase.seen
    case Read(i) => s.phase.Reading? && InBatch(s, i) && i !in s.phase.got
    case UpdateMarker => s.phase.Reading? && forall i :: s.tail <= i < s.marker ==> i in s.phase.got
  }

  function Put(s: Log, i: nat, slot: Slot, stage: Stage): Log
    requires Shape(s) && i < s.Head()
  {
    s.(slots := s.slots[At(i, |s.slots|) := slot], stages := s.stages[i := stage])
  }

  function Batch(s: Log): seq<Copy>
    requires s.phase.Reading? && forall i :: s.tail <= i < s.marker ==> i in s.phase.got
  {
    if s.marker <= s.tail then []
    else seq(s.marker - s.tail, k requires 0 <= k < s.marker - s.tail => GotAt(s, s.tail + k))
  }

  function GotAt(s: Log, i: nat): Copy
    requires s.phase.Reading? && InBatch(s, i) && forall i :: s.tail <= i < s.marker ==> i in s.phase.got
  {
    s.phase.got[i]
  }

  function Apply(s: Log, step: Step): Log
    requires Shape(s) && Enabled(s, step)
    ensures Shape(Apply(s, step)) && |Apply(s, step).slots| == |s.slots| && Apply(s, step).srcFirst == s.srcFirst
  {
    var n := |s.slots|;
    match step
    case Reserve(e) => s.(edges := s.edges + [e], stages := s.stages + [Waiting])
    case Pass(i) => Put(s, i, s.slots[At(i, n)], Storing(false, false))
    case StoreSrc(i) =>
      var slot := s.slots[At(i, n)];
      Put(s, i, slot.(copy := slot.copy.(src := Word(s.edges[i].src, Of(i)))), Stored(i, n, true, s.stages[i].dst))
    case StoreDst(i) =>
      var slot := s.slots[At(i, n)];
      Put(s, i, Slot(slot.copy.(dst := Word(s.edges[i].dst, Of(i))), false), Stored(i, n, s.stages[i].src, true))
    case Mark(i) =>
      var slot := s.slots[At(i, n)];
      Put(s, i, Slot(slot.copy.(dst := Word(s.edges[i].dst, Of(i))), true), Written)
    case QueueMarker(m) => s.(queue := s.queue[At(s.qHead, |s.queue|) := m], qHead := s.qHead + 1)
    case MoveMarker => s.(marker := s.queue[At(s.qHead - 1, |s.queue|)], qTail := s.qHead, phase := Polling({}))
    case Poll(i) => s.(phase := Polling(s.phase.seen + {i}))
    case StartReading => s.(phase := Reading(map[]))
    case Read(i) => s.(phase := Reading(s.phase.got[i := s.slots[At(i, n)].copy]))
    case UpdateMarker => s.(archived := s.archived + Batch(s), tail := s.marker, phase := Idle)
  }

  predicate Legal(s: Log, steps: seq<Step>)
    requires Shape(s)
    decreases |steps|
  {
    steps == [] || (Enabled(s, steps[0]) && Legal(Apply(s, steps[0]), steps[1..]))
  }

  function Exec(s: Log, steps: seq<Step>): Log
    requires Shape(s) && Legal(s, steps)
    ensures Shape(Exec(s, steps))
    decreases |steps|
  {
    if steps == [] then s else Exec(Apply(s, steps[0]), steps[1..])
  }

  /** A fresh log: the slots are zero, so unmarked. */
  function Init(n: nat, q: nat, srcFirst: bool): (s: Log)
    requires n > 0 && q > 0
    ensures Shape(s)
  {
    Log(srcFirst, seq(n, _ => Slot(Copy(Word(0, Zeroed), Word(0, Zeroed)), false)), 0, 0, [], [],
        seq(q, _ => 0), 0, 0, Idle, [])
  }

  /** The batch that is about to end reaches no further than one log length, and not backwards. */
  predicate Fits(s: Log, step: Step) {
    step.UpdateMarker? ==> s.tail <= s.marker <= s.tail + |s.slots|
  }

  /** Every batch the run archived fitted when it was archived. */
  predicate BatchesFit(s: Log, steps: seq<Step>)
    requires Shape(s) && Legal(s, steps)
    decreases |steps|
  {
    steps == [] || (Fits(s, steps[0]) && BatchesFit(Apply(s, steps[0]), steps[1..]))
  }

  /** Each polling thread takes one contiguous chunk of the batch, here below `cut` and from `cut` on, and waits at
      every index before it goes to the next. With `cut` zero there is one thread. */
  predicate InChunkOrder(s: Log, step: Step, cut: nat) {
    step.Poll? && s.phase.Polling? ==>
      forall j :: s.tail <= j < step.i && (j < cut <==> step.i < cut) ==> j in s.phase.seen
  }

  predicate PollsInOrder(s: Log, steps: seq<Step>, cut: nat)
    requires Shape(s) && Legal(s, steps)
    decreases |steps|
  {
    steps == [] || (InChunkOrder(s, steps[0], cut) && PollsInOrder(Apply(s, steps[0]), steps[1..], cut))
  }

  /** No batch the run archived had a marker behind the tail. */
  predicate NoneBehind(s: Log, steps: seq<Step>)
    requires Shape(s) && Legal(s, steps)
    decreases |steps|
  {
    steps == [] ||
    ((steps[0].UpdateMarker? ==> s.tail <= s.marker) && NoneBehind(Apply(s, steps[0]), steps[1..]))
  }

  /** The archive is the edges up to the tail, each of its two words the one its own writer stored. */
  ghost predicate Faithful(s: Log) {
    |s.archived| == s.tail <= s.Head() && forall k :: 0 <= k < s.tail ==> s.archived[k] == CopyOf(k, s.edges[k])
  }

  // ---------------------------------------------------------------- laps

  lemma LapFacts(i: nat, n: nat)
    requires n > 0
    ensures At(i + n, n) == At(i, n) && Rewind(i + n, n) == !Rewind(i, n)
  {
    var q, r := i / n, i % n;
    assert i + n == (q + 1) * n + r;
    QuotientUnique(i + n, n, q + 1, r);
  }

  lemma FirstLap(i: nat, n: nat)
    requires i < n
    ensures At(i, n) == i && Rewind(i, n)
  {
    QuotientUnique(i, n, 0, i);
  }

  lemma SignedMul(d: int, n: nat)
    ensures d >= 1 ==> d * n >= n
    ensures d <= -1 ==> d * n <= 0 - n
  {
  }

  lemma QuotientUnique(x: nat, n: nat, q: nat, r: nat)
    requires n > 0 && x == q * n + r && r < n
    ensures x / n == q && x % n == r
  {
    var d := x / n - q;
    SignedMul(d, n);
    assert x == (x / n) * n + x % n;
    assert d * n == (x / n) * n - q * n;
  }

  /** Two indices less than a log length apart have different slots. */
  lemma SlotsDistinct(i: nat, j: nat, n: nat)
    requires n > 0 && i != j && i < j + n && j < i + n
    ensures At(i, n) != At(j, n)
  {
    var d := j / n - i / n;
    SignedMul(d, n);
    assert i == (i / n) * n + i % n && j == (j / n) * n + j % n;
    assert d * n == (j / n) * n - (i / n) * n;
  }

  // ---------------------------------------------------------------- invariant

  function StageOf(s: Log, i: nat): Stage
    requires Shape(s)
  {
    if i < s.Head() then s.stages[i] else Waiting
  }

  predicate InReach(s: Log, i: nat) {
    s.tail <= i < s.tail + |s.slots|
  }

  /** What the slot of an index within reach of the tail holds: the mark of the lap before until the index
      is written, and the words stored so far. */
  predicate SlotOk(s: Log, i: nat)
    requires Shape(s)
  {
    var n := |s.slots|;
    var slot := s.slots[At(i, n)];
    match StageOf(s, i)
    case Waiting => slot.marked == !Rewind(i, n)
    case Storing(src, dst) =>
      && slot.marked == !Rewind(i, n)
      && (dst ==> Rewind(i, n))
      && i < s.Head()
      && (src ==> slot.copy.src == CopyOf(i, s.edges[i]).src)
    case Written => i < s.Head() && slot == Slot(CopyOf(i, s.edges[i]), Rewind(i, n))
  }

  ghost predicate PhaseOk(s: Log)
    requires Shape(s)
  {
    match s.phase
    case Idle => true
    case Polling(seen) => forall i :: i in seen && InBatch(s, i) && InReach(s, i) ==> StageOf(s, i) == Written
    case Reading(got) =>
      && (forall i: nat :: InBatch(s, i) && InReach(s, i) ==> StageOf(s, i) == Written)
      && forall i :: i in got && InReach(s, i) ==> i < s.Head() && got[i] == CopyOf(i, s.edges[i])
  }

  /** Indices out of the log's reach are still waiting. */
  predicate Unreached(s: Log)
    requires Shape(s)
  {
    forall i :: s.tail + |s.slots| <= i < s.Head() ==> s.stages[i] == Waiting
  }

  /** Tail, marker and queued markers stay behind the head, and the markers taken behind those queued. */
  predicate Behind(s: Log) {
    && s.tail <= s.Head() && s.marker <= s.Head() && s.qTail <= s.qHead
    && forall k :: 0 <= k < |s.queue| ==> s.queue[k] <= s.Head()
  }

  ghost predicate Inv(s: Log) {
    && Shape(s) && s.srcFirst
    && Behind(s)
    && (forall i :: 0 <= i < s.tail ==> s.stages[i] == Written)
    && Unreached(s)
    && (forall i: nat :: InReach(s, i) ==> SlotOk(s, i))
    && PhaseOk(s)
    && Faithful(s)
  }

  lemma InitInv(n: nat, q: nat)
    requires n > 0 && q > 0
    ensures Inv(Init(n, q, true))
  {
    var s := Init(n, q, true);
    forall i: nat | InReach(s, i) ensures SlotOk(s, i) {
      FirstLap(i, n);
    }
  }

  /** Written slots stay written, so what the archiver has seen stays true. */
  lemma PhaseCarries(s: Log, s': Log)
    requires Shape(s) && Shape(s') && PhaseOk(s) && s'.phase == s.phase && s'.tail == s.tail && s'.marker == s.marker
    requires |s'.slots| == |s.slots|
    requires s.edges <= s'.edges && forall i: nat :: StageOf(s, i) == Written ==> StageOf(s', i) == Written
    ensures PhaseOk(s')
  {
    forall i: nat | InBatch(s, i) && InReach(s, i) && StageOf(s, i) == Written ensures StageOf(s', i) == Written {
    }
    match s.phase
    case Idle =>
    case Polling(seen) =>
    case Reading(got) =>
      forall i: nat | InBatch(s', i) && InReach(s', i) ensures StageOf(s', i) == Written {
        assert InBatch(s, i) && InReach(s, i) && StageOf(s, i) == Written;
      }
      forall i | i in got && InReach(s', i) ensures i < s'.Head() && got[i] == CopyOf(i, s'.edges[i]) {
        assert InReach(s, i);
      }
  }

  lemma ReserveKeeps(s: Log, e: Edge)
    requires Inv(s)
    ensures Inv(Apply(s, Reserve(e)))
  {
    hide Rewind, At, PhaseOk;
    var s' := Apply(s, Reserve(e));
    forall i: nat | InReach(s', i) ensures SlotOk(s', i) {
      assert InReach(s, i) && SlotOk(s, i) && StageOf(s', i) == StageOf(s, i);
    }
    PhaseCarries(s, s');
  }

  /** A writer past its wait that is not done has an index within reach of the tail. */
  lemma WritersInReach(s: Log, i: nat)
    requires Inv(s) && i < s.Head() && (s.stages[i].Storing? || Enabled(s, Pass(i)))
    ensures InReach(s, i)
  {
  }

  predicate WriterStep(step: Step) {
    step.Pass? || step.StoreSrc? || step.StoreDst? || step.Mark?
  }

  /** What a writer does to its own slot. */
  lemma WriterSlotOk(s: Log, step: Step)
    requires Inv(s) && Enabled(s, step) && WriterStep(step)
    ensures SlotOk(Apply(s, step), step.i)
  {
    hide Rewind, At, PhaseOk, Faithful, Unreached, Behind;
    WritersInReach(s, step.i);
    assert SlotOk(s, step.i);
    var k := At(step.i, |s.slots|);
    assert Apply(s, step).slots[k] == Apply(s, step).slots[k];
  }

  lemma WriterKeeps(s: Log, step: Step)
    requires Inv(s) && Enabled(s, step) && WriterStep(step)
    ensures Inv(Apply(s, step))
  {
    hide Rewind, At, PhaseOk;
    var s' := Apply(s, step);
    WritersInReach(s, step.i);
    forall j: nat | InReach(s', j) ensures SlotOk(s', j) {
      assert InReach(s, j) && SlotOk(s, j);
      if j == step.i {
        WriterSlotOk(s, step);
      } else {
        SlotsDistinct(step.i, j, |s.slots|);
        assert StageOf(s', j) == StageOf(s, j) && s'.slots[At(j, |s.slots|)] == s.slots[At(j, |s.slots|)];
      }
    }
    PhaseCarries(s, s');
  }

  lemma QueueKeeps(s: Log, m: nat)
    requires Inv(s) && Enabled(s, QueueMarker(m))
    ensures Inv(Apply(s, QueueMarker(m)))
  {
    hide Rewind, At, PhaseOk;
    var s' := Apply(s, QueueMarker(m));
    forall j: nat | InReach(s', j) ensures SlotOk(s', j) {
      assert InReach(s, j) && SlotOk(s, j);
    }
    PhaseCarries(s, s');
  }

  /** The polarity test is exact within the log's reach of the tail. */
  lemma PolarityExact(s: Log, i: nat)
    requires Inv(s) && InReach(s, i)
    ensures s.slots[At(i, |s.slots|)].marked == Rewind(i, |s.slots|) <==> StageOf(s, i) == Written
    ensures StageOf(s, i) == Written ==> i < s.Head() && s.slots[At(i, |s.slots|)].copy == CopyOf(i, s.edges[i])
  {
    assert SlotOk(s, i);
  }

  lemma ArchiverPhaseOk(s: Log, step: Step)
    requires Inv(s) && Enabled(s, step)
    requires step.MoveMarker? || step.Poll? || step.StartReading? || step.Read?
    ensures PhaseOk(Apply(s, step))
  {
    hide Rewind, At, Behind, Unreached, Faithful, SlotOk;
    var s' := Apply(s, step);
    if (step.Poll? || step.Read?) && InReach(s, step.i) {
      PolarityExact(s, step.i);
    }
    if s'.phase.Reading? {
      forall i: nat | InBatch(s', i) && InReach(s', i) ensures StageOf(s', i) == Written {
        assert InBatch(s, i) && InReach(s, i);
      }
    }
    if step.Read? {
      forall i | i in s'.phase.got && InReach(s', i)
        ensures i < s'.Head() && s'.phase.got[i] == CopyOf(i, s'.edges[i])
      {
        assert InReach(s, i);
      }
    } else if step.Poll? {
      forall i | i in s'.phase.seen && InBatch(s', i) && InReach(s', i) ensures StageOf(s', i) == Written {
        assert InBatch(s, i) && InReach(s, i);
      }
    }
  }

  lemma ArchiverKeeps(s: Log, step: Step)
    requires Inv(s) && Enabled(s, step)
    requires step.MoveMarker? || step.Poll? || step.StartReading? || step.Read?
    ensures Inv(Apply(s, step))
  {
    hide Rewind, At, PhaseOk;
    var s' := Apply(s, step);
    forall j: nat | InReach(s', j) ensures SlotOk(s', j) {
      assert InReach(s, j) && SlotOk(s, j);
    }
    ArchiverPhaseOk(s, step);
  }

  /** Before the tail moves to a marker that fits, the whole batch is written and was read as it is. */
  lemma BatchAsWritten(s: Log)
    requires Inv(s) && Enabled(s, UpdateMarker) && Fits(s, UpdateMarker)
    ensures forall i :: s.tail <= i < s.marker ==> s.stages[i] == Written && GotAt(s, i) == CopyOf(i, s.edges[i])
  {
    forall i: nat | s.tail <= i < s.marker ensures s.stages[i] == Written && GotAt(s, i) == CopyOf(i, s.edges[i]) {
      assert InBatch(s, i) && InReach(s, i) && StageOf(s, i) == Written;
    }
  }

  lemma UpdateSlotOk(s: Log, j: nat)
    requires Inv(s) && Enabled(s, UpdateMarker) && Fits(s, UpdateMarker) && InReach(Apply(s, UpdateMarker), j)
    ensures SlotOk(Apply(s, UpdateMarker), j)
  {
    hide Rewind, At, PhaseOk, Faithful;
    var n := |s.slots|;
    if InReach(s, j) {
      assert SlotOk(s, j);
    } else {
      var i: nat := j - n;
      LapFacts(i, n);
      BatchAsWritten(s);
      assert InReach(s, i) && SlotOk(s, i) && StageOf(s, i) == Written && i + n == j;
      assert StageOf(s, j) == Waiting;
    }
  }

  lemma UpdateFaithful(s: Log)
    requires Inv(s) && Enabled(s, UpdateMarker) && Fits(s, UpdateMarker)
    ensures Faithful(Apply(s, UpdateMarker))
  {
    hide Rewind, At, PhaseOk, SlotOk;
    var s' := Apply(s, UpdateMarker);
    BatchAsWritten(s);
    forall k | 0 <= k < s'.tail ensures s'.archived[k] == CopyOf(k, s'.edges[k]) {
      if k >= s.tail {
        assert s'.archived[k] == Batch(s)[k - s.tail] == GotAt(s, k);
      }
    }
  }

  lemma UpdateKeeps(s: Log)
    requires Inv(s) && Enabled(s, UpdateMarker) && Fits(s, UpdateMarker)
    ensures Inv(Apply(s, UpdateMarker))
  {
    hide Rewind, At, SlotOk, Batch;
    var s' := Apply(s, UpdateMarker);
    BatchAsWritten(s);
    UpdateFaithful(s);
    forall j: nat | InReach(s', j) ensures SlotOk(s', j) {
      UpdateSlotOk(s, j);
    }
  }

  lemma StepKeeps(s: Log, step: Step)
    requires Inv(s) && Enabled(s, step) && Fits(s, step)
    ensures Inv(Apply(s, step))
  {
    hide Inv;
    match step
    case Reserve(e) => ReserveKeeps(s, e);
    case QueueMarker(m) => QueueKeeps(s, m);
    case UpdateMarker => UpdateKeeps(s);
    case Pass(_) => WriterKeeps(s, step);
    case StoreSrc(_) => WriterKeeps(s, step);
    case StoreDst(_) => WriterKeeps(s, step);
    case Mark(_) => WriterKeeps(s, step);
    case _ => ArchiverKeeps(s, step);
  }

  lemma {:induction false} RunKeepsInv(s: Log, steps: seq<Step>)
    requires Inv(s) && Legal(s, steps) && BatchesFit(s, steps)
    ensures Inv(Exec(s, steps))
    decreases |steps|
  {
    hide Inv;
    if steps != [] {
      InvShape(s);
      StepKeeps(s, steps[0]);
      RunKeepsInv(Apply(s, steps[0]), steps[1..]);
    }
  }

  lemma InvShape(s: Log)
    requires Inv(s)
    ensures Shape(s)
  {
  }

  // ---------------------------------------------------------------- the condition is exact

  /** A copy's destination was stored by an index that has room. */
  predicate StoredByNow(s: Log, c: Copy)
    requires Shape(s)
  {
    c.dst.from.Of? ==> c.dst.from.index < s.Head() && s.stages[c.dst.from.index] != Waiting
  }

  /** What holds before any batch failed to fit, whatever order words are stored in: no value read past the
      log's reach is that index's own. */
  ghost predicate Sane(s: Log) {
    && Shape(s)
    && |s.archived| == s.tail
    && Behind(s)
    && Unreached(s)
    && (forall k :: 0 <= k < |s.slots| ==> StoredByNow(s, s.slots[k].copy))
    && (s.phase.Reading? ==>
          forall i :: i in s.phase.got && s.tail + |s.slots| <= i ==> s.phase.got[i].dst.from != Of(i))
  }

  /** The archive is ahead of the tail, or has a foreign destination. */
  ghost predicate Broken(s: Log) {
    |s.archived| > s.tail || exists k :: 0 <= k < |s.archived| && s.archived[k].dst.from != Of(k)
  }

  lemma SaneStep(s: Log, step: Step)
    requires Sane(s) && Enabled(s, step) && Fits(s, step)
    ensures Sane(Apply(s, step))
  {
    hide Rewind, At;
    var s' := Apply(s, step);
    forall k | 0 <= k < |s'.slots| ensures StoredByNow(s', s'.slots[k].copy) {
      assert StoredByNow(s, s.slots[k].copy);
    }
    if step.Read? {
      assert StoredByNow(s, s.slots[At(step.i, |s.slots|)].copy);
    }
  }

  lemma UnfitBreaks(s: Log)
    requires Sane(s) && Enabled(s, UpdateMarker) && !Fits(s, UpdateMarker)
    ensures Broken(Apply(s, UpdateMarker))
  {
    var s', k := Apply(s, UpdateMarker), s.tail + |s.slots|;
    if s.marker > k {
      assert InBatch(s, k);
      assert s'.archived[k] == Batch(s)[k - s.tail] == GotAt(s, k);
    }
  }

  lemma BrokenStays(s: Log, step: Step)
    requires Shape(s) && Broken(s) && Enabled(s, step)
    ensures Broken(Apply(s, step))
  {
    hide Rewind, At;
    if |s.archived| <= s.tail {
      var k :| 0 <= k < |s.archived| && s.archived[k].dst.from != Of(k);
      assert Apply(s, step).archived[k] == s.archived[k];
    }
  }

  lemma {:induction false} BrokenForever(s: Log, steps: seq<Step>)
    requires Shape(s) && Broken(s) && Legal(s, steps)
    ensures Broken(Exec(s, steps))
    decreases |steps|
  {
    hide Broken, Enabled;
    if steps != [] {
      BrokenStays(s, steps[0]);
      BrokenForever(Apply(s, steps[0]), steps[1..]);
    }
  }

  lemma {:induction false} UnfitRunBreaks(s: Log, steps: seq<Step>)
    requires Sane(s) && Legal(s, steps) && !BatchesFit(s, steps)
    ensures Broken(Exec(s, steps))
    decreases |steps|
  {
    hide Broken, Enabled;
    if Fits(s, steps[0]) {
      SaneStep(s, steps[0]);
      UnfitRunBreaks(Apply(s, steps[0]), steps[1..]);
    } else {
      UnfitBreaks(s);
      BrokenForever(Apply(s, steps[0]), steps[1..]);
    }
  }

  /** With the source stored first, the archive is faithful after a run exactly if every batch fitted when it
      was archived. */
  lemma FaithfulIffBatchesFit(n: nat, q: nat, steps: seq<Step>)
    requires n > 0 && q > 0 && Legal(Init(n, q, true), steps)
    ensures Faithful(Exec(Init(n, q, true), steps)) <==> BatchesFit(Init(n, q, true), steps)
  {
    var s := Init(n, q, true);
    if BatchesFit(s, steps) {
      InitInv(n, q);
      RunKeepsInv(s, steps);
    } else {
      UnfitRunBreaks(s, steps);
    }
  }

  // ---------------------------------------------------------------- results over whole runs

  function Appended(steps: seq<Step>): seq<Edge> {
    if steps == [] then []
    else AppendedBy(steps[0]) + Appended(steps[1..])
  }

  function AppendedBy(step: Step): seq<Edge> {
    if step.Reserve? then [step.edge] else []
  }

  lemma EdgesStep(s: Log, step: Step)
    requires Shape(s) && Enabled(s, step)
    ensures Apply(s, step).edges == s.edges + AppendedBy(step)
  {
    hide At, Rewind;
  }

  lemma {:induction false} EdgesAreAppended(s: Log, steps: seq<Step>)
    requires Shape(s) && Legal(s, steps)
    ensures Exec(s, steps).edges == s.edges + Appended(steps)
    ensures |Exec(s, steps).slots| == |s.slots|
    decreases |steps|
  {
    hide Enabled, AppendedBy;
    if steps != [] {
      var s1 := Apply(s, steps[0]);
      EdgesStep(s, steps[0]);
      EdgesAreAppended(s1, steps[1..]);
      assert s1.edges + Appended(steps[1..]) == s.edges + (AppendedBy(steps[0]) + Appended(steps[1..]));
    }
  }

  /** Every appended edge is archived at most once and in order: at any moment of any run whose batches
      fitted, the archive is the first `tail` appended edges. */
  lemma ArchivedInOrder(n: nat, q: nat, steps: seq<Step>)
    requires n > 0 && q > 0 && Legal(Init(n, q, true), steps) && BatchesFit(Init(n, q, true), steps)
    ensures var s := Exec(Init(n, q, true), steps);
            s.tail <= |Appended(steps)| && EdgesIn(s.archived) == Appended(steps)[..s.tail]
  {
    hide Rewind, At;
    FaithfulIffBatchesFit(n, q, steps);
    EdgesAreAppended(Init(n, q, true), steps);
  }

  /** Every word's value is the one its index appended. */
  predicate CopyTrue(s: Log, c: Copy) {
    match c.dst.from
    case Zeroed => c.dst.value == 0
    case Of(j) => j < s.Head() && c.dst.value == s.edges[j].dst
  }

  ghost predicate AllTrue(s: Log) {
    && (forall k :: 0 <= k < |s.slots| ==> CopyTrue(s, s.slots[k].copy))
    && (forall k :: 0 <= k < |s.archived| ==> CopyTrue(s, s.archived[k]))
    && (s.phase.Reading? ==> forall i :: i in s.phase.got ==> CopyTrue(s, s.phase.got[i]))
  }

  lemma AllTrueStep(s: Log, step: Step)
    requires Shape(s) && AllTrue(s) && Enabled(s, step)
    ensures AllTrue(Apply(s, step))
  {
    hide Rewind, At;
    var s' := Apply(s, step);
    forall c: Copy | CopyTrue(s, c) ensures CopyTrue(s', c) {
    }
    if step.UpdateMarker? {
      forall k | 0 <= k < |s'.archived| ensures CopyTrue(s', s'.archived[k]) {
        if k >= |s.archived| {
          assert s'.archived[k] == Batch(s)[k - |s.archived|] == GotAt(s, s.tail + (k - |s.archived|));
        }
      }
    }
  }

  lemma {:induction false} RunKeepsTrue(s: Log, steps: seq<Step>)
    requires Shape(s) && AllTrue(s) && Legal(s, steps)
    ensures AllTrue(Exec(s, steps))
    decreases |steps|
  {
    hide AllTrue, Enabled;
    if steps != [] {
      AllTrueStep(s, steps[0]);
      RunKeepsTrue(Apply(s, steps[0]), steps[1..]);
    }
  }

  /** Destinations that tell the appended edges apart, from each other and from a zeroed slot. */
  predicate Telling(edges: seq<Edge>) {
    && (forall i :: 0 <= i < |edges| ==> edges[i].dst != 0)
    && forall i, j :: 0 <= i < j < |edges| ==> edges[i].dst != edges[j].dst
  }

  lemma BrokenTells(s: Log)
    requires AllTrue(s) && Broken(s) && Telling(s.edges) && |s.archived| == s.tail <= s.Head()
    ensures EdgesIn(s.archived) != s.edges[..s.tail]
  {
    var k :| 0 <= k < |s.archived| && s.archived[k].dst.from != Of(k);
    assert CopyTrue(s, s.archived[k]) && EdgesIn(s.archived)[k].dst == s.archived[k].dst.value != s.edges[k].dst;
  }

  /** Without the history: if destinations tell the edges apart, the archive's values are the appended
      edges up to the tail exactly if every batch fitted. */
  lemma ValuesIffBatchesFit(n: nat, q: nat, steps: seq<Step>)
    requires n > 0 && q > 0 && Legal(Init(n, q, true), steps) && Telling(Appended(steps))
    ensures var s := Exec(Init(n, q, true), steps);
            (s.tail <= |Appended(steps)| && EdgesIn(s.archived) == Appended(steps)[..s.tail]) <==>
            BatchesFit(Init(n, q, true), steps)
  {
    hide Rewind, At, Legal, Exec;
    var s0 := Init(n, q, true);
    var s := Exec(s0, steps);
    EdgesAreAppended(s0, steps);
    if BatchesFit(s0, steps) {
      ArchivedInOrder(n, q, steps);
    } else if s.tail <= |Appended(steps)| && EdgesIn(s.archived) == Appended(steps)[..s.tail] {
      UnfitRunBreaks(s0, steps);
      RunKeepsTrue(s0, steps);
      BrokenTells(s);
    }
  }

  /** A writer only reuses a slot whose edge was archived, and disturbs no other unarchived edge. */
  lemma NoUnarchivedOverwrite(s: Log, step: Step, j: nat)
    requires Inv(s) && WriterStep(step) && Enabled(s, step)
    requires s.tail <= j < s.Head() && j != step.i && s.stages[j] != Waiting
    ensures step.i >= |s.slots| ==> step.i - |s.slots| < s.tail
    ensures Apply(s, step).slots[At(j, |s.slots|)] == s.slots[At(j, |s.slots|)]
  {
    WritersInReach(s, step.i);
    assert j < s.tail + |s.slots|;
    SlotsDistinct(step.i, j, |s.slots|);
  }

  /** The archiver never waits for a slot within reach that no one can bring forward. */
  lemma PollingNeverStuck(s: Log, i: nat)
    requires Inv(s) && s.phase.Polling? && InBatch(s, i) && InReach(s, i) && i !in s.phase.seen
    ensures Enabled(s, Poll(i)) || exists step :: WriterStep(step) && step.i == i && Enabled(s, step)
  {
    PolarityExact(s, i);
    if !Enabled(s, Poll(i)) {
      assert SlotOk(s, i) && StageOf(s, i) == s.stages[i];
      var step := match s.stages[i]
        case Storing(false, _) => StoreSrc(i)
        case Storing(true, false) => StoreDst(i)
        case Storing(true, true) => Mark(i)
        case _ => Pass(i);
      assert WriterStep(step) && step.i == i && Enabled(s, step);
    }
  }

  /** A batch past the reach whose first edge is written, and whose edge one log length on was not polled
      before. */
  ghost predicate Hung(s: Log) {
    && Inv(s)
    && s.phase.Polling?
    && s.marker > s.tail + |s.slots|
    && s.tail + |s.slots| !in s.phase.seen
    && StageOf(s, s.tail) == Written
  }

  lemma HungStep(s: Log, step: Step)
    requires Hung(s) && Enabled(s, step)
    ensures Fits(s, step) && Hung(Apply(s, step)) && Apply(s, step).tail == s.tail
  {
    var n := |s.slots|;
    LapFacts(s.tail, n);
    PolarityExact(s, s.tail);
    assert InBatch(s, s.tail + n);
    StepKeeps(s, step);
  }

  /** Such a batch never ends: the archiver waits for that edge, its writer for the tail, and the tail for
      the archiver. */
  lemma {:induction false} HungForever(s: Log, steps: seq<Step>)
    requires Hung(s) && Legal(s, steps)
    ensures Exec(s, steps).tail == s.tail && Exec(s, steps).archived == s.archived && Hung(Exec(s, steps))
    decreases |steps|
  {
    hide Inv, At, Rewind;
    if steps != [] {
      InvShape(s);
      HungStep(s, steps[0]);
      HungForever(Apply(s, steps[0]), steps[1..]);
    }
  }

  /** The marker a writer queues behind its own edge always fits. */
  lemma OwnMarkerFits(s: Log, i: nat)
    requires Inv(s) && i < s.Head() && s.stages[i] != Waiting
    ensures i + 1 <= s.tail + |s.slots|
  {
  }

  // ---------------------------------------------------------------- one polling thread

  /** The index one log length on is never polled, so only batches within reach are read. */
  predicate WithinReach(s: Log) {
    match s.phase
    case Idle => true
    case Polling(seen) => s.tail + |s.slots| !in seen
    case Reading(_) => s.marker <= s.tail + |s.slots|
  }

  /** In ascending order the first index of the batch is polled before the one that shares its slot, and once it
      passed, the mark is wrong for the other. */
  lemma FarPollBlocked(s: Log)
    requires Inv(s) && s.phase.Polling? && s.tail in s.phase.seen && InBatch(s, s.tail)
    ensures !Enabled(s, Poll(s.tail + |s.slots|))
  {
    assert InReach(s, s.tail) && StageOf(s, s.tail) == Written;
    PolarityExact(s, s.tail);
    LapFacts(s.tail, |s.slots|);
  }

  lemma OneThreadStep(s: Log, step: Step)
    requires Inv(s) && WithinReach(s) && Enabled(s, step) && InChunkOrder(s, step, 0)
    ensures step.UpdateMarker? ==> s.marker <= s.tail + |s.slots|
    ensures WithinReach(Apply(s, step))
  {
    hide At, Rewind, SlotOk, PhaseOk, Faithful;
    if step == Poll(s.tail + |s.slots|) {
      assert s.tail in s.phase.seen;
      FarPollBlocked(s);
      assert false;
    }
  }

  lemma {:induction false} OneThreadFits(s: Log, steps: seq<Step>)
    requires Inv(s) && WithinReach(s) && Legal(s, steps) && PollsInOrder(s, steps, 0) && NoneBehind(s, steps)
    ensures BatchesFit(s, steps)
    decreases |steps|
  {
    hide Inv, Enabled, Apply, InChunkOrder, WithinReach;
    if steps != [] {
      InvShape(s);
      OneThreadStep(s, steps[0]);
      StepKeeps(s, steps[0]);
      OneThreadFits(Apply(s, steps[0]), steps[1..]);
    }
  }

  /** With one polling thread a marker too far ahead loses nothing: the archive is faithful exactly if no archived
      batch had a marker behind the tail. */
  lemma OneThreadFaithfulIff(n: nat, q: nat, steps: seq<Step>)
    requires n > 0 && q > 0 && Legal(Init(n, q, true), steps) && PollsInOrder(Init(n, q, true), steps, 0)
    ensures Faithful(Exec(Init(n, q, true), steps)) <==> NoneBehind(Init(n, q, true), steps)
  {
    hide Legal, Exec, Faithful;
    FaithfulIffBatchesFit(n, q, steps);
    InitInv(n, q);
    if NoneBehind(Init(n, q, true), steps) {
      OneThreadFits(Init(n, q, true), steps);
    }
    if BatchesFit(Init(n, q, true), steps) {
      FittingIsNotBehind(Init(n, q, true), steps);
    }
  }

  lemma {:induction false} FittingIsNotBehind(s: Log, steps: seq<Step>)
    requires Shape(s) && Legal(s, steps) && BatchesFit(s, steps)
    ensures NoneBehind(s, steps)
    decreases |steps|
  {
    if steps != [] {
      FittingIsNotBehind(Apply(s, steps[0]), steps[1..]);
    }
  }
}
