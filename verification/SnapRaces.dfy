/** A reader walking the snapshot chain of a vertex while the next batch recycles its oldest blob: single reads
    against single writes, in any interleaving. */
module SnapRaces {
  import opened SnapChains

  /** A blob in memory; prev is the place of the next older one, or -1. */
  datatype Node = Node(id: nat, degree: Degree, prev: int)

  /** The reader before its first read, about to read a blob's id, its degree or its link, or finished. */
  datatype Reader = Begin | Look(at: int) | Take(j: nat) | Follow(j: nat) | Got(degree: Degree)

  /** `written` counts the archiver's writes: five to recycle the blob, then one for every record counted. */
  datatype State = State(nodes: seq<Node>, head: nat, written: nat, reader: Reader)

  datatype Step = Read | Write(isAdd: bool)

  /** The chain in memory, newest first; it is at capacity, so its last blob is recycled. */
  function Start(c: seq<Snap>): State {
    State(seq(|c|, j requires 0 <= j < |c| => Node(c[j].id, c[j].degree, if j + 1 < |c| then j + 1 else -1)),
          0, 0, Begin)
  }

  predicate Shape(st: State) {
    |st.nodes| >= 2 && st.head < |st.nodes|
  }

  /** One read of a walk for snapshot s. */
  function ReadNext(st: State, s: nat): Reader
    requires Shape(st)
  {
    match st.reader
    case Begin => Look(st.head)
    case Look(j) =>
      if j < 0 || j >= |st.nodes| then Got(ZERO) else if s >= st.nodes[j].id then Take(j) else Follow(j)
    case Take(j) => Got(if j < |st.nodes| then st.nodes[j].degree else ZERO)
    case Follow(j) => Look(if j < |st.nodes| then st.nodes[j].prev else -1)
    case Got(_) => st.reader
  }

  /** The next write of the batch with the given id. */
  function WriteNext(st: State, id: nat, isAdd: bool): State
    requires Shape(st)
    ensures Shape(WriteNext(st, id, isAdd))
  {
    var k := |st.nodes| - 1;
    var next := st.(written := st.written + 1);
    if st.written == 0 then next.(nodes := st.nodes[k - 1 := st.nodes[k - 1].(prev := -1)])
    else if st.written == 1 then next.(nodes := st.nodes[k := st.nodes[k].(id := id)])
    else if st.written == 2 then next.(nodes := st.nodes[k := st.nodes[k].(degree := st.nodes[st.head].degree)])
    else if st.written == 3 then next.(nodes := st.nodes[k := st.nodes[k].(prev := st.head)])
    else if st.written == 4 then next.(head := k)
    else
      var blob := st.nodes[st.head];
      next.(nodes := st.nodes[st.head := blob.(degree := Counted(blob.degree, isAdd))])
  }

  function Apply(st: State, s: nat, id: nat, step: Step): State
    requires Shape(st)
    ensures Shape(Apply(st, s, id, step))
  {
    match step
    case Read => st.(reader := ReadNext(st, s))
    case Write(isAdd) => WriteNext(st, id, isAdd)
  }

  function Exec(st: State, s: nat, id: nat, steps: seq<Step>): State
    requires Shape(st)
    ensures Shape(Exec(st, s, id, steps))
    decreases |steps|
  {
    if steps == [] then st else Exec(Apply(st, s, id, steps[0]), s, id, steps[1..])
  }

  /** Whatever the interleaving, a finished reader has the degree of its snapshot. */
  ghost predicate AlwaysExact(c: seq<Snap>, s: nat, id: nat)
    requires |c| >= 2
  {
    forall steps: seq<Step> ::
      Exec(Start(c), s, id, steps).reader.Got? ==> Exec(Start(c), s, id, steps).reader.degree == Lookup(c, s)
  }

  // ---------------------------------------------------------------- readers that never reach the oldest blob

  /** All but the oldest blob are as they were, and the recycled one is complete before it is the head. */
  predicate MemoryOk(c: seq<Snap>, id: nat, st: State) {
    var k := |c| - 1;
    && |st.nodes| == |c| >= 2
    && (forall j :: 0 <= j < k ==> st.nodes[j].id == c[j].id && st.nodes[j].degree == c[j].degree)
    && (forall j :: 0 <= j < k - 1 ==> st.nodes[j].prev == j + 1)
    && st.head == (if st.written >= 5 then k else 0)
    && (st.written >= 2 ==> st.nodes[k].id == id) && (st.written >= 4 ==> st.nodes[k].prev == 0)
  }

  /** Where the reader is, the answer is still ahead of it. */
  predicate ReaderOk(c: seq<Snap>, s: nat, st: State)
    requires |c| >= 2
  {
    var k := |c| - 1;
    match st.reader
    case Begin => true
    case Look(j) => (j == k && st.written >= 5) || (0 <= j < k && Lookup(c[j..], s) == Lookup(c, s))
    case Take(j) => j < k && c[j].degree == Lookup(c, s)
    case Follow(j) => (j == k && st.written >= 5) || (j < k - 1 && Lookup(c[j + 1..], s) == Lookup(c, s))
    case Got(degree) => degree == Lookup(c, s)
  }

  lemma StartOk(c: seq<Snap>, s: nat, id: nat)
    requires |c| >= 2
    ensures MemoryOk(c, id, Start(c)) && ReaderOk(c, s, Start(c))
  {
  }

  lemma LookupStep(c: seq<Snap>, s: nat, j: nat)
    requires j < |c|
    ensures Lookup(c[j..], s) == if c[j].id <= s then c[j].degree else Lookup(c[j + 1..], s)
  {
    assert c[j..][1..] == c[j + 1..];
  }

  lemma StepKeeps(c: seq<Snap>, s: nat, id: nat, st: State, step: Step)
    requires Shape(st) && MemoryOk(c, id, st) && ReaderOk(c, s, st)
    requires c[|c| - 2].id <= s < id
    ensures MemoryOk(c, id, Apply(st, s, id, step)) && ReaderOk(c, s, Apply(st, s, id, step))
  {
    hide Lookup;
    assert c[0..] == c;
    if step.Read? && st.reader.Look? && 0 <= st.reader.at < |c| - 1 {
      LookupStep(c, s, st.reader.at);
    }
  }

  lemma {:induction false} RunKeeps(c: seq<Snap>, s: nat, id: nat, st: State, steps: seq<Step>)
    requires Shape(st) && MemoryOk(c, id, st) && ReaderOk(c, s, st) && c[|c| - 2].id <= s < id
    ensures ReaderOk(c, s, Exec(st, s, id, steps))
    decreases |steps|
  {
    hide MemoryOk, ReaderOk, Apply;
    if steps != [] {
      StepKeeps(c, s, id, st, steps[0]);
      RunKeeps(c, s, id, Apply(st, s, id, steps[0]), steps[1..]);
    }
  }

  // ---------------------------------------------------------------- readers that need it

  lemma {:induction false} ExecConcat(st: State, s: nat, id: nat, a: seq<Step>, b: seq<Step>)
    requires Shape(st)
    ensures Exec(st, s, id, a + b) == Exec(Exec(st, s, id, a), s, id, b)
    decreases |a|
  {
    hide Apply;
    if a == [] {
      assert a + b == b;
    } else {
      assert (a + b)[0] == a[0] && (a + b)[1..] == a[1..] + b;
      ExecConcat(Apply(st, s, id, a[0]), s, id, a[1..], b);
    }
  }

  lemma One(st: State, s: nat, id: nat, step: Step)
    requires Shape(st)
    ensures Exec(st, s, id, [step]) == Apply(st, s, id, step)
  {
    assert [step][1..] == [];
  }

  lemma Then(st: State, s: nat, id: nat, steps: seq<Step>, step: Step)
    requires Shape(st)
    ensures Exec(st, s, id, steps + [step]) == Apply(Exec(st, s, id, steps), s, id, step)
  {
    hide Apply;
    ExecConcat(st, s, id, steps, [step]);
    One(Exec(st, s, id, steps), s, id, step);
  }

  /** Undisturbed, a reader gets down to blob j as long as every blob before is too new. */
  lemma {:induction false} WalksDown(c: seq<Snap>, s: nat, id: nat, j: nat) returns (steps: seq<Step>)
    requires |c| >= 2 && j < |c| && forall i :: 0 <= i < j ==> s < c[i].id
    ensures Exec(Start(c), s, id, steps) == Start(c).(reader := Look(j))
  {
    hide Exec;
    if j == 0 {
      steps := [Read];
      One(Start(c), s, id, Read);
    } else {
      var before := WalksDown(c, s, id, j - 1);
      Then(Start(c), s, id, before, Read);
      Then(Start(c), s, id, before + [Read], Read);
      steps := before + [Read] + [Read];
    }
  }

  /** The archiver cuts the oldest blob off while the reader stands before it: no degree at all. */
  lemma CutOff(c: seq<Snap>, s: nat, id: nat) returns (steps: seq<Step>)
    requires |c| >= 2 && forall i :: 0 <= i < |c| - 1 ==> s < c[i].id
    ensures Exec(Start(c), s, id, steps).reader == Got(ZERO)
  {
    hide Exec;
    var st, k := Start(c), |c| - 1;
    var s0 := WalksDown(c, s, id, k - 1);
    Then(st, s, id, s0, Write(true));
    var s1 := s0 + [Write(true)];
    Then(st, s, id, s1, Read);
    Then(st, s, id, s1 + [Read], Read);
    Then(st, s, id, s1 + [Read] + [Read], Read);
    steps := s1 + [Read] + [Read] + [Read];
  }

  /** The archiver recycles the oldest blob and counts a record in it after the reader has accepted its id: the
      degree of the running batch. */
  lemma Overtaken(c: seq<Snap>, s: nat, id: nat) returns (steps: seq<Step>)
    requires |c| >= 2 && c[|c| - 1].id <= s && forall i :: 0 <= i < |c| - 1 ==> s < c[i].id
    ensures Exec(Start(c), s, id, steps).reader == Got(Counted(c[0].degree, true))
  {
    hide Exec;
    var st, k, w := Start(c), |c| - 1, Write(true);
    var s0 := WalksDown(c, s, id, k);
    Then(st, s, id, s0, Read);
    var s1 := s0 + [Read];
    Then(st, s, id, s1, w);
    Then(st, s, id, s1 + [w], w);
    Then(st, s, id, s1 + [w] + [w], w);
    var s2 := s1 + [w] + [w] + [w];
    Then(st, s, id, s2, w);
    Then(st, s, id, s2 + [w], w);
    Then(st, s, id, s2 + [w] + [w], w);
    var s3 := s2 + [w] + [w] + [w];
    assert Exec(st, s, id, s3).nodes[k].degree == Counted(c[0].degree, true);
    Then(st, s, id, s3, Read);
    steps := s3 + [Read];
  }

  // ---------------------------------------------------------------- the exact condition

  /** A reader at a kept snapshot is safe from the next batch's recycling exactly if its snapshot is not older
      than the oldest blob but one, so that it never needs the blob that is recycled. */
  lemma SafeIffNotOldest(c: seq<Snap>, s: nat, id: nat)
    requires Descending(c) && |c| >= 2 && c[|c| - 1].id <= s < id
    ensures AlwaysExact(c, s, id) <==> s >= c[|c| - 2].id
  {
    hide Exec, Lookup;
    if s >= c[|c| - 2].id {
      forall steps: seq<Step> | Exec(Start(c), s, id, steps).reader.Got?
        ensures Exec(Start(c), s, id, steps).reader.degree == Lookup(c, s)
      {
        StartOk(c, s, id);
        RunKeeps(c, s, id, Start(c), steps);
      }
    } else {
      var cut := CutOff(c, s, id);
      var overtaken := Overtaken(c, s, id);
      assert Counted(c[0].degree, true) != ZERO;
    }
  }

  /** So the last snapshots are safe, one fewer than are kept between batches. */
  lemma RecentReadersAreSafe(c: seq<Snap>, s: nat, id: nat)
    requires Descending(c) && |c| >= 2 && c[0].id < id && s < id < s + |c|
    ensures AlwaysExact(c, s, id)
  {
    DescendingGap(c, |c| - 2);
    assert c[|c| - 1].id < c[|c| - 2].id;
    SafeIffNotOldest(c, s, id);
  }

  // ---------------------------------------------------------------- every reader finishes

  /** The links and the head, after so many writes. */
  predicate LinksOk(st: State) {
    var k := |st.nodes| - 1;
    && k >= 1 && (forall j :: 0 <= j < k - 1 ==> st.nodes[j].prev == j + 1)
    && st.nodes[k - 1].prev == (if st.written == 0 then k else -1)
    && st.nodes[k].prev == (if st.written < 4 then -1 else 0)
    && st.head == (if st.written < 5 then 0 else k)
  }

  /** How many blobs a reader standing at blob j may still come by: while the oldest hangs on, all those it leads to
      once it is the newest. */
  function Ahead(st: State, j: int): nat {
    var k := |st.nodes| - 1;
    if j < 0 || j > k then 0
    else if j == k then k + 1
    else k - j + if st.written == 0 then k + 1 else 0
  }

  /** The most reads that are left. */
  function ReadsLeft(st: State): nat {
    match st.reader
    case Begin => 4 * |st.nodes|
    case Look(j) => 2 * Ahead(st, j) + 1
    case Take(_) => 1
    case Follow(j) => 2 * Ahead(st, j)
    case Got(_) => 0
  }

  /** The reader is at no place but a blob, or past the last. */
  predicate PlaceOk(st: State) {
    match st.reader
    case Follow(j) => j < |st.nodes|
    case _ => true
  }

  /** A read brings the reader closer to its end, and no write takes it further away. */
  lemma StepDescends(st: State, s: nat, id: nat, step: Step)
    requires Shape(st) && LinksOk(st) && PlaceOk(st)
    ensures LinksOk(Apply(st, s, id, step)) && PlaceOk(Apply(st, s, id, step))
    ensures step.Write? ==> ReadsLeft(Apply(st, s, id, step)) <= ReadsLeft(st)
    ensures step.Read? && !st.reader.Got? ==> ReadsLeft(Apply(st, s, id, step)) < ReadsLeft(st)
    ensures st.reader.Got? ==> Apply(st, s, id, step).reader == st.reader
  {
  }

  lemma {:induction false} EnoughReads(st: State, s: nat, id: nat, steps: seq<Step>)
    requires Shape(st) && LinksOk(st) && PlaceOk(st) && multiset(steps)[Read] >= ReadsLeft(st)
    ensures Exec(st, s, id, steps).reader.Got?
    decreases |steps|
  {
    hide Apply, LinksOk, PlaceOk;
    if steps != [] {
      assert steps == [steps[0]] + steps[1..];
      StepDescends(st, s, id, steps[0]);
      FinishedIsZero(st);
      EnoughReads(Apply(st, s, id, steps[0]), s, id, steps[1..]);
    } else {
      FinishedIsZero(st);
    }
  }

  lemma FinishedIsZero(st: State)
    requires Shape(st) && PlaceOk(st)
    ensures st.reader.Got? <==> ReadsLeft(st) == 0
  {
  }

  /** However the writes fall between them, four reads for every blob end any walk, and one of a recent snapshot
      with that snapshot's degree. */
  lemma ReadersFinish(c: seq<Snap>, s: nat, id: nat, steps: seq<Step>)
    requires |c| >= 2 && multiset(steps)[Read] >= 4 * |c|
    ensures Exec(Start(c), s, id, steps).reader.Got?
    ensures Descending(c) && c[0].id < id && s < id < s + |c| ==>
              Exec(Start(c), s, id, steps).reader == Got(Lookup(c, s))
  {
    hide Exec, Lookup;
    EnoughReads(Start(c), s, id, steps);
    if Descending(c) && c[0].id < id && s < id < s + |c| {
      RecentReadersAreSafe(c, s, id);
    }
  }
}
