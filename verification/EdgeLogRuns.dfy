/** Runs of the edge log, for every log length, that lose an edge: by a marker out of reach, by storing the
    destination before the source, or by a marker behind the tail. */
module EdgeLogRuns {
  import opened EdgeLog

  // ---------------------------------------------------------------- building runs

  lemma {:induction false} AppendedConcat(a: seq<Step>, b: seq<Step>)
    ensures Appended(a + b) == Appended(a) + Appended(b)
  {
    hide AppendedBy;
    if a == [] {
      assert a + b == b;
    } else {
      assert (a + b)[0] == a[0] && (a + b)[1..] == a[1..] + b;
      AppendedConcat(a[1..], b);
    }
  }

  lemma {:induction false} LegalAppend(s: Log, steps: seq<Step>, step: Step)
    requires Shape(s) && Legal(s, steps) && Enabled(Exec(s, steps), step)
    ensures Legal(s, steps + [step]) && Exec(s, steps + [step]) == Apply(Exec(s, steps), step)
    ensures BatchesFit(s, steps + [step]) <==> BatchesFit(s, steps) && Fits(Exec(s, steps), step)
    ensures forall cut: nat :: PollsInOrder(s, steps + [step], cut) <==>
              PollsInOrder(s, steps, cut) && InChunkOrder(Exec(s, steps), step, cut)
    decreases |steps|
  {
    hide Enabled, Fits, Apply, InChunkOrder;
    if steps == [] {
      assert steps + [step] == [step] && [step][1..] == [];
    } else {
      assert (steps + [step])[0] == steps[0] && (steps + [step])[1..] == steps[1..] + [step];
      LegalAppend(Apply(s, steps[0]), steps[1..], step);
    }
  }

  /** The run takes log `a` to log `b`, appending `es`. */
  ghost predicate Runs(steps: seq<Step>, a: Log, b: Log, es: seq<Edge>) {
    Shape(a) && Legal(a, steps) && Exec(a, steps) == b && Appended(steps) == es
  }

  /** What runs keep to: polls in the order of two chunks, or of one with `cut` zero; with `fit`, batches that
      fit. */
  datatype Terms = Terms(fit: bool, cut: nat)

  predicate Agreed(terms: Terms, s: Log, step: Step) {
    (terms.fit ==> Fits(s, step)) && InChunkOrder(s, step, terms.cut)
  }

  predicate Keeps(terms: Terms, a: Log, steps: seq<Step>)
    requires Shape(a) && Legal(a, steps)
  {
    (terms.fit ==> BatchesFit(a, steps)) && PollsInOrder(a, steps, terms.cut)
  }

  /** Some run on these terms does. */
  ghost predicate Reaches(a: Log, b: Log, es: seq<Edge>, terms: Terms) {
    exists steps :: Runs(steps, a, b, es) && Keeps(terms, a, steps)
  }

  lemma ReachStart(a: Log, terms: Terms)
    requires Shape(a)
    ensures Reaches(a, a, [], terms)
  {
    assert Runs([], a, a, []);
  }

  lemma Go(a: Log, s: Log, es: seq<Edge>, terms: Terms, step: Step)
    requires Reaches(a, s, es, terms) && Shape(s) && Enabled(s, step) && Agreed(terms, s, step)
    ensures Reaches(a, Apply(s, step), es + AppendedBy(step), terms)
  {
    hide Enabled, Fits, Apply, InChunkOrder;
    var steps :| Runs(steps, a, s, es) && Keeps(terms, a, steps);
    LegalAppend(a, steps, step);
    AppendedConcat(steps, [step]);
    assert [step][1..] == [] && AppendedBy(step) + [] == AppendedBy(step);
    assert Runs(steps + [step], a, Apply(s, step), es + AppendedBy(step));
  }

  /** A step that appends nothing. */
  lemma GoOn(a: Log, s: Log, es: seq<Edge>, terms: Terms, step: Step) returns (s': Log)
    requires Reaches(a, s, es, terms) && Shape(s) && Enabled(s, step) && Agreed(terms, s, step) && !step.Reserve?
    ensures s' == Apply(s, step) && Reaches(a, s', es, terms)
  {
    hide Enabled, Agreed, Apply, Reaches;
    Go(a, s, es, terms, step);
    s' := Apply(s, step);
    assert es + AppendedBy(step) == es;
  }

  // ---------------------------------------------------------------- the parts

  /** The log after reserving all of `es`. */
  function Reserved(a: Log, es: seq<Edge>): Log {
    a.(edges := a.edges + es, stages := a.stages + seq(|es|, _ => Waiting))
  }

  lemma {:induction false} ReserveAll(a: Log, es: seq<Edge>, terms: Terms)
    requires Shape(a)
    ensures Reaches(a, Reserved(a, es), es, terms)
    decreases |es|
  {
    hide Reaches;
    if es == [] {
      ReachStart(a, terms);
      assert Reserved(a, es) == a;
    } else {
      var k := |es| - 1;
      ReserveAll(a, es[..k], terms);
      var s := Reserved(a, es[..k]);
      Go(a, s, es[..k], terms, Reserve(es[k]));
      assert Apply(s, Reserve(es[k])) == Reserved(a, es);
      assert es[..k] + [es[k]] == es;
    }
  }

  lemma ReservedFacts(a: Log, es: seq<Edge>)
    requires Shape(a) && a.edges == []
    ensures var s := Reserved(a, es);
            Shape(s) && s == a.(edges := es, stages := s.stages) && forall j :: 0 <= j < |es| ==> s.stages[j] == Waiting
  {
  }

  /** Index i written on a lap that marks. */
  function Filled(s: Log, i: nat): Log
    requires Shape(s) && i < s.Head()
  {
    Put(s, i, Slot(CopyOf(i, s.edges[i]), true), Written)
  }

  lemma FillOne(a: Log, s: Log, es: seq<Edge>, terms: Terms, i: nat)
    requires Reaches(a, s, es, terms) && Shape(s) && i < s.Head() && Enabled(s, Pass(i)) && Rewind(i, |s.slots|)
    ensures Reaches(a, Filled(s, i), es, terms)
  {
    hide Reaches, At, Rewind, Enabled;
    var n := |s.slots|;
    var k, e := At(i, n), s.edges[i];
    var s1 := GoOn(a, s, es, terms, Pass(i));
    CanStore(s1, i, false, false);
    var s2 := GoOn(a, s1, es, terms, StoreSrc(i));
    CanStore(s2, i, true, false);
    var s3 := GoOn(a, s2, es, terms, StoreDst(i));
    CanStore(s3, i, true, true);
    var s4 := GoOn(a, s3, es, terms, Mark(i));
    assert s4.slots == s.slots[k := Slot(CopyOf(i, e), true)] && s4.stages == s.stages[i := Written];
    assert s4 == Filled(s, i);
  }

  lemma CanStore(s: Log, i: nat, src: bool, dst: bool)
    requires Shape(s) && i < s.Head() && s.stages[i] == Storing(src, dst) && Rewind(i, |s.slots|)
    ensures !src ==> Enabled(s, StoreSrc(i))
    ensures !dst ==> Enabled(s, StoreDst(i))
    ensures src && dst ==> Enabled(s, Mark(i))
  {
  }

  /** The indices from lo up to hi written. */
  function FilledIn(s: Log, lo: nat, hi: nat): (s': Log)
    requires Shape(s) && lo <= hi <= s.Head()
    ensures Shape(s') && s' == s.(slots := s'.slots, stages := s'.stages) && |s'.slots| == |s.slots|
    decreases hi
  {
    if hi == lo then s else Filled(FilledIn(s, lo, hi - 1), hi - 1)
  }

  /** Of the first lap's slots those hold their own edges, marked; the others are as they were. */
  lemma {:induction false} FilledSlots(s: Log, lo: nat, hi: nat)
    requires Shape(s) && lo <= hi <= s.Head() && hi <= |s.slots|
    ensures forall j :: lo <= j < hi ==> FilledIn(s, lo, hi).slots[j] == Slot(CopyOf(j, s.edges[j]), true)
    ensures forall j :: 0 <= j < lo ==> FilledIn(s, lo, hi).slots[j] == s.slots[j]
    ensures forall j :: 0 <= j < lo || hi <= j < s.Head() ==> FilledIn(s, lo, hi).stages[j] == s.stages[j]
    ensures forall j :: lo <= j < hi ==> FilledIn(s, lo, hi).stages[j] == Written
    decreases hi
  {
    if hi > lo {
      FilledSlots(s, lo, hi - 1);
      FirstLap(hi - 1, |s.slots|);
    }
  }

  lemma {:induction false} FillIn(a: Log, s: Log, es: seq<Edge>, terms: Terms, lo: nat, hi: nat)
    requires Reaches(a, s, es, terms) && Shape(s) && lo <= hi <= s.Head() && hi <= |s.slots| && s.tail == 0
    requires forall j :: lo <= j < hi ==> s.stages[j] == Waiting
    ensures Reaches(a, FilledIn(s, lo, hi), es, terms)
    decreases hi
  {
    hide Reaches, Rewind, At;
    if hi > lo {
      FillIn(a, s, es, terms, lo, hi - 1);
      FilledSlots(s, lo, hi - 1);
      FirstLap(hi - 1, |s.slots|);
      FillOne(a, FilledIn(s, lo, hi - 1), es, terms, hi - 1);
    }
  }

  /** Marker m queued and taken. */
  function Taken(s: Log, m: nat): Log
    requires Shape(s)
  {
    s.(queue := s.queue[At(s.qHead, |s.queue|) := m], qHead := s.qHead + 1, qTail := s.qHead + 1, marker := m,
       phase := Polling({}))
  }

  lemma Take(a: Log, s: Log, es: seq<Edge>, terms: Terms, m: nat)
    requires Reaches(a, s, es, terms) && Shape(s) && m <= s.Head() && s.phase.Idle? && s.qTail <= s.qHead
    ensures Reaches(a, Taken(s, m), es, terms)
  {
    hide Reaches, At;
    var s1 := GoOn(a, s, es, terms, QueueMarker(m));
    var s2 := GoOn(a, s1, es, terms, MoveMarker);
    assert s2 == Taken(s, m);
  }

  /** Polls from lo up to hi within one chunk whose indices below lo are polled. */
  lemma {:induction false} PollAll(a: Log, s: Log, es: seq<Edge>, terms: Terms, lo: nat, hi: nat) returns (s': Log)
    requires Reaches(a, s, es, terms) && Shape(s) && s.phase.Polling? && s.tail <= lo <= hi <= s.marker
    requires forall i: nat :: lo <= i < hi ==> Enabled(s, Poll(i))
    requires hi <= terms.cut || terms.cut <= lo
    requires forall j :: s.tail <= j < lo && (j < terms.cut <==> lo < terms.cut) ==> j in s.phase.seen
    ensures Reaches(a, s', es, terms) && s'.phase.Polling? && s' == s.(phase := s'.phase)
    ensures forall i: nat :: i in s'.phase.seen <==> i in s.phase.seen || lo <= i < hi
    decreases hi
  {
    hide Reaches, At, Rewind;
    s' := s;
    if hi > lo {
      var s1 := PollAll(a, s, es, terms, lo, hi - 1);
      assert Enabled(s, Poll(hi - 1));
      s' := GoOn(a, s1, es, terms, Poll(hi - 1));
    }
  }

  function Copies(s: Log, lo: nat, hi: nat): map<nat, Copy>
    requires Shape(s)
  {
    map i | lo <= i < hi :: s.slots[At(i, |s.slots|)].copy
  }

  lemma {:induction false} ReadAll(a: Log, s: Log, es: seq<Edge>, terms: Terms, hi: nat)
    requires Reaches(a, s, es, terms) && Shape(s) && s.phase == Reading(map[]) && s.tail <= hi <= s.marker
    ensures Reaches(a, s.(phase := Reading(Copies(s, s.tail, hi))), es, terms)
    decreases hi
  {
    hide Reaches, At;
    if hi == s.tail {
      assert Copies(s, s.tail, hi) == map[];
    } else {
      var k := hi - 1;
      ReadAll(a, s, es, terms, k);
      var s2 := GoOn(a, s.(phase := Reading(Copies(s, s.tail, k))), es, terms, Read(k));
      assert Copies(s, s.tail, k)[k := s.slots[At(k, |s.slots|)].copy] == Copies(s, s.tail, hi);
    }
  }

  /** The batch up to the marker archived as the slots stand. */
  function Archived(s: Log): Log
    requires Shape(s) && s.tail <= s.marker
  {
    s.(archived := s.archived + Stand(s), tail := s.marker, phase := Idle)
  }

  function Stand(s: Log): seq<Copy>
    requires Shape(s) && s.tail <= s.marker
  {
    seq(s.marker - s.tail, k requires 0 <= k < s.marker - s.tail => s.slots[At(s.tail + k, |s.slots|)].copy)
  }

  /** From the polled suffix on: poll the rest, read all, move the tail. */
  lemma ArchiveBatch(a: Log, s: Log, es: seq<Edge>, terms: Terms, hi: nat)
    requires Reaches(a, s, es, terms) && Shape(s) && s.phase.Polling? && s.tail <= hi <= s.marker
    requires forall i: nat :: s.tail <= i < hi ==> Enabled(s, Poll(i))
    requires forall i: nat :: hi <= i < s.marker ==> i in s.phase.seen
    requires terms.cut == 0 || hi <= terms.cut
    requires terms.fit ==> s.marker <= s.tail + |s.slots|
    ensures Reaches(a, Archived(s), es, terms)
  {
    hide Reaches, At, Rewind;
    var s1 := PollAll(a, s, es, terms, s.tail, hi);
    var s2 := GoOn(a, s1, es, terms, StartReading);
    ReadAll(a, s2, es, terms, s.marker);
    var s3 := s2.(phase := Reading(Copies(s2, s.tail, s.marker)));
    var s4 := GoOn(a, s3, es, terms, UpdateMarker);
    assert Batch(s3) == Stand(s) by {
      forall k | 0 <= k < s.marker - s.tail ensures GotAt(s3, s.tail + k) == Stand(s)[k] {
      }
    }
    assert s4 == Archived(s);
  }

  // ---------------------------------------------------------------- lost edges

  /** One edge more than the log holds is reserved and a marker is taken at the head; two threads poll the batch,
      each its chunk in ascending order, cut anywhere. While the first edge's writer is held up, the second thread
      gets to the last index, whose slot is still unmarked, as its own lap wants it, and passes before its writer
      may store. The first edge is archived twice, the last never. Chunks cut finer keep the same order. */
  lemma OverlongMarkerLosesAnEdge(n: nat, q: nat, srcFirst: bool, es: seq<Edge>, c: nat) returns (steps: seq<Step>)
    requires q > 0 && |es| == n + 1 && es[n] != es[0] && 0 < c <= n
    ensures Legal(Init(n, q, srcFirst), steps) && Appended(steps) == es && PollsInOrder(Init(n, q, srcFirst), steps, c)
    ensures Exec(Init(n, q, srcFirst), steps).tail == n + 1
    ensures EdgesIn(Exec(Init(n, q, srcFirst), steps).archived) == es[..n] + [es[0]] != es
  {
    hide Reaches, Legal, Exec, At, Rewind;
    var a, terms := Init(n, q, srcFirst), Terms(false, c);
    var s1 := AllButFirst(a, n, q, es, terms);
    FarChunkPasses(s1, n, c);
    var s2 := PollAll(a, s1, es, terms, c, n + 1);
    FirstLap(0, n);
    FillOne(a, s2, es, terms, 0);
    var s3 := Filled(s2, 0);
    forall i: nat | i < c ensures Enabled(s3, Poll(i)) {
      FirstLap(i, n);
    }
    ArchiveBatch(a, s3, es, terms, c);
    FirstLapStands(s3, n);
    steps := TheRun(a, Archived(s3), es, terms);
    assert (es[..n] + [es[0]])[n] != es[n];
  }

  /** Everything reserved, the far marker taken, and all but the first edge within reach written. */
  lemma AllButFirst(a: Log, n: nat, q: nat, es: seq<Edge>, terms: Terms) returns (s: Log)
    requires n > 0 && q > 0 && |es| == n + 1 && exists srcFirst :: a == Init(n, q, srcFirst)
    ensures Reaches(a, s, es, terms) && Shape(s) && |s.slots| == n && s.edges == es && s.archived == []
    ensures s.tail == 0 && s.marker == n + 1 && s.phase == Polling({}) && s.stages[0] == Waiting && !s.slots[0].marked
    ensures forall j :: 1 <= j < n ==> s.slots[j] == Slot(CopyOf(j, es[j]), true)
  {
    hide Reaches, At, Rewind, Reserved, FilledIn;
    ReserveAll(a, es, terms);
    ReservedFacts(a, es);
    var s1 := Taken(Reserved(a, es), n + 1);
    Take(a, Reserved(a, es), es, terms, n + 1);
    FillIn(a, s1, es, terms, 1, n);
    FilledSlots(s1, 1, n);
    s := FilledIn(s1, 1, n);
  }

  lemma FarChunkPasses(s: Log, n: nat, c: nat)
    requires Shape(s) && |s.slots| == n && 0 < c <= n && s.tail == 0 && s.marker == n + 1 && s.phase == Polling({})
    requires !s.slots[0].marked && forall j :: 1 <= j < n ==> s.slots[j].marked
    ensures forall i: nat :: c <= i < n + 1 ==> Enabled(s, Poll(i))
  {
    hide At, Rewind;
    LapFacts(0, n);
    FirstLap(0, n);
    forall i: nat | c <= i < n + 1 ensures Enabled(s, Poll(i)) {
      if i < n {
        FirstLap(i, n);
      }
    }
  }

  /** The same marker taken after the writers within reach are done hangs the archiver for good. */
  lemma OverlongMarkerHangs(n: nat, q: nat, es: seq<Edge>) returns (steps: seq<Step>)
    requires n > 0 && q > 0 && |es| == n + 1
    ensures Legal(Init(n, q, true), steps) && BatchesFit(Init(n, q, true), steps) && Appended(steps) == es
    ensures PollsInOrder(Init(n, q, true), steps, 0)
    ensures Hung(Exec(Init(n, q, true), steps))
  {
    hide Reaches, Legal, Exec, At, Rewind, Inv;
    var a, terms := Init(n, q, true), Terms(true, 0);
    ReserveAll(a, es, terms);
    var s1 := Reserved(a, es);
    FillIn(a, s1, es, terms, 0, n);
    FilledSlots(s1, 0, n);
    var s2 := FilledIn(s1, 0, n);
    Take(a, s2, es, terms, n + 1);
    steps := TheRun(a, Taken(s2, n + 1), es, terms);
    InitInv(n, q);
    RunKeepsInv(a, steps);
  }

  lemma TheRun(a: Log, s: Log, es: seq<Edge>, terms: Terms) returns (steps: seq<Step>)
    requires Reaches(a, s, es, terms)
    ensures Shape(a) && Legal(a, steps) && Exec(a, steps) == s && Appended(steps) == es
      && Keeps(terms, a, steps)
  {
    steps :| Runs(steps, a, s, es) && Keeps(terms, a, steps);
  }

  lemma FirstLapStands(s: Log, n: nat)
    requires Shape(s) && |s.slots| == n <= s.marker && s.tail == 0 && s.Head() > 0
    ensures forall k :: 0 <= k < n ==> Stand(s)[k] == s.slots[k].copy
    ensures forall k :: n <= k < s.marker && k == n ==> Stand(s)[k] == s.slots[0].copy
  {
    forall k | 0 <= k < n ensures Stand(s)[k] == s.slots[k].copy {
      FirstLap(k, n);
    }
    LapFacts(0, n);
    FirstLap(0, n);
  }

  /** With the destination stored first, every batch fits and yet the poll on a lap without marks passes a
      slot that has only its new destination: the last edge is archived with another's source. */
  lemma TornCopyIsArchived(n: nat, q: nat, es: seq<Edge>) returns (steps: seq<Step>)
    requires n > 0 && q > 0 && |es| == n + 1
    ensures Legal(Init(n, q, false), steps) && BatchesFit(Init(n, q, false), steps) && Appended(steps) == es
    ensures PollsInOrder(Init(n, q, false), steps, 0)
    ensures Exec(Init(n, q, false), steps).tail == n + 1 && !Faithful(Exec(Init(n, q, false), steps))
    ensures EdgesIn(Exec(Init(n, q, false), steps).archived) == es[..n] + [Sharding.Record(es[0].src, es[n].dst)]
  {
    hide Reaches, Legal, Exec, At, Rewind;
    var a, terms := Init(n, q, false), Terms(true, 0);
    var s := FirstBatch(a, n, q, es, terms);
    LapFacts(0, n);
    FirstLap(0, n);
    var s1 := GoOn(a, s, es, terms, Pass(n));
    var s2 := GoOn(a, s1, es, terms, StoreDst(n));
    Take(a, s2, es, terms, n + 1);
    var s3 := Taken(s2, n + 1);
    ArchiveBatch(a, s3, es, terms, n + 1);
    steps := TheRun(a, Archived(s3), es, terms);
    assert Stand(s3)[0] == s3.slots[At(n, n)].copy == Copy(CopyOf(0, es[0]).src, CopyOf(n, es[n]).dst);
    assert Archived(s3).archived == s.archived + [Stand(s3)[0]];
  }

  /** The first lap written and archived, one more edge reserved. */
  lemma FirstBatch(a: Log, n: nat, q: nat, es: seq<Edge>, terms: Terms) returns (s: Log)
    requires n > 0 && q > 0 && |es| == n + 1 && a == Init(n, q, false) && terms == Terms(true, 0)
    ensures Reaches(a, s, es, terms) && Shape(s) && |s.slots| == n && !s.srcFirst && s.edges == es
    ensures s.tail == n && s.phase == Idle && s.qTail == s.qHead && s.stages[n] == Waiting
    ensures s.slots[0] == Slot(CopyOf(0, es[0]), true)
    ensures s.archived == seq(n, k requires 0 <= k < n => CopyOf(k, es[k]))
  {
    hide Reaches, At, Rewind;
    var s2 := FirstFill(a, n, q, es, terms);
    Take(a, s2, es, terms, n);
    var s3 := Taken(s2, n);
    forall i: nat | i < n ensures Enabled(s3, Poll(i)) {
      FirstLap(i, n);
    }
    ArchiveBatch(a, s3, es, terms, n);
    FirstLapStands(s3, n);
    s := Archived(s3);
  }

  lemma FirstFill(a: Log, n: nat, q: nat, es: seq<Edge>, terms: Terms) returns (s: Log)
    requires n > 0 && q > 0 && |es| == n + 1 && a == Init(n, q, false) && terms == Terms(true, 0)
    ensures Reaches(a, s, es, terms) && Shape(s) && |s.slots| == n
      && s == Reserved(a, es).(slots := s.slots, stages := s.stages)
    ensures forall j :: 0 <= j < n ==> s.slots[j] == Slot(CopyOf(j, es[j]), true)
    ensures s.stages[n] == Waiting
  {
    hide Reaches, At, Rewind, Reserved, FilledIn;
    ReserveAll(a, es, terms);
    ReservedFacts(a, es);
    var s0 := Reserved(a, es);
    FillIn(a, s0, es, terms, 0, n);
    FilledSlots(s0, 0, n);
    s := FilledIn(s0, 0, n);
  }

  /** Every run of a log whose batches fit is faithful exactly if the log stores sources first. */
  lemma FaithfulIffSourceFirst(n: nat, q: nat, srcFirst: bool)
    requires n > 0 && q > 0
    ensures (forall steps :: Legal(Init(n, q, srcFirst), steps) && BatchesFit(Init(n, q, srcFirst), steps) ==>
               Faithful(Exec(Init(n, q, srcFirst), steps))) <==> srcFirst
  {
    hide Legal, Exec;
    if srcFirst {
      forall steps | Legal(Init(n, q, true), steps) && BatchesFit(Init(n, q, true), steps)
        ensures Faithful(Exec(Init(n, q, true), steps))
      {
        FaithfulIffBatchesFit(n, q, steps);
      }
    } else {
      var steps := TornCopyIsArchived(n, q, seq(n + 1, _ => Sharding.Record(0, 0)));
    }
  }

  /** A marker behind the tail, which a slower writer may queue after a faster one's was taken, moves the tail
      back, and the archive is never faithful again. */
  lemma MarkerBehindBreaks(s: Log, m: nat) returns (steps: seq<Step>)
    requires Inv(s) && s.phase.Idle? && s.qTail <= s.qHead && m < s.tail
    ensures Legal(s, steps) && Exec(s, steps).tail == m
    ensures forall more :: Legal(Exec(s, steps), more) ==> !Faithful(Exec(Exec(s, steps), more))
  {
    hide Reaches, Legal, Exec, At, Rewind;
    var terms := Terms(false, 0);
    ReachStart(s, terms);
    Take(s, s, [], terms, m);
    var s1 := GoOn(s, Taken(s, m), [], terms, StartReading);
    var s2 := GoOn(s, s1, [], terms, UpdateMarker);
    steps := TheRun(s, s2, [], terms);
    forall more | Legal(s2, more) ensures !Faithful(Exec(s2, more)) {
      BrokenForever(s2, more);
    }
  }
}
