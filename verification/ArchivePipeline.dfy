/** The way of an edge from the circular log to a vertex's neighbours: appended, archived in batches,
    partitioned, logged at its vertex, read back as of a snapshot. */
module ArchivePipeline {
  import opened RecordLog
  import opened VertexLog
  import opened Sharding
  import EdgeLog
  import VertexUnits

  // ---------------------------------------------------------------- what edges ask of a vertex

  /** Both: an undirected graph files an edge at its source and at its destination. */
  datatype Direction = Outward | Inward | Both

  /** The update, as a sequence of none or one, of vertex v by an edge seen from `me`. The edge's source carries
      the delete mark for either end. */
  function Update(del: bool, me: Sid, other: Sid, v: nat): seq<Op> {
    if Vid(me) != v then []
    else if del then [Del(UndelSid(other))]
    else [Add(UndelSid(other))]
  }

  function AskedBy(d: Direction, e: Record, v: nat): seq<Op> {
    (if d.Inward? then [] else Update(IsDel(e.src), e.src, e.dst, v))
    + if d.Outward? then [] else Update(IsDel(e.src), e.dst, e.src, v)
  }

  /** All updates of vertex v by the edges, in order. */
  function Asked(d: Direction, edges: seq<Record>, v: nat): seq<Op> {
    if edges == [] then [] else Asked(d, DropLast(edges), v) + AskedBy(d, Last(edges), v)
  }

  function AskedInBatches(d: Direction, batches: seq<seq<Record>>, v: nat): seq<seq<Op>> {
    seq(|batches|, b requires 0 <= b < |batches| => Asked(d, batches[b], v))
  }

  function Concat(batches: seq<seq<Record>>): seq<Record> {
    if batches == [] then [] else Concat(DropLast(batches)) + Last(batches)
  }

  lemma {:induction false} AskedConcat(d: Direction, a: seq<Record>, b: seq<Record>, v: nat)
    ensures Asked(d, a + b, v) == Asked(d, a, v) + Asked(d, b, v)
  {
    hide AskedBy;
    if b == [] {
      assert a + b == a;
    } else {
      AskedConcat(d, a, DropLast(b), v);
      assert DropLast(a + b) == a + DropLast(b);
    }
  }

  lemma {:induction false} AskedPlain(d: Direction, edges: seq<Record>, v: nat)
    ensures Plain(Asked(d, edges, v))
  {
    if edges != [] {
      AskedPlain(d, DropLast(edges), v);
    }
  }

  // ---------------------------------------------------------------- one edge, by its words

  /** The word of vertex v: its 30-bit id, with the type bit above and the delete mark on top. */
  function WordOf(v: nat, typed: bool, del: bool): Sid
    requires v < 0x4000_0000
  {
    v + (if typed then 0x4000_0000 else 0) + if del then 0x8000_0000 else 0
  }

  /** An edge without a mark inserts, one with a mark on its source deletes; going out it is an update of the vertex
      whose id its source holds, coming in of the one whose id its destination holds, and of no other. */
  lemma EdgeAsks(v: nat, w: nat, u: nat, typed: bool, typedTo: bool, del: bool)
    requires v < 0x4000_0000 && w < 0x4000_0000
    ensures var e := Record(WordOf(v, typed, del), WordOf(w, typedTo, false));
            var to, from := WordOf(w, typedTo, false), WordOf(v, typed, false);
            && Asked(Outward, [e], u) == (if u == v then [if del then Del(to) else Add(to)] else [])
            && Asked(Inward, [e], u) == (if u == w then [if del then Del(from) else Add(from)] else [])
            && Asked(Both, [e], u) == Asked(Outward, [e], u) + Asked(Inward, [e], u)
  {
    var e := Record(WordOf(v, typed, del), WordOf(w, typedTo, false));
    WordParts(v, typed, del);
    WordParts(w, typedTo, false);
    assert DropLast([e]) == [];
    assert forall d :: Asked(d, [e], u) == [] + AskedBy(d, e, u);
  }

  lemma WordParts(v: nat, typed: bool, del: bool)
    requires v < 0x4000_0000
    ensures Vid(WordOf(v, typed, del)) == v && IsDel(WordOf(v, typed, del)) == del
    ensures UndelSid(WordOf(v, typed, del)) == WordOf(v, typed, false)
  {
  }

  /** What such updates mean after any others: an insert adds one neighbour, a delete takes one away if there is any
      with that id, and nothing else changes. */
  lemma UpdatesMean(ops: seq<Op>, x: Sid, y: Sid)
    ensures Neighbours(multiset{}, [])[y] == 0
    ensures var n := Neighbours(multiset{}, ops);
            && Neighbours(multiset{}, ops + [Add(x)])[y] == n[y] + (if x == y then 1 else 0)
            && Neighbours(multiset{}, ops + [Del(x)])[y] == n[y] - (if x == y && n[y] > 0 then 1 else 0)
  {
    assert DropLast(ops + [Add(x)]) == ops == DropLast(ops + [Del(x)]);
  }

  // ---------------------------------------------------------------- the partition hands it over

  function Stream(d: Direction, log: seq<Record>, shift: nat): seq<Placement> {
    match d
    case Outward => OutStream(log, shift)
    case Inward => InStream(log, shift)
    case Both => BothStream(log, shift)
  }

  /** The records of one edge, filed out and filed in, are the updates it asks for. */
  lemma PlacementAsks(e: Record, shift: nat, v: nat)
    ensures OpIf(Out(e, shift).rec, v) == AskedBy(Outward, e, v)
    ensures OpIf(In(e, shift).rec, v) == AskedBy(Inward, e, v)
    ensures AskedBy(Both, e, v) == AskedBy(Outward, e, v) + AskedBy(Inward, e, v)
  {
    var dst := UndelSid(e.dst);
    assert Vid(DelSid(dst)) == Vid(dst) == Vid(e.dst);
    MaskRoundTrip(e.src);
  }

  lemma RecordsNext(s: seq<Placement>, p: Placement)
    ensures Records(s + [p]) == Records(s) + [p.rec]
  {
    assert DropLast(s + [p]) == s;
  }

  lemma OpsNextPlaced(s: seq<Placement>, p: Placement, v: nat)
    ensures OpsOf(Records(s + [p]), v) == OpsOf(Records(s), v) + OpIf(p.rec, v)
  {
    hide OpIf, OpsOf, Records;
    RecordsNext(s, p);
    OpsNext(Records(s), p.rec, v);
  }

  lemma StreamNext(d: Direction, log: seq<Record>, shift: nat)
    requires log != []
    ensures Stream(d, log, shift) ==
            Stream(d, DropLast(log), shift)
            + (if d.Inward? then [] else [Out(Last(log), shift)])
            + (if d.Outward? then [] else [In(Last(log), shift)])
  {
    hide Out, In;
  }

  /** The records filed under v are exactly the updates the edges ask of v, in order. */
  lemma {:induction false} StreamAsks(d: Direction, log: seq<Record>, shift: nat, v: nat)
    ensures OpsOf(Records(Stream(d, log, shift)), v) == Asked(d, log, v)
  {
    hide Out, In, OpIf, AskedBy, Records, OpsOf, Stream;
    if log == [] {
      NoOps(d, shift, v);
    } else {
      var most, e := DropLast(log), Last(log);
      StreamAsks(d, most, shift, v);
      StreamNext(d, log, shift);
      PlacementAsks(e, shift, v);
      var s := Stream(d, most, shift);
      match d
      case Outward =>
        assert s + [Out(e, shift)] + [] == s + [Out(e, shift)];
        OpsNextPlaced(s, Out(e, shift), v);
      case Inward =>
        assert s + [] == s;
        OpsNextPlaced(s, In(e, shift), v);
      case Both =>
        OpsNextPlaced(s, Out(e, shift), v);
        OpsNextPlaced(s + [Out(e, shift)], In(e, shift), v);
    }
  }

  lemma NoOps(d: Direction, shift: nat, v: nat)
    ensures OpsOf(Records(Stream(d, [], shift)), v) == [] && Asked(d, [], v) == []
    ensures Neighbours(multiset{}, []) == multiset{} && ApplyAll([], []) == []
  {
  }

  // ---------------------------------------------------------------- batch borders

  lemma {:induction false} NeighboursConcat(m: multiset<Sid>, a: seq<Op>, b: seq<Op>)
    ensures Neighbours(m, a + b) == Neighbours(Neighbours(m, a), b)
  {
    hide Effect;
    if b == [] {
      assert a + b == a;
    } else {
      NeighboursConcat(m, a, DropLast(b));
      assert DropLast(a + b) == a + DropLast(b) && Last(a + b) == Last(b);
    }
  }

  /** Batch borders do not matter to the reference neighbours. */
  lemma {:induction false} BatchesMeanLog(d: Direction, batches: seq<seq<Record>>, v: nat)
    ensures NeighboursAfter(AskedInBatches(d, batches, v)) == Neighbours(multiset{}, Asked(d, Concat(batches), v))
  {
    hide Asked, Neighbours;
    if batches == [] {
      NoOps(d, 0, v);
    } else {
      var most, last := DropLast(batches), Last(batches);
      BatchesMeanLog(d, most, v);
      assert DropLast(AskedInBatches(d, batches, v)) == AskedInBatches(d, most, v);
      AskedConcat(d, Concat(most), last, v);
      NeighboursConcat(multiset{}, Asked(d, Concat(most), v), Asked(d, last, v));
    }
  }

  lemma {:induction false} ApplyConcat(r: seq<Sid>, a: seq<Op>, b: seq<Op>)
    ensures ApplyAll(r, a + b) == ApplyAll(ApplyAll(r, a), b)
  {
    if b == [] {
      assert a + b == a;
    } else {
      ApplyConcat(r, a, DropLast(b));
      assert DropLast(a + b) == a + DropLast(b) && Last(a + b) == Last(b);
    }
  }

  /** Batch borders do not matter to the vertex log either. */
  lemma {:induction false} LogIgnoresBatches(d: Direction, batches: seq<seq<Record>>, v: nat)
    ensures LogAfter(AskedInBatches(d, batches, v)) == ApplyAll([], Asked(d, Concat(batches), v))
  {
    hide Asked, ApplyAll;
    if batches == [] {
      NoOps(d, 0, v);
    } else {
      var most, last := DropLast(batches), Last(batches);
      LogIgnoresBatches(d, most, v);
      assert DropLast(AskedInBatches(d, batches, v)) == AskedInBatches(d, most, v);
      AskedConcat(d, Concat(most), last, v);
      ApplyConcat([], Asked(d, Concat(most), v), Asked(d, last, v));
    }
  }

  // ---------------------------------------------------------------- the batches of a run

  function BatchOf(s: EdgeLog.Log, step: EdgeLog.Step): seq<seq<Record>>
    requires EdgeLog.Shape(s) && EdgeLog.Enabled(s, step)
  {
    if step.UpdateMarker? then [EdgeLog.EdgesIn(EdgeLog.Batch(s))] else []
  }

  function MarkerOf(s: EdgeLog.Log, step: EdgeLog.Step): seq<nat> {
    if step.UpdateMarker? then [s.marker] else []
  }

  /** The batches that a run of the log archives, one for each move of the tail. */
  function BatchesOf(s: EdgeLog.Log, steps: seq<EdgeLog.Step>): seq<seq<Record>>
    requires EdgeLog.Shape(s) && EdgeLog.Legal(s, steps)
    decreases |steps|
  {
    if steps == [] then []
    else BatchOf(s, steps[0]) + BatchesOf(EdgeLog.Apply(s, steps[0]), steps[1..])
  }

  /** The markers those batches reach up to. */
  function MarkersOf(s: EdgeLog.Log, steps: seq<EdgeLog.Step>): seq<nat>
    requires EdgeLog.Shape(s) && EdgeLog.Legal(s, steps)
    decreases |steps|
  {
    if steps == [] then []
    else MarkerOf(s, steps[0]) + MarkersOf(EdgeLog.Apply(s, steps[0]), steps[1..])
  }

  lemma {:induction false} ConcatFront(b: seq<Record>, rest: seq<seq<Record>>)
    ensures Concat([b] + rest) == b + Concat(rest)
  {
    if rest == [] {
      assert DropLast([b] + rest) == [] && Concat([]) == [];
    } else {
      ConcatFront(b, DropLast(rest));
      assert DropLast([b] + rest) == [b] + DropLast(rest);
    }
  }

  /** The first k batches of what a run archives from log s on: they end at the k-th marker. */
  ghost predicate Reach(s: EdgeLog.Log, batches: seq<seq<Record>>, markers: seq<nat>, k: nat)
    requires |batches| == |markers| && 0 < k <= |batches|
  {
    s.tail + |Concat(batches[..k])| == markers[k - 1]
  }

  lemma ReachNext(s: EdgeLog.Log, s1: EdgeLog.Log, b: seq<Record>, batches: seq<seq<Record>>, markers: seq<nat>, k: nat)
    requires |batches| == |markers| && 0 < k <= |batches| + 1 && s1.tail == s.tail + |b|
    requires k > 1 ==> Reach(s1, batches, markers, k - 1)
    ensures Reach(s, [b] + batches, [s1.tail] + markers, k)
  {
    assert ([b] + batches)[..k] == [b] + batches[..k - 1];
    ConcatFront(b, batches[..k - 1]);
    if k == 1 {
      assert batches[..0] == [] && Concat([]) == [];
    }
  }

  /** A run whose batches fit adds its batches to the archive, each ending at its marker. */
  lemma {:induction false} RunBatches(s: EdgeLog.Log, steps: seq<EdgeLog.Step>)
    requires EdgeLog.Shape(s) && EdgeLog.Legal(s, steps) && EdgeLog.BatchesFit(s, steps)
    ensures |BatchesOf(s, steps)| == |MarkersOf(s, steps)|
    ensures EdgeLog.EdgesIn(EdgeLog.Exec(s, steps).archived)
            == EdgeLog.EdgesIn(s.archived) + Concat(BatchesOf(s, steps))
    ensures forall k :: 0 < k <= |BatchesOf(s, steps)| ==> Reach(s, BatchesOf(s, steps), MarkersOf(s, steps), k)
    decreases |steps|
  {
    hide EdgeLog.Enabled, EdgeLog.Apply, EdgeLog.Fits, EdgeLog.EdgesIn, BatchOf, Concat, Reach;
    if steps == [] {
      NothingConcat(EdgeLog.EdgesIn(s.archived));
    } else {
      var s1, step := EdgeLog.Apply(s, steps[0]), steps[0];
      RunBatches(s1, steps[1..]);
      var rest, markers := BatchesOf(s1, steps[1..]), MarkersOf(s1, steps[1..]);
      StepBatch(s, step);
      if step.UpdateMarker? {
        var b := BatchOf(s, step)[0];
        assert BatchOf(s, step) == [b];
        ConcatFront(b, rest);
        forall k | 0 < k <= |rest| + 1 ensures Reach(s, [b] + rest, [s1.tail] + markers, k) {
          ReachNext(s, s1, b, rest, markers, k);
        }
      } else {
        assert [] + rest == rest && [] + markers == markers;
        forall k | 0 < k <= |rest| ensures Reach(s, rest, markers, k) {
          ReachSame(s, s1, rest, markers, k);
        }
      }
    }
  }

  lemma NothingConcat(a: seq<Record>)
    ensures a + Concat([]) == a
  {
  }

  lemma ReachSame(s: EdgeLog.Log, s1: EdgeLog.Log, batches: seq<seq<Record>>, markers: seq<nat>, k: nat)
    requires |batches| == |markers| && 0 < k <= |batches| && s1.tail == s.tail && Reach(s1, batches, markers, k)
    ensures Reach(s, batches, markers, k)
  {
  }

  lemma StepBatch(s: EdgeLog.Log, step: EdgeLog.Step)
    requires EdgeLog.Shape(s) && EdgeLog.Enabled(s, step) && EdgeLog.Fits(s, step)
    ensures var s1 := EdgeLog.Apply(s, step);
            if step.UpdateMarker? then
              |BatchOf(s, step)| == 1 && s1.tail == s.marker == s.tail + |BatchOf(s, step)[0]| &&
              EdgeLog.EdgesIn(s1.archived) == EdgeLog.EdgesIn(s.archived) + BatchOf(s, step)[0]
            else
              BatchOf(s, step) == [] && s1.tail == s.tail && s1.archived == s.archived
  {
    hide EdgeLog.At, EdgeLog.Rewind;
  }

  /** The marker that ends the first k batches. */
  function EndOf(markers: seq<nat>, k: nat): nat
    requires k <= |markers|
  {
    if k == 0 then 0 else markers[k - 1]
  }

  /** The first k batches of a run from a fresh log are the edges appended up to the k-th marker. */
  lemma BatchesAreAppended(n: nat, q: nat, steps: seq<EdgeLog.Step>, k: nat)
    requires n > 0 && q > 0
    requires var s := EdgeLog.Init(n, q, true);
             EdgeLog.Legal(s, steps) && EdgeLog.BatchesFit(s, steps) && k <= |BatchesOf(s, steps)|
    ensures var s := EdgeLog.Init(n, q, true);
            |BatchesOf(s, steps)| == |MarkersOf(s, steps)| &&
            EndOf(MarkersOf(s, steps), k) <= |EdgeLog.Appended(steps)| &&
            Concat(BatchesOf(s, steps)[..k]) == EdgeLog.Appended(steps)[..EndOf(MarkersOf(s, steps), k)]
  {
    hide EdgeLog.Legal, EdgeLog.Exec, EdgeLog.Appended, EdgeLog.BatchesFit, BatchesOf, MarkersOf, Concat;
    var s := EdgeLog.Init(n, q, true);
    var batches := BatchesOf(s, steps);
    NothingConcat([]);
    RunBatches(s, steps);
    EdgeLog.ArchivedInOrder(n, q, steps);
    ConcatPrefix(batches, k);
    if k > 0 {
      assert Reach(s, batches, MarkersOf(s, steps), k);
    } else {
      assert batches[..0] == [];
    }
    assert EdgeLog.EdgesIn(s.archived) == [];
  }

  lemma {:induction false} ConcatPrefix(batches: seq<seq<Record>>, k: nat)
    requires k <= |batches|
    ensures Concat(batches[..k]) <= Concat(batches)
  {
    if k == |batches| {
      assert batches[..k] == batches;
    } else {
      ConcatPrefix(DropLast(batches), k);
      assert DropLast(batches)[..k] == batches[..k];
    }
  }

  // ---------------------------------------------------------------- from the log to a read

  /** For every run of the edge log whose batches fit: if the appended edges delete no neighbour of v twice in
      a row, the vertex log built from the batches is well formed and its live records are exactly the
      neighbours that the archived part of what was appended asks for, in appending order. */
  lemma AppendedEdgesAreNeighbours(n: nat, q: nat, steps: seq<EdgeLog.Step>, k: nat, d: Direction, v: nat)
    requires n > 0 && q > 0
    requires var s := EdgeLog.Init(n, q, true);
             EdgeLog.Legal(s, steps) && EdgeLog.BatchesFit(s, steps) && k <= |BatchesOf(s, steps)|
    ensures var s := EdgeLog.Init(n, q, true);
            |BatchesOf(s, steps)| == |MarkersOf(s, steps)| &&
            EndOf(MarkersOf(s, steps), k) <= |EdgeLog.Appended(steps)| &&
            var ops := Asked(d, EdgeLog.Appended(steps)[..EndOf(MarkersOf(s, steps), k)], v);
            var log := LogAfter(AskedInBatches(d, BatchesOf(s, steps)[..k], v));
            |ops| <= DEL_MASK ==>
              (WellFormed(log) <==> NoRepeatedDelete(ops))
              && (NoRepeatedDelete(ops) ==> Live(log) == Neighbours(multiset{}, ops))
  {
    hide Neighbours, Live, Asked, WellFormed, LogAfter, ApplyAll, NoRepeatedDelete, BatchesOf, MarkersOf, EdgeLog.Legal;
    BatchesAreAppended(n, q, steps, k);
    var batches := BatchesOf(EdgeLog.Init(n, q, true), steps)[..k];
    LogIgnoresBatches(d, batches, v);
    AskedPlain(d, Concat(batches), v);
    var ops := Asked(d, Concat(batches), v);
    if |ops| <= DEL_MASK {
      WellFormedIff(ops);
      if NoRepeatedDelete(ops) {
        NothingLive();
        LogMeansNeighbours([], ops);
      }
    }
  }

  /** The vertex counts of the two ends, which undirected graphs share, and the number of ranges. */
  datatype Counts = Counts(out: nat, into: nat, ranges: nat) {
    predicate Valid(d: Direction) {
      out > 0 && into > 0 && ranges > 0 && (d.Both? ==> into == out > ranges)
    }

    predicate Holds(batch: seq<Record>) {
      forall i :: 0 <= i < |batch| ==> Vid(batch[i].src) < out && Vid(UndelSid(batch[i].dst)) < into
    }

    predicate Vertex(d: Direction, v: nat) {
      v < if d.Inward? then into else out
    }
  }

  /** Partitions one batch and picks vertex v's updates from the range v belongs to. */
  method VertexUpdates(d: Direction, batch: seq<Record>, cuts: seq<nat>, counts: Counts, v: nat) returns (ops: seq<Op>)
    requires Cuts(cuts, |batch|) && counts.Valid(d) && counts.Holds(batch) && counts.Vertex(d, v)
    ensures ops == Asked(d, batch, v)
  {
    hide Shr, OpsOf, Records, BitShift, BareShift, Vid, Asked;
    if d.Both? {
      var edges := ClassifyU(batch, cuts, counts.out, counts.ranges);
      ops := OpsOf(edges[Shr(v, BareShift(counts.out, counts.ranges))][..], v);
      StreamAsks(d, batch, BareShift(counts.out, counts.ranges), v);
    } else {
      var outs, ins := ClassifyD(batch, cuts, counts.out, counts.into, counts.ranges);
      if d.Outward? {
        ops := OpsOf(outs[Shr(v, BitShift(counts.out, counts.ranges))][..], v);
        StreamAsks(d, batch, BitShift(counts.out, counts.ranges), v);
      } else {
        ops := OpsOf(ins[Shr(v, BitShift(counts.into, counts.ranges))][..], v);
        StreamAsks(d, batch, BitShift(counts.into, counts.ranges), v);
      }
    }
  }

  method AllUpdates(d: Direction, batches: seq<seq<Record>>, cuts: seq<seq<nat>>, counts: Counts, v: nat)
    returns (ops: seq<seq<Op>>)
    requires |cuts| == |batches| && counts.Valid(d) && counts.Vertex(d, v)
    requires forall b :: 0 <= b < |batches| ==> Cuts(cuts[b], |batches[b]|) && counts.Holds(batches[b])
    ensures ops == AskedInBatches(d, batches, v)
  {
    ops := [];
    for b := 0 to |batches|
      invariant ops == AskedInBatches(d, batches, v)[..b]
    {
      var next := VertexUpdates(d, batches[b], cuts[b], counts, v);
      ops := ops + [next];
    }
  }

  /** From the edge log to a read: whatever the interleaving of writers and archiver, as long as every batch
      fitted, partition each batch with any chunks, archive vertex v's updates, and read v as of snapshot s, one
      of the last `capacity`. The result is exactly the neighbours that the edges appended up to the marker of
      batch s ask for, if they delete no neighbour of v twice in a row. */
  method AppendThenRead(n: nat, q: nat, ghost steps: seq<EdgeLog.Step>, batches: seq<seq<Record>>, cuts: seq<seq<nat>>,
                        d: Direction, counts: Counts, v: nat, capacity: nat, s: nat, ptr: array<Sid>)
    returns (total: nat)
    requires n > 0 && q > 0 && EdgeLog.Legal(EdgeLog.Init(n, q, true), steps)
    requires EdgeLog.BatchesFit(EdgeLog.Init(n, q, true), steps)
    requires batches == BatchesOf(EdgeLog.Init(n, q, true), steps)
    requires |cuts| == |batches| && counts.Valid(d) && counts.Vertex(d, v)
    requires forall b :: 0 <= b < |batches| ==> Cuts(cuts[b], |batches[b]|) && counts.Holds(batches[b])
    requires VertexUnits.Archivable(AskedInBatches(d, batches, v))
    requires capacity >= 2 && s <= |batches| < s + capacity
    requires NoRepeatedDelete(Asked(d, Concat(batches[..s]), v))
    requires |Neighbours(multiset{}, Asked(d, Concat(batches[..s]), v))| <= ptr.Length
    modifies ptr
    ensures var markers := MarkersOf(EdgeLog.Init(n, q, true), steps);
            s <= |markers| && EndOf(markers, s) <= |EdgeLog.Appended(steps)| && total <= ptr.Length &&
            multiset(ptr[..total]) == Neighbours(multiset{}, Asked(d, EdgeLog.Appended(steps)[..EndOf(markers, s)], v))
  {
    hide Neighbours, Live, Asked, WellFormed, LogAfter, ApplyAll, NoRepeatedDelete, BatchesOf, MarkersOf, EdgeLog.Legal,
      Cuts, VertexUnits.Archivable;
    BatchesAreAppended(n, q, steps, s);
    SnapshotSound(d, batches, v, s);
    var ops := AllUpdates(d, batches, cuts, counts, v);
    assert ops[..s] == AskedInBatches(d, batches[..s], v);
    BatchesMeanLog(d, batches[..s], v);
    total := VertexUnits.ArchiveThenRead(ops, capacity, s, ptr);
  }

  /** What the read of a snapshot relies on. */
  lemma SnapshotSound(d: Direction, batches: seq<seq<Record>>, v: nat, s: nat)
    requires s <= |batches| && VertexUnits.Archivable(AskedInBatches(d, batches, v))
    requires NoRepeatedDelete(Asked(d, Concat(batches[..s]), v))
    ensures var log := LogAfter(AskedInBatches(d, batches, v)[..s]);
            WellFormed(log) && Live(log) == Neighbours(multiset{}, Asked(d, Concat(batches[..s]), v))
  {
    hide Neighbours, Live, Asked, WellFormed, LogAfter, ApplyAll, NoRepeatedDelete, VertexUnits.Archivable;
    assert AskedInBatches(d, batches, v)[..s] == AskedInBatches(d, batches[..s], v);
    var ops := Asked(d, Concat(batches[..s]), v);
    LogIgnoresBatches(d, batches[..s], v);
    AskedPlain(d, Concat(batches[..s]), v);
    SizeIsLength(d, batches[..s], v);
    VertexUnits.PrefixArchivable(AskedInBatches(d, batches, v), s);
    WellFormedIff(ops);
    NothingLive();
    LogMeansNeighbours([], ops);
  }

  lemma {:induction false} SizeIsLength(d: Direction, batches: seq<seq<Record>>, v: nat)
    ensures Size(AskedInBatches(d, batches, v)) == |Asked(d, Concat(batches), v)|
  {
    hide Asked;
    if batches == [] {
      NoOps(d, 0, v);
    } else {
      SizeIsLength(d, DropLast(batches), v);
      assert DropLast(AskedInBatches(d, batches, v)) == AskedInBatches(d, DropLast(batches), v);
      AskedConcat(d, Concat(DropLast(batches)), Last(batches), v);
    }
  }
}
