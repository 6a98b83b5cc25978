/** The parallel stable partition of an edge batch by vertex range: count per thread and range, prefix
    sums across threads, then scatter; and the division of ranges among archiving threads. */
module Sharding {
  import opened Multisets
  import opened RecordLog
  import opened VertexLog
  import Sums

  /** An archived edge as the partition writes it: filed under src, which carries the delete mark. */
  datatype Record = Record(src: Sid, dst: Sid)

  datatype Placement = Placement(range: nat, rec: Record)

  // ---------------------------------------------------------------- counting and selecting

  function CountIn(s: seq<Placement>, r: nat): (n: nat)
    ensures n <= |s|
  {
    if s == [] then 0 else CountIn(DropLast(s), r) + if Last(s).range == r then 1 else 0
  }

  /** The records of one range, in batch order. */
  function Select(s: seq<Placement>, r: nat): (q: seq<Record>)
    ensures |q| == CountIn(s, r)
  {
    if s == [] then [] else Select(DropLast(s), r) + if Last(s).range == r then [Last(s).rec] else []
  }

  /** The slot of placement i in its range's buffer. */
  function SlotOf(s: seq<Placement>, i: nat): nat
    requires i < |s|
  {
    CountIn(s[..i], s[i].range)
  }

  lemma CountNext(s: seq<Placement>, i: nat, r: nat)
    requires i < |s|
    ensures CountIn(s[..i + 1], r) == CountIn(s[..i], r) + if s[i].range == r then 1 else 0
  {
    assert DropLast(s[..i + 1]) == s[..i];
  }

  lemma {:induction false} CountGrows(s: seq<Placement>, i: nat, j: nat, r: nat)
    requires i <= j <= |s|
    ensures CountIn(s[..i], r) <= CountIn(s[..j], r)
  {
    if i < j {
      CountGrows(s, i, j - 1, r);
      CountNext(s, j - 1, r);
    }
  }

  lemma {:induction false} CountConcat(a: seq<Placement>, b: seq<Placement>, r: nat)
    ensures CountIn(a + b, r) == CountIn(a, r) + CountIn(b, r)
  {
    if b == [] {
      assert a + b == a;
    } else {
      CountConcat(a, DropLast(b), r);
      assert DropLast(a + b) == a + DropLast(b);
    }
  }

  /** Slots are in range and no two placements share one. */
  lemma SlotInRange(s: seq<Placement>, i: nat)
    requires i < |s|
    ensures SlotOf(s, i) < CountIn(s, s[i].range)
  {
    CountNext(s, i, s[i].range);
    CountGrows(s, i + 1, |s|, s[i].range);
    assert s[..|s|] == s;
  }

  lemma SlotsDiffer(s: seq<Placement>, i: nat, j: nat)
    requires i < j < |s| && s[i].range == s[j].range
    ensures SlotOf(s, i) < SlotOf(s, j)
  {
    CountNext(s, i, s[i].range);
    CountGrows(s, i + 1, j, s[i].range);
  }

  /** Every slot of every buffer has a placement, so with the two lemmas above exactly one. */
  lemma {:induction false} SlotSource(s: seq<Placement>, r: nat, p: nat) returns (i: nat)
    requires p < CountIn(s, r)
    ensures i < |s| && s[i].range == r && SlotOf(s, i) == p
  {
    if p < CountIn(DropLast(s), r) {
      i := SlotSource(DropLast(s), r, p);
      assert DropLast(s)[..i] == s[..i];
    } else {
      i := |s| - 1;
    }
  }

  lemma {:induction false} SelectAt(s: seq<Placement>, i: nat)
    requires i < |s|
    ensures SlotOf(s, i) < CountIn(s, s[i].range) && Select(s, s[i].range)[SlotOf(s, i)] == s[i].rec
  {
    SlotInRange(s, i);
    if i < |s| - 1 {
      SelectAt(DropLast(s), i);
      assert DropLast(s)[..i] == s[..i];
    }
  }

  // ---------------------------------------------------------------- chunks

  /** Each thread takes one contiguous chunk; the same chunks in both passes. */
  predicate Cuts(cuts: seq<nat>, total: nat) {
    && |cuts| >= 2 && cuts[0] == 0 && cuts[|cuts| - 1] == total
    && forall t :: 0 <= t < |cuts| - 1 ==> cuts[t] <= cuts[t + 1]
  }

  lemma {:induction false} CutsBelow(cuts: seq<nat>, total: nat, t: nat)
    requires Cuts(cuts, total) && t < |cuts|
    ensures cuts[t] <= total
    decreases |cuts| - t
  {
    if t < |cuts| - 1 {
      CutsBelow(cuts, total, t + 1);
    }
  }

  lemma {:induction false} ChunkOf(cuts: seq<nat>, total: nat, k: nat, t: nat) returns (u: nat)
    requires Cuts(cuts, total) && t < |cuts| && cuts[t] <= k < total
    ensures u < |cuts| - 1 && cuts[u] <= k < cuts[u + 1]
    decreases |cuts| - t
  {
    if k < cuts[t + 1] {
      u := t;
    } else {
      u := ChunkOf(cuts, total, k, t + 1);
    }
  }

  /** How far every thread is. */
  predicate Progress(cuts: seq<nat>, next: seq<nat>) {
    |cuts| == |next| + 1 && forall t :: 0 <= t < |next| ==> cuts[t] <= next[t] <= cuts[t + 1]
  }

  function Left(cuts: seq<nat>, next: seq<nat>): nat
    requires Progress(cuts, next)
  {
    if next == [] then 0
    else Left(DropLast(cuts), DropLast(next)) + cuts[|next|] - next[|next| - 1]
  }

  lemma ProgressLast(cuts: seq<nat>, next: seq<nat>)
    requires Progress(cuts, next) && next != []
    ensures |cuts| == |next| + 1 && Progress(DropLast(cuts), DropLast(next))
  {
    forall t | 0 <= t < |next| - 1
      ensures DropLast(cuts)[t] <= DropLast(next)[t] <= DropLast(cuts)[t + 1]
    {
      assert cuts[t] <= next[t] <= cuts[t + 1];
    }
  }

  lemma LeftLast(cuts: seq<nat>, next: seq<nat>)
    requires next != [] && Progress(cuts, next) && Progress(DropLast(cuts), DropLast(next))
    ensures Left(cuts, next) == Left(DropLast(cuts), DropLast(next)) + cuts[|next|] - next[|next| - 1]
  {
  }

  lemma ProgressStep(cuts: seq<nat>, next: seq<nat>, t: nat)
    requires Progress(cuts, next) && t < |next| && next[t] < cuts[t + 1]
    ensures Progress(cuts, next[t := next[t] + 1])
  {
  }

  lemma {:induction false} LeftStep(cuts: seq<nat>, next: seq<nat>, t: nat)
    requires Progress(cuts, next) && t < |next| && next[t] < cuts[t + 1]
    ensures Progress(cuts, next[t := next[t] + 1])
    ensures Left(cuts, next[t := next[t] + 1]) < Left(cuts, next)
  {
    hide Left;
    ProgressStep(cuts, next, t);
    LeftStepIn(cuts, next, t);
  }

  lemma {:induction false} LeftStepIn(cuts: seq<nat>, next: seq<nat>, t: nat)
    requires Progress(cuts, next) && t < |next| && next[t] < cuts[t + 1] && Progress(cuts, next[t := next[t] + 1])
    ensures Left(cuts, next[t := next[t] + 1]) < Left(cuts, next)
  {
    hide Left, Progress;
    var n := next[t := next[t] + 1];
    ProgressLast(cuts, next);
    ProgressLast(cuts, n);
    LeftLast(cuts, next);
    LeftLast(cuts, n);
    if t == |next| - 1 {
      assert DropLast(n) == DropLast(next);
    } else {
      assert DropLast(n) == DropLast(next)[t := next[t] + 1];
      LeftStepIn(DropLast(cuts), DropLast(next), t);
    }
  }

  // ---------------------------------------------------------------- the three passes

  /** Row t counts what thread t has passed of its own chunk. */
  ghost predicate Counted(s: seq<Placement>, cuts: seq<nat>, next: seq<nat>, vidRange: array2<nat>)
    reads vidRange
  {
    && Progress(cuts, next) && |next| == vidRange.Length0 && (forall t :: 0 <= t < |next| ==> next[t] <= |s|)
    && forall t, r :: 0 <= t < |next| && 0 <= r < vidRange.Length1 ==> vidRange[t, r] == CountIn(s[cuts[t]..next[t]], r)
  }

  /** Row t counts everything before thread t's position: the slot of its next record in each range. */
  ghost predicate Offsets(s: seq<Placement>, next: seq<nat>, vidRange: array2<nat>)
    reads vidRange
  {
    && |next| == vidRange.Length0 && (forall t :: 0 <= t < |next| ==> next[t] <= |s|)
    && forall t, r :: 0 <= t < |next| && 0 <= r < vidRange.Length1 ==> vidRange[t, r] == CountIn(s[..next[t]], r)
  }

  /** One record counted by thread t. */
  method CountOne(s: seq<Placement>, ghost cuts: seq<nat>, ghost next: seq<nat>, t: nat, k: nat, vidRange: array2<nat>)
    requires Counted(s, cuts, next, vidRange) && t < |next| && k == next[t] < |s| && s[k].range < vidRange.Length1
    requires Progress(cuts, next[t := k + 1])
    modifies vidRange
    ensures Counted(s, cuts, next[t := k + 1], vidRange)
  {
    hide CountIn;
    ChunkNext(s, cuts[t], k);
    var range := s[k].range;
    vidRange[t, range] := vidRange[t, range] + 1;
  }

  /** Every thread counts its chunk; threads take turns in any order. */
  method Estimate(s: seq<Placement>, cuts: seq<nat>, ranges: nat) returns (vidRange: array2<nat>)
    requires Cuts(cuts, |s|) && forall i :: 0 <= i < |s| ==> s[i].range < ranges
    ensures fresh(vidRange) && vidRange.Length1 == ranges && Counted(s, cuts, cuts[1..], vidRange)
  {
    hide CountIn, Counted;
    var threads := |cuts| - 1;
    vidRange := new nat[threads, ranges]((t, r) => 0);
    var next := cuts[..threads];
    AllCutsBelow(cuts, |s|);
    NothingCounted(s, cuts, next, vidRange);
    while exists t :: 0 <= t < threads && next[t] < cuts[t + 1]
      invariant Progress(cuts, next) && Counted(s, cuts, next, vidRange)
      decreases Left(cuts, next)
    {
      var t :| 0 <= t < threads && next[t] < cuts[t + 1];
      LeftStep(cuts, next, t);
      CountOne(s, cuts, next, t, next[t], vidRange);
      next := next[t := next[t] + 1];
    }
    assert next == cuts[1..];
  }

  lemma AllCutsBelow(cuts: seq<nat>, total: nat)
    requires Cuts(cuts, total)
    ensures forall t :: 0 <= t < |cuts| ==> cuts[t] <= total
  {
    forall t | 0 <= t < |cuts| ensures cuts[t] <= total {
      CutsBelow(cuts, total, t);
    }
  }

  lemma NothingCounted(s: seq<Placement>, cuts: seq<nat>, next: seq<nat>, vidRange: array2<nat>)
    requires Cuts(cuts, |s|) && next == cuts[..|cuts| - 1] && forall t :: 0 <= t < |cuts| ==> cuts[t] <= |s|
    requires vidRange.Length0 == |next|
    requires forall t, r :: 0 <= t < |next| && 0 <= r < vidRange.Length1 ==> vidRange[t, r] == 0
    ensures Counted(s, cuts, next, vidRange)
  {
  }

  lemma ChunkNext(s: seq<Placement>, lo: nat, i: nat)
    requires lo <= i < |s|
    ensures forall r: nat :: CountIn(s[lo..i + 1], r) == CountIn(s[lo..i], r) + if s[i].range == r then 1 else 0
  {
    assert DropLast(s[lo..i + 1]) == s[lo..i];
  }

  /** One range's per-thread counts become the threads' starting slots. */
  method SumRange(ghost s: seq<Placement>, ghost cuts: seq<nat>, vidRange: array2<nat>, i: nat) returns (total: nat)
    requires Cuts(cuts, |s|) && vidRange.Length0 == |cuts| - 1 && i < vidRange.Length1
    requires forall t ::
      0 <= t < |cuts| - 1 && cuts[t + 1] <= |s| ==> vidRange[t, i] == CountIn(s[cuts[t]..cuts[t + 1]], i)
    modifies vidRange
    ensures total == CountIn(s, i)
    ensures forall t :: 0 <= t < |cuts| - 1 ==> cuts[t] <= |s| && vidRange[t, i] == CountIn(s[..cuts[t]], i)
    ensures forall t, r ::
      0 <= t < |cuts| - 1 && 0 <= r < vidRange.Length1 && r != i ==> vidRange[t, r] == old(vidRange[t, r])
  {
    hide CountIn;
    AllCutsBelow(cuts, |s|);
    total := 0;
    EmptyCount(s, i);
    for j := 0 to vidRange.Length0
      invariant total == CountIn(s[..cuts[j]], i)
      invariant forall t :: 0 <= t < j ==> vidRange[t, i] == CountIn(s[..cuts[t]], i)
      invariant forall t :: j <= t < |cuts| - 1 ==> vidRange[t, i] == old(vidRange[t, i])
      invariant forall t, r :: 0 <= t < |cuts| - 1 && 0 <= r < vidRange.Length1 && r != i ==>
                  vidRange[t, r] == old(vidRange[t, r])
    {
      var value := vidRange[j, i];
      vidRange[j, i] := total;
      total := total + value;
      CountConcat(s[..cuts[j]], s[cuts[j]..cuts[j + 1]], i);
      assert s[..cuts[j]] + s[cuts[j]..cuts[j + 1]] == s[..cuts[j + 1]];
    }
    assert s[..|s|] == s;
  }

  /** Turns each range's per-thread counts into the threads' starting slots and the range's total. */
  method PrefixSum(ghost s: seq<Placement>, ghost cuts: seq<nat>, vidRange: array2<nat>) returns (counts: seq<nat>)
    requires Cuts(cuts, |s|) && Counted(s, cuts, cuts[1..], vidRange)
    modifies vidRange
    ensures |counts| == vidRange.Length1 && forall r :: 0 <= r < |counts| ==> counts[r] == CountIn(s, r)
    ensures Offsets(s, cuts[..|cuts| - 1], vidRange)
  {
    hide CountIn;
    AllCutsBelow(cuts, |s|);
    counts := [];
    for i := 0 to vidRange.Length1
      invariant |counts| == i && forall r :: 0 <= r < i ==> counts[r] == CountIn(s, r)
      invariant forall t, r :: 0 <= t < |cuts| - 1 && 0 <= r < i ==> vidRange[t, r] == CountIn(s[..cuts[t]], r)
      invariant forall t, r :: 0 <= t < |cuts| - 1 && i <= r < vidRange.Length1 ==>
                  vidRange[t, r] == CountIn(s[cuts[t]..cuts[t + 1]], r)
    {
      var total := SumRange(s, cuts, vidRange, i);
      counts := counts + [total];
    }
  }

  lemma EmptyCount(s: seq<Placement>, r: nat)
    ensures CountIn(s[..0], r) == 0
  {
  }

  /** The buffers of the ranges. */
  ghost predicate Buffers(edges: seq<array<Record>>, counts: seq<nat>) {
    && |edges| == |counts| && (forall r :: 0 <= r < |edges| ==> edges[r].Length == counts[r])
    && forall r, q :: 0 <= r < q < |edges| ==> edges[r] != edges[q]
  }

  ghost predicate Placed(cuts: seq<nat>, next: seq<nat>, k: nat) {
    Progress(cuts, next) && exists t :: 0 <= t < |next| && cuts[t] <= k < next[t]
  }

  /** Everything the threads have passed sits in its slot. */
  ghost predicate Scattered(s: seq<Placement>, cuts: seq<nat>, next: seq<nat>, edges: seq<array<Record>>)
    reads edges
  {
    forall k: nat :: k < |s| && Placed(cuts, next, k) ==>
      s[k].range < |edges| && SlotOf(s, k) < edges[s[k].range].Length && edges[s[k].range][SlotOf(s, k)] == s[k].rec
  }

  method Allocate(counts: seq<nat>) returns (edges: seq<array<Record>>)
    ensures Buffers(edges, counts) && forall r :: 0 <= r < |edges| ==> fresh(edges[r])
  {
    edges := [];
    for r := 0 to |counts|
      invariant Buffers(edges, counts[..r]) && forall q :: 0 <= q < r ==> fresh(edges[q])
    {
      var buf := new Record[counts[r]](_ => Record(0, 0));
      edges := edges + [buf];
    }
    assert counts[..|counts|] == counts;
  }

  /** One record: into its slot, and the thread's offset moves on. */
  method Place(s: seq<Placement>, ghost cuts: seq<nat>, ghost next: seq<nat>, t: nat, k: nat,
               vidRange: array2<nat>, edges: seq<array<Record>>)
    requires Progress(cuts, next) && t < |next| && k == next[t] < |s| && s[k].range < vidRange.Length1 == |edges|
    requires Offsets(s, next, vidRange) && Scattered(s, cuts, next, edges)
    requires Progress(cuts, next[t := k + 1])
    requires forall r, q :: 0 <= r < q < |edges| ==> edges[r] != edges[q]
    requires forall r :: 0 <= r < |edges| ==> edges[r].Length == CountIn(s, r)
    modifies vidRange, edges
    ensures Offsets(s, next[t := k + 1], vidRange) && Scattered(s, cuts, next[t := k + 1], edges)
  {
    hide CountIn;
    ghost var after := next[t := k + 1];
    SlotInRange(s, k);
    forall r: nat ensures CountIn(s[..k + 1], r) == CountIn(s[..k], r) + if s[k].range == r then 1 else 0 {
      CountNext(s, k, r);
    }
    var p := s[k];
    edges[p.range][vidRange[t, p.range]] := p.rec;
    vidRange[t, p.range] := vidRange[t, p.range] + 1;
    forall j: nat | j < |s| && Placed(cuts, after, j)
      ensures s[j].range < |edges| && SlotOf(s, j) < edges[s[j].range].Length
        && edges[s[j].range][SlotOf(s, j)] == s[j].rec
    {
      if j != k {
        StillPlaced(cuts, next, t, j);
        OtherSlot(s, j, k);
      }
    }
  }

  /** Every thread writes its chunk through its own offsets; threads take turns in any order. */
  method Classify(s: seq<Placement>, cuts: seq<nat>, vidRange: array2<nat>, counts: seq<nat>, edges: seq<array<Record>>)
    requires Cuts(cuts, |s|) && vidRange.Length1 == |counts|
    requires forall i :: 0 <= i < |s| ==> s[i].range < |counts|
    requires forall r :: 0 <= r < |counts| ==> counts[r] == CountIn(s, r)
    requires Offsets(s, cuts[..|cuts| - 1], vidRange)
    requires Buffers(edges, counts)
    modifies vidRange, edges
    ensures forall r :: 0 <= r < |edges| ==> edges[r][..] == Select(s, r)
  {
    hide CountIn, Select, Scattered, Offsets, Left, SlotOf;
    var threads := |cuts| - 1;
    var next := cuts[..threads];
    AllCutsBelow(cuts, |s|);
    NothingPlaced(s, cuts, next, edges);
    while exists t :: 0 <= t < threads && next[t] < cuts[t + 1]
      invariant Progress(cuts, next) && Offsets(s, next, vidRange) && Scattered(s, cuts, next, edges)
      decreases Left(cuts, next)
    {
      var t :| 0 <= t < threads && next[t] < cuts[t + 1];
      LeftStep(cuts, next, t);
      Place(s, cuts, next, t, next[t], vidRange, edges);
      next := next[t := next[t] + 1];
    }
    AllPlaced(s, cuts, next, edges, counts);
  }

  lemma NothingPlaced(s: seq<Placement>, cuts: seq<nat>, next: seq<nat>, edges: seq<array<Record>>)
    requires |cuts| == |next| + 1 && next == cuts[..|next|]
    ensures Scattered(s, cuts, next, edges)
  {
  }

  lemma StillPlaced(cuts: seq<nat>, next: seq<nat>, t: nat, j: nat)
    requires t < |next| && Progress(cuts, next) && Placed(cuts, next[t := next[t] + 1], j) && j != next[t]
    ensures Placed(cuts, next, j)
  {
    var after := next[t := next[t] + 1];
    var u :| 0 <= u < |after| && cuts[u] <= j < after[u];
    assert cuts[u] <= j < next[u];
  }

  lemma OtherSlot(s: seq<Placement>, i: nat, j: nat)
    requires i < |s| && j < |s| && i != j
    ensures s[i].range != s[j].range || SlotOf(s, i) != SlotOf(s, j)
  {
    if s[i].range == s[j].range {
      if i < j {
        SlotsDiffer(s, i, j);
      } else {
        SlotsDiffer(s, j, i);
      }
    }
  }

  lemma AllPlaced(s: seq<Placement>, cuts: seq<nat>, next: seq<nat>, edges: seq<array<Record>>, counts: seq<nat>)
    requires Cuts(cuts, |s|) && Progress(cuts, next) && forall t :: 0 <= t < |next| ==> next[t] == cuts[t + 1]
    requires Buffers(edges, counts) && forall r :: 0 <= r < |counts| ==> counts[r] == CountIn(s, r)
    requires Scattered(s, cuts, next, edges)
    ensures forall r :: 0 <= r < |edges| ==> edges[r][..] == Select(s, r)
  {
    forall r | 0 <= r < |edges| ensures edges[r][..] == Select(s, r) {
      forall p | 0 <= p < counts[r] ensures edges[r][p] == Select(s, r)[p] {
        var i := SlotSource(s, r, p);
        var t := ChunkOf(cuts, |s|, i, 0);
        assert cuts[t] <= i < next[t];
        SelectAt(s, i);
      }
    }
  }

  /** Count, prefix sum, scatter: whatever the chunks and the interleaving, range r ends up with exactly
      its records in batch order. */
  method Partition(s: seq<Placement>, cuts: seq<nat>, ranges: nat) returns (counts: seq<nat>, edges: seq<array<Record>>)
    requires Cuts(cuts, |s|) && forall i :: 0 <= i < |s| ==> s[i].range < ranges
    ensures |counts| == |edges| == ranges && forall r :: 0 <= r < ranges ==> fresh(edges[r])
    ensures forall r :: 0 <= r < ranges ==> edges[r][..] == Select(s, r) && counts[r] == edges[r].Length
  {
    var vidRange := Estimate(s, cuts, ranges);
    counts := PrefixSum(s, cuts, vidRange);
    edges := Allocate(counts);
    Classify(s, cuts, vidRange, counts, edges);
  }

  // ---------------------------------------------------------------- nothing lost, nothing doubled

  function Records(s: seq<Placement>): seq<Record> {
    if s == [] then [] else Records(DropLast(s)) + [Last(s).rec]
  }

  /** The buffers of the first n ranges, one behind the other. */
  function Gathered(s: seq<Placement>, n: nat): seq<Record> {
    if n == 0 then [] else Gathered(s, n - 1) + Select(s, n - 1)
  }

  function One(q: Record, present: bool): multiset<Record> {
    if present then multiset{q} else multiset{}
  }

  lemma NoRange(p: Placement)
    ensures One(p.rec, p.range < 0) == multiset{}
  {
  }

  lemma OneSplit(q: Record, range: nat, n: nat)
    requires n > 0
    ensures One(q, range < n - 1) + One(q, range == n - 1) == One(q, range < n)
  {
  }

  lemma SelectNext(s: seq<Placement>, r: nat)
    requires s != []
    ensures multiset(Select(s, r)) == multiset(Select(DropLast(s), r)) + One(Last(s).rec, Last(s).range == r)
  {
  }

  lemma {:induction false} GatheredNext(s: seq<Placement>, n: nat)
    requires s != []
    ensures multiset(Gathered(s, n)) == multiset(Gathered(DropLast(s), n)) + One(Last(s).rec, Last(s).range < n)
  {
    hide Select, One;
    if n == 0 {
      NoRange(Last(s));
    } else {
      var most, last := DropLast(s), Last(s);
      GatheredNext(s, n - 1);
      SelectNext(s, n - 1);
      SumPairs(multiset(Gathered(most, n - 1)), One(last.rec, last.range < n - 1),
              multiset(Select(most, n - 1)), One(last.rec, last.range == n - 1));
      OneSplit(last.rec, last.range, n);
      assert multiset(Gathered(s, n)) == multiset(Gathered(s, n - 1)) + multiset(Select(s, n - 1));
      assert multiset(Gathered(most, n)) == multiset(Gathered(most, n - 1)) + multiset(Select(most, n - 1));
    }
  }

  /** All buffers together hold exactly the batch. */
  lemma {:induction false} PartitionConserves(s: seq<Placement>, ranges: nat)
    requires forall i :: 0 <= i < |s| ==> s[i].range < ranges
    ensures multiset(Gathered(s, ranges)) == multiset(Records(s))
  {
    if s == [] {
      NothingGathered(ranges);
    } else {
      PartitionConserves(DropLast(s), ranges);
      GatheredNext(s, ranges);
    }
  }

  lemma {:induction false} NothingGathered(n: nat)
    ensures Gathered([], n) == []
  {
    if n > 0 {
      NothingGathered(n - 1);
    }
  }

  // ---------------------------------------------------------------- what is placed where

  /** 30-bit vertex ids; the bits above are the type and the delete mark. */
  const VID_LIMIT := 0x4000_0000

  function Vid(x: Sid): nat {
    x % VID_LIMIT
  }

  function RangeOf(x: Sid, shift: nat): nat {
    Shr(Vid(x), shift)
  }

  /** v >> k. */
  function Shr(v: nat, k: nat): nat
    decreases k
  {
    if k == 0 then v else Shr(v / 2, k - 1)
  }

  /** An edge filed under its source. */
  function Out(e: Record, shift: nat): Placement {
    Placement(RangeOf(e.src, shift), Record(e.src, UndelSid(e.dst)))
  }

  /** The same edge filed under its destination; the delete mark moves along. */
  function In(e: Record, shift: nat): Placement {
    var dst := UndelSid(e.dst);
    Placement(RangeOf(dst, shift), if IsDel(e.src) then Record(DelSid(dst), UndelSid(e.src)) else Record(dst, e.src))
  }

  function OutStream(log: seq<Record>, shift: nat): seq<Placement> {
    seq(|log|, i requires 0 <= i < |log| => Out(log[i], shift))
  }

  function InStream(log: seq<Record>, shift: nat): seq<Placement> {
    seq(|log|, i requires 0 <= i < |log| => In(log[i], shift))
  }

  /** Undirected graphs file both directions in the same ranges. */
  function BothStream(log: seq<Record>, shift: nat): seq<Placement> {
    if log == [] then [] else BothStream(DropLast(log), shift) + [Out(Last(log), shift), In(Last(log), shift)]
  }

  /** Every record is in the range of the vertex it is filed under. */
  predicate Filed(s: seq<Placement>, shift: nat) {
    forall i :: 0 <= i < |s| ==> s[i].range == RangeOf(s[i].rec.src, shift)
  }

  lemma PlacementsFiled(e: Record, shift: nat)
    ensures Out(e, shift).range == RangeOf(Out(e, shift).rec.src, shift)
    ensures In(e, shift).range == RangeOf(In(e, shift).rec.src, shift)
    ensures IsDel(In(e, shift).rec.src) == IsDel(e.src) == IsDel(Out(e, shift).rec.src)
    ensures !IsDel(In(e, shift).rec.dst) && !IsDel(Out(e, shift).rec.dst)
  {
    var dst := UndelSid(e.dst);
    assert Vid(DelSid(dst)) == Vid(dst);
  }

  lemma StreamsFiled(log: seq<Record>, shift: nat)
    ensures Filed(OutStream(log, shift), shift) && Filed(InStream(log, shift), shift)
  {
    forall i | 0 <= i < |log|
      ensures Out(log[i], shift).range == RangeOf(Out(log[i], shift).rec.src, shift)
      ensures In(log[i], shift).range == RangeOf(In(log[i], shift).rec.src, shift)
    {
      PlacementsFiled(log[i], shift);
    }
  }

  lemma {:induction false} BothStreamFiled(log: seq<Record>, shift: nat)
    ensures Filed(BothStream(log, shift), shift)
  {
    hide Out, In, RangeOf;
    if log != [] {
      BothStreamFiled(DropLast(log), shift);
      PlacementsFiled(Last(log), shift);
    }
  }

  // ---------------------------------------------------------------- from the batch to one vertex

  /** The updates of vertex v among the records, in order. */
  function OpsOf(q: seq<Record>, v: nat): seq<Op> {
    if q == [] then []
    else OpsOf(DropLast(q), v) + OpIf(Last(q), v)
  }

  function OpIf(e: Record, v: nat): seq<Op> {
    if Vid(e.src) == v then [OpOf(e)] else []
  }

  function OpOf(e: Record): Op {
    if IsDel(e.src) then Del(e.dst) else Add(e.dst)
  }

  lemma OpsNext(q: seq<Record>, e: Record, v: nat)
    ensures OpsOf(q + [e], v) == OpsOf(q, v) + OpIf(e, v)
  {
    assert DropLast(q + [e]) == q;
  }

  /** Partitioning keeps each vertex's updates, all of them and in log order, in the vertex's range. */
  lemma {:induction false} PartitionKeepsOps(s: seq<Placement>, shift: nat, v: nat)
    requires Filed(s, shift)
    ensures OpsOf(Select(s, Shr(v, shift)), v) == OpsOf(Records(s), v)
  {
    hide OpOf, Vid, Shr, OpsOf;
    if s == [] {
      assert Select(s, Shr(v, shift)) == Records(s);
    } else {
      PartitionKeepsOps(DropLast(s), shift, v);
      OpsNext(Select(DropLast(s), Shr(v, shift)), Last(s).rec, v);
      OpsNext(Records(DropLast(s)), Last(s).rec, v);
      assert Last(s).range == RangeOf(Last(s).rec.src, shift);
      if Last(s).range != Shr(v, shift) {
        assert OpIf(Last(s).rec, v) == [];
        assert Select(s, Shr(v, shift)) == Select(DropLast(s), Shr(v, shift));
      }
    }
  }

  // ---------------------------------------------------------------- the shift

  /** Bits up to and including the highest one set, as the word width less the leading zeros. */
  function BitLength(x: nat): nat {
    if x == 0 then 0 else 1 + BitLength(x / 2)
  }

  lemma {:induction false} BitLengthBound(x: nat)
    ensures x < Sums.Pow2(BitLength(x))
  {
    if x > 0 {
      BitLengthBound(x / 2);
    }
  }

  lemma {:induction false} ShrBelow(v: nat, k: nat, n: nat)
    requires v < Sums.Pow2(k) * n
    ensures Shr(v, k) < n
    decreases k
  {
    if k > 0 {
      assert Sums.Pow2(k) * n == 2 * (Sums.Pow2(k - 1) * n);
      ShrBelow(v / 2, k - 1, n);
    }
  }

  /** A right shift: by nothing, by one bit, and by one amount after another. */
  lemma {:induction false} ShiftsAdd(v: nat, j: nat, k: nat)
    ensures Shr(v, 0) == v && Shr(v, 1) == v / 2
    ensures Shr(v, j + k) == Shr(Shr(v, j), k)
    decreases j
  {
    assert Shr(v, 1) == Shr(v / 2, 0);
    if j > 0 {
      ShiftsAdd(v / 2, j - 1, k);
    }
  }

  lemma ShiftSteps(v: nat, k: nat)
    ensures k == 0 ==> Shr(v, k) == v && Sums.Pow2(k) == 1
    ensures k > 0 ==> Shr(v, k) == Shr(v / 2, k - 1) && Sums.Pow2(k) == 2 * Sums.Pow2(k - 1)
  {
  }

  /** It is the quotient by the power of two. */
  lemma {:induction false} ShrIsQuotient(v: nat, k: nat)
    ensures Shr(v, k) * Sums.Pow2(k) <= v < (Shr(v, k) + 1) * Sums.Pow2(k)
    decreases k
  {
    hide Shr, Sums.Pow2;
    if k == 0 {
      ShiftSteps(v, 0);
    } else {
      ShiftSteps(v, k);
      var q, p := Shr(v / 2, k - 1), Sums.Pow2(k - 1);
      ShrIsQuotient(v / 2, k - 1);
      TwiceProduct(q, p);
      TwiceProduct(q + 1, p);
    }
  }

  lemma TwiceProduct(q: nat, p: nat)
    ensures q * (2 * p) == 2 * (q * p)
  {
  }

  /** What is at least n times the power of two is shifted to at least n. */
  lemma {:induction false} ShrAbove(v: nat, k: nat, n: nat)
    requires v >= Sums.Pow2(k) * n
    ensures Shr(v, k) >= n
    decreases k
  {
    if k > 0 {
      assert Sums.Pow2(k) * n == 2 * (Sums.Pow2(k - 1) * n);
      ShrAbove(v / 2, k - 1, n);
    }
  }

  lemma {:induction false} ShrShrinks(v: nat, k: nat)
    ensures Shr(v, k) <= v
    decreases k
  {
    if k > 0 {
      ShrShrinks(v / 2, k - 1);
    }
  }

  function BitShift(vCount: nat, ranges: nat): nat
    requires vCount > 0 && ranges > 0
  {
    var base := (vCount - 1) / ranges;
    BitLength(if base == 0 then ranges else base)
  }

  /** Every vertex below the count falls into one of the ranges. */
  lemma ShiftFits(vCount: nat, ranges: nat, v: nat)
    requires ranges > 0 && v < vCount
    ensures Shr(v, BitShift(vCount, ranges)) < ranges
  {
    hide Shr, Sums.Pow2, BitLength;
    var base := (vCount - 1) / ranges;
    QuotientBelow(vCount - 1, ranges, base);
    if base == 0 {
      ShrShrinks(v, BitLength(ranges));
    } else {
      BitLengthBound(base);
      MulMono(base + 1, Sums.Pow2(BitLength(base)), ranges);
      ShrBelow(v, BitLength(base), ranges);
    }
  }

  /** The shift is the least that fits, when there are more vertices than ranges; otherwise it sends every vertex
      to the first range. */
  lemma ShiftIsLeast(vCount: nat, ranges: nat)
    requires vCount > 0 && ranges > 0
    ensures vCount > ranges ==>
              BitShift(vCount, ranges) > 0 && Shr(vCount - 1, BitShift(vCount, ranges) - 1) >= ranges
    ensures vCount <= ranges ==> BitShift(vCount, ranges) > 0
    ensures vCount <= ranges ==> Sums.Pow2(BitShift(vCount, ranges) - 1) <= ranges < Sums.Pow2(BitShift(vCount, ranges))
    ensures vCount <= ranges ==> forall v: nat :: v < vCount ==> Shr(v, BitShift(vCount, ranges)) == 0
  {
    hide Shr, Sums.Pow2, BitLength;
    var base := (vCount - 1) / ranges;
    BaseQuotient(vCount, ranges);
    var length := BitLength(if base == 0 then ranges else base);
    BitLengthLeast(if base == 0 then ranges else base);
    BitLengthBound(if base == 0 then ranges else base);
    if vCount > ranges {
      MulMono(Sums.Pow2(length - 1), base, ranges);
      ShrAbove(vCount - 1, length - 1, ranges);
    } else {
      forall v: nat | v < vCount ensures Shr(v, length) == 0 {
        ShrBelow(v, length, 1);
      }
    }
  }

  lemma BaseQuotient(vCount: nat, ranges: nat)
    requires vCount > 0 && ranges > 0
    ensures (vCount - 1) / ranges * ranges <= vCount - 1 && ((vCount - 1) / ranges == 0 <==> vCount <= ranges)
  {
    var base := (vCount - 1) / ranges;
    QuotientBelow(vCount - 1, ranges, base);
    assert vCount - 1 == base * ranges + (vCount - 1) % ranges;
    if base > 0 {
      MulMono(1, base, ranges);
    }
  }

  lemma {:induction false} BitLengthLeast(x: nat)
    requires x > 0
    ensures BitLength(x) > 0 && Sums.Pow2(BitLength(x) - 1) <= x
  {
    if x > 1 {
      BitLengthLeast(x / 2);
    }
  }

  lemma QuotientBelow(x: nat, n: nat, q: nat)
    requires n > 0 && q == x / n
    ensures x < (q + 1) * n
  {
    assert x == q * n + x % n;
  }

  lemma MulMono(a: nat, b: nat, c: nat)
    requires a <= b
    ensures a * c <= b * c
  {
  }

  /** The partition of a directed graph's batch: each vertex below the counts finds its own updates, all
      of them and in log order, in the one range it belongs to. */
  method ClassifyD(log: seq<Record>, cuts: seq<nat>, vCount: nat, vCountIn: nat, ranges: nat)
    returns (outs: seq<array<Record>>, ins: seq<array<Record>>)
    requires Cuts(cuts, |log|) && ranges > 0 && vCount > 0 && vCountIn > 0
    requires forall i :: 0 <= i < |log| ==> Vid(log[i].src) < vCount && Vid(UndelSid(log[i].dst)) < vCountIn
    ensures |outs| == |ins| == ranges
    ensures forall v: nat :: v < vCount ==>
              var r := Shr(v, BitShift(vCount, ranges));
              r < ranges && OpsOf(outs[r][..], v) == OpsOf(Records(OutStream(log, BitShift(vCount, ranges))), v)
    ensures forall v: nat :: v < vCountIn ==>
              var r := Shr(v, BitShift(vCountIn, ranges));
              r < ranges && OpsOf(ins[r][..], v) == OpsOf(Records(InStream(log, BitShift(vCountIn, ranges))), v)
  {
    hide Shr, OpsOf, Records, BitShift, Vid, Select;
    var shift, shiftIn := BitShift(vCount, ranges), BitShift(vCountIn, ranges);
    var s, sIn := OutStream(log, shift), InStream(log, shiftIn);
    StreamsFiled(log, shift);
    StreamsFiled(log, shiftIn);
    forall i | 0 <= i < |log| ensures s[i].range < ranges && sIn[i].range < ranges {
      ShiftFits(vCount, ranges, Vid(log[i].src));
      ShiftFits(vCountIn, ranges, Vid(UndelSid(log[i].dst)));
    }
    var counts, countsIn;
    counts, outs := Partition(s, cuts, ranges);
    countsIn, ins := Partition(sIn, cuts, ranges);
    forall v: nat | v < vCount
      ensures Shr(v, shift) < ranges && OpsOf(outs[Shr(v, shift)][..], v) == OpsOf(Records(s), v)
    {
      ShiftFits(vCount, ranges, v);
      PartitionKeepsOps(s, shift, v);
    }
    forall v: nat | v < vCountIn
      ensures Shr(v, shiftIn) < ranges && OpsOf(ins[Shr(v, shiftIn)][..], v) == OpsOf(Records(sIn), v)
    {
      ShiftFits(vCountIn, ranges, v);
      PartitionKeepsOps(sIn, shiftIn, v);
    }
  }

  /** The shift without the test for a zero base. */
  function BareShift(vCount: nat, ranges: nat): nat
    requires vCount > ranges > 0
  {
    BitLength((vCount - 1) / ranges)
  }

  /** Without that test the shift is the word width less the leading zeros of a base that
      is zero, which have no defined count, exactly for vertex counts up to the range count. */
  lemma BaseIsZero(vCount: nat, ranges: nat)
    requires vCount > 0 && ranges > 0
    ensures (vCount - 1) / ranges == 0 <==> vCount <= ranges
    ensures vCount > ranges ==> BitShift(vCount, ranges) == BareShift(vCount, ranges)
  {
    BaseQuotient(vCount, ranges);
  }

  /** A chunk of edges is a chunk of twice as many records. */
  lemma CutsDoubled(cuts: seq<nat>, total: nat)
    requires Cuts(cuts, total)
    ensures Cuts(Doubled(cuts), 2 * total)
  {
  }

  function Doubled(cuts: seq<nat>): seq<nat> {
    seq(|cuts|, t requires 0 <= t < |cuts| => 2 * cuts[t])
  }

  lemma {:induction false} BothStreamBounded(log: seq<Record>, shift: nat, ranges: nat)
    requires forall i :: 0 <= i < |log| ==> RangeOf(log[i].src, shift) < ranges
    requires forall i :: 0 <= i < |log| ==> RangeOf(UndelSid(log[i].dst), shift) < ranges
    ensures |BothStream(log, shift)| == 2 * |log|
    ensures forall i :: 0 <= i < |BothStream(log, shift)| ==> BothStream(log, shift)[i].range < ranges
  {
    hide RangeOf;
    if log != [] {
      BothStreamBounded(DropLast(log), shift, ranges);
      var out, into := Out(Last(log), shift), In(Last(log), shift);
      assert out.range < ranges && into.range < ranges;
    }
  }

  /** The partition of an undirected graph's batch: both directions share counters and ranges. The code has
      no test for a zero base here, so there must be more vertices than ranges. */
  method ClassifyU(log: seq<Record>, cuts: seq<nat>, vCount: nat, ranges: nat) returns (edges: seq<array<Record>>)
    requires Cuts(cuts, |log|) && ranges > 0 && vCount > ranges
    requires forall i :: 0 <= i < |log| ==> Vid(log[i].src) < vCount && Vid(UndelSid(log[i].dst)) < vCount
    ensures |edges| == ranges
    ensures forall v: nat :: v < vCount ==>
              var r := Shr(v, BareShift(vCount, ranges));
              r < ranges && OpsOf(edges[r][..], v) == OpsOf(Records(BothStream(log, BareShift(vCount, ranges))), v)
  {
    hide Shr, OpsOf, Records, BitShift, BareShift, Vid, Select;
    var shift := BareShift(vCount, ranges);
    BaseIsZero(vCount, ranges);
    forall i | 0 <= i < |log|
      ensures RangeOf(log[i].src, shift) < ranges && RangeOf(UndelSid(log[i].dst), shift) < ranges
    {
      ShiftFits(vCount, ranges, Vid(log[i].src));
      ShiftFits(vCount, ranges, Vid(UndelSid(log[i].dst)));
    }
    BothStreamBounded(log, shift, ranges);
    BothStreamFiled(log, shift);
    CutsDoubled(cuts, |log|);
    var s := BothStream(log, shift);
    var counts;
    counts, edges := Partition(s, Doubled(cuts), ranges);
    forall v: nat | v < vCount
      ensures Shr(v, shift) < ranges && OpsOf(edges[Shr(v, shift)][..], v) == OpsOf(Records(s), v)
    {
      ShiftFits(vCount, ranges, v);
      PartitionKeepsOps(s, shift, v);
    }
  }

  // ---------------------------------------------------------------- ranges to threads

  function StartOf(ends: seq<nat>, t: nat): nat
    requires t < |ends|
  {
    if t == 0 then 0 else ends[t - 1]
  }

  /** Thread t archives range r. */
  predicate Owns(ends: seq<nat>, t: nat, r: nat) {
    t < |ends| && StartOf(ends, t) <= r < ends[t]
  }

  /** The first j ends rise to the last range, the rest are still zero. */
  predicate Divided(ends: seq<nat>, j: nat, ranges: nat) {
    && 0 < j <= |ends| && ends[j - 1] == ranges
    && (forall t, u :: 0 <= t < u < j ==> ends[t] < ends[u])
    && (forall t :: 0 <= t < j ==> 0 < ends[t])
    && (forall t :: j <= t < |ends| ==> ends[t] == 0)
  }

  /** The records of the ranges from a up to b. */
  function Work(counts: seq<nat>, a: nat, b: nat): nat
    requires a <= b <= |counts|
  {
    Sums.SumSeq(counts[a..b])
  }

  /** An interval from a may go on over range i: it has no work yet, or i's fits as well. */
  predicate GoesOn(counts: seq<nat>, equalWork: nat, a: nat, i: nat)
    requires a <= i < |counts|
  {
    Work(counts, a, i) == 0 || Work(counts, a, i) + counts[i] <= equalWork
  }

  /** The interval from a goes on at least up to b. */
  predicate Unbroken(counts: seq<nat>, equalWork: nat, a: nat, b: nat) {
    a < b <= |counts| && forall i :: a < i < b ==> GoesOn(counts, equalWork, a, i)
  }

  /** It ends at b and not before. */
  predicate CutAt(counts: seq<nat>, equalWork: nat, a: nat, b: nat) {
    Unbroken(counts, equalWork, a, b) && b < |counts| && !GoesOn(counts, equalWork, a, b)
  }

  /** The first j intervals are cut where their work is enough; the last would be cut at `cut`, which is the last
      range's end unless the threads have run out. */
  predicate Balanced(counts: seq<nat>, equalWork: nat, ends: seq<nat>, j: nat, cut: nat) {
    && 0 < j <= |ends|
    && (forall t :: 0 <= t < j - 1 ==> CutAt(counts, equalWork, StartOf(ends, t), ends[t]))
    && if cut == |counts| then Unbroken(counts, equalWork, StartOf(ends, j - 1), cut)
       else j == |ends| && CutAt(counts, equalWork, StartOf(ends, j - 1), cut)
  }

  lemma WorkNext(counts: seq<nat>, a: nat, i: nat)
    requires a <= i < |counts|
    ensures Work(counts, a, i + 1) == Work(counts, a, i) + counts[i]
  {
    assert counts[a..i + 1][..i - a] == counts[a..i];
  }

  /** The cuts made so far. */
  predicate CutsMade(counts: seq<nat>, equalWork: nat, cuts: seq<nat>) {
    forall t :: 0 <= t < |cuts| ==> CutAt(counts, equalWork, StartOf(cuts, t), cuts[t])
  }

  /** Where the interval that is open starts. */
  function OpenStart(cuts: seq<nat>): nat {
    if cuts == [] then 0 else Last(cuts)
  }

  lemma CutsNext(counts: seq<nat>, equalWork: nat, cuts: seq<nat>, i: nat)
    requires CutsMade(counts, equalWork, cuts) && CutAt(counts, equalWork, OpenStart(cuts), i)
    ensures CutsMade(counts, equalWork, cuts + [i])
  {
    hide CutAt;
    forall t | 0 <= t < |cuts| + 1 ensures CutAt(counts, equalWork, StartOf(cuts + [i], t), (cuts + [i])[t]) {
      if t < |cuts| {
        assert StartOf(cuts + [i], t) == StartOf(cuts, t);
      }
    }
  }

  lemma OneCut(counts: seq<nat>, equalWork: nat, cuts: seq<nat>, t: nat)
    requires CutsMade(counts, equalWork, cuts) && t < |cuts|
    ensures StartOf(cuts, t) < cuts[t] < |counts| && CutAt(counts, equalWork, StartOf(cuts, t), cuts[t])
  {
    hide GoesOn;
  }

  /** Cuts rise. */
  lemma {:induction false} CutsRise(counts: seq<nat>, equalWork: nat, cuts: seq<nat>, u: nat)
    requires CutsMade(counts, equalWork, cuts) && u < |cuts|
    ensures 0 < cuts[u] < |counts| && forall t :: 0 <= t < u ==> cuts[t] < cuts[u]
  {
    hide CutsMade, CutAt;
    OneCut(counts, equalWork, cuts, u);
    if u > 0 {
      CutsRise(counts, equalWork, cuts, u - 1);
    }
  }

  /** The ends in the end: the last cut moved to the last range when the threads ran out, or one more end. */
  predicate Ended(counts: seq<nat>, cuts: seq<nat>, ends: seq<nat>, j: nat) {
    && 0 < j <= |ends| && ends[j - 1] == |counts| && (j == |cuts| + 1 || j == |cuts| == |ends|)
    && (forall t :: 0 <= t < j - 1 ==> ends[t] == cuts[t]) && forall t :: j <= t < |ends| ==> ends[t] == 0
  }

  lemma EndsDivide(counts: seq<nat>, equalWork: nat, cuts: seq<nat>, ends: seq<nat>, j: nat)
    requires CutsMade(counts, equalWork, cuts) && Ended(counts, cuts, ends, j) && |counts| > 0
    ensures Divided(ends, j, |counts|)
  {
    hide CutsMade, CutAt, StartOf;
    forall t, u | 0 <= t < u < j ensures ends[t] < ends[u] {
      CutsRise(counts, equalWork, cuts, t);
      if u < j - 1 {
        CutsRise(counts, equalWork, cuts, u);
      }
    }
    forall t | 0 <= t < j ensures 0 < ends[t] {
      if t < j - 1 {
        CutsRise(counts, equalWork, cuts, t);
      }
    }
  }

  lemma StartsAgree(counts: seq<nat>, cuts: seq<nat>, ends: seq<nat>, j: nat, t: nat)
    requires Ended(counts, cuts, ends, j) && t < j
    ensures StartOf(ends, t) == if t < |cuts| then StartOf(cuts, t) else OpenStart(cuts)
  {
  }

  lemma EndsBalance(counts: seq<nat>, equalWork: nat, cuts: seq<nat>, ends: seq<nat>, j: nat, cut: nat)
    requires CutsMade(counts, equalWork, cuts) && Ended(counts, cuts, ends, j)
    requires if j == |cuts| then cut == Last(cuts)
             else cut == |counts| && Unbroken(counts, equalWork, OpenStart(cuts), cut)
    ensures Balanced(counts, equalWork, ends, j, cut)
  {
    hide CutsMade, CutAt, Unbroken, StartOf;
    forall t | 0 <= t < j - 1 ensures CutAt(counts, equalWork, StartOf(ends, t), ends[t]) {
      OneCut(counts, equalWork, cuts, t);
      StartsAgree(counts, cuts, ends, j, t);
    }
    StartsAgree(counts, cuts, ends, j, j - 1);
    if j == |cuts| {
      OneCut(counts, equalWork, cuts, j - 1);
    }
  }

  /** Cuts the ranges into one interval per thread of roughly equal work. */
  method WorkDivision(counts: seq<nat>, rangeEnd: array<nat>, equalWork: nat) returns (ghost used: nat, ghost cut: nat)
    requires |counts| > 0 && rangeEnd.Length > 0 && forall t :: 0 <= t < rangeEnd.Length ==> rangeEnd[t] == 0
    modifies rangeEnd
    ensures Divided(rangeEnd[..], used, |counts|) && Balanced(counts, equalWork, rangeEnd[..], used, cut)
  {
    hide Work, GoesOn, CutsMade, Unbroken, CutAt, Divided, Balanced;
    var myPortion := counts[0];
    var j := 0;
    var i := 1;
    ghost var cuts: seq<nat> := [];
    DivisionStarts(counts, equalWork);
    while i < |counts| && j < rangeEnd.Length
      invariant 1 <= i <= |counts| && j == |cuts| <= rangeEnd.Length && rangeEnd[..j] == cuts
      invariant forall t :: j <= t < rangeEnd.Length ==> rangeEnd[t] == 0
      invariant OpenStart(cuts) < i && CutsMade(counts, equalWork, cuts)
      invariant Unbroken(counts, equalWork, OpenStart(cuts), i) && myPortion == Work(counts, OpenStart(cuts), i)
    {
      var value := counts[i];
      DecideCut(counts, equalWork, OpenStart(cuts), i);
      if myPortion + value > equalWork && myPortion != 0 {
        rangeEnd[j] := i;
        j := j + 1;
        myPortion := 0;
        CutsNext(counts, equalWork, cuts, i);
        cuts := cuts + [i];
        WorkStarts(counts, i);
      }
      WorkNext(counts, OpenStart(cuts), i);
      myPortion := myPortion + value;
      i := i + 1;
    }
    if j == rangeEnd.Length {
      cut := rangeEnd[j - 1];
      rangeEnd[j - 1] := |counts|;
    } else {
      cut := |counts|;
      rangeEnd[j] := |counts|;
      j := j + 1;
    }
    used := j;
    EndsDivide(counts, equalWork, cuts, rangeEnd[..], used);
    EndsBalance(counts, equalWork, cuts, rangeEnd[..], used, cut);
  }

  lemma DivisionStarts(counts: seq<nat>, equalWork: nat)
    requires counts != []
    ensures CutsMade(counts, equalWork, []) && Unbroken(counts, equalWork, 0, 1) && Work(counts, 0, 1) == counts[0]
  {
    WorkNext(counts, 0, 0);
  }

  lemma WorkStarts(counts: seq<nat>, a: nat)
    requires a < |counts|
    ensures Work(counts, a, a) == 0
  {
  }

  /** The test of the loop: whether the interval is cut before range i. */
  lemma DecideCut(counts: seq<nat>, equalWork: nat, a: nat, i: nat)
    requires Unbroken(counts, equalWork, a, i) && i < |counts|
    ensures Work(counts, a, i) + counts[i] > equalWork && Work(counts, a, i) != 0 ==>
              CutAt(counts, equalWork, a, i) && Unbroken(counts, equalWork, i, i + 1)
    ensures !(Work(counts, a, i) + counts[i] > equalWork && Work(counts, a, i) != 0) ==>
              Unbroken(counts, equalWork, a, i + 1)
  {
    hide Work;
  }

  /** Every range has exactly one owner, so every vertex's records are archived by one thread. */
  lemma OneOwner(ends: seq<nat>, j: nat, ranges: nat, r: nat) returns (t: nat)
    requires Divided(ends, j, ranges) && r < ranges
    ensures Owns(ends, t, r) && forall u: nat :: Owns(ends, u, r) ==> u == t
  {
    t := FirstAbove(ends, j, ranges, r, 0);
    forall w | t <= w < j ensures ends[t] <= ends[w] {
      if t < w {
        assert ends[t] < ends[w];
      }
    }
    forall u: nat | Owns(ends, u, r) ensures u == t {
    }
  }

  lemma {:induction false} FirstAbove(ends: seq<nat>, j: nat, ranges: nat, r: nat, from: nat) returns (t: nat)
    requires Divided(ends, j, ranges) && r < ranges && from < j
    requires forall u :: 0 <= u < from ==> ends[u] <= r
    ensures t < j && r < ends[t] && forall u :: 0 <= u < t ==> ends[u] <= r
    decreases j - from
  {
    if r < ends[from] {
      t := from;
    } else {
      t := FirstAbove(ends, j, ranges, r, from + 1);
    }
  }

  /** The in-edges are handed out in the opposite thread order. */
  predicate OwnsIn(ends: seq<nat>, t: nat, r: nat) {
    t < |ends| && Owns(ends, |ends| - 1 - t, r)
  }

  lemma OneOwnerIn(ends: seq<nat>, j: nat, ranges: nat, r: nat) returns (t: nat)
    requires Divided(ends, j, ranges) && r < ranges
    ensures OwnsIn(ends, t, r) && forall u: nat :: OwnsIn(ends, u, r) ==> u == t
  {
    var o := OneOwner(ends, j, ranges, r);
    t := |ends| - 1 - o;
  }
}
