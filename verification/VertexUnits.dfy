/** One vertex of the versioned adjacency store: the record log in chunks, the degree snapshots on top,
    batches archived into both, and neighbours read back as of any kept snapshot. */
module VertexUnits {
  import opened RecordLog
  import opened HoleReading
  import opened SnapChains
  import opened EdgeChains
  import opened VertexLog

  lemma LatestUnique(r: seq<Sid>, x: Sid, pos: nat)
    requires LatestAt(r, x, pos)
    ensures x in r && Latest(r, x) == pos
  {
    forall q | pos < q < |r| ensures r[q] != x {
      assert r[pos + 1..][q - pos - 1] == r[q];
    }
    var p := Latest(r, x);
    forall q | p < q < |r| ensures r[q] != x {
      assert r[p + 1..][q - p - 1] == r[q];
    }
  }

  /** Every entry of a chain is the degree of its own batch. */
  lemma EntryExact(c: seq<Snap>, hist: seq<Degree>, capacity: nat, i: nat)
    requires Faithful(c, hist, capacity) && i < |c|
    ensures c[i].degree == hist[c[i].id]
  {
    LookupOwn(c, i);
  }

  lemma {:induction false} LookupOwn(c: seq<Snap>, i: nat)
    requires Descending(c) && i < |c|
    ensures Lookup(c, c[i].id) == c[i].degree
  {
    if i > 0 {
      LookupOwn(c[1..], i - 1);
    }
  }

  /** What the unit has been through: the log and the degree at the end of every batch, and the first
      batch whose log is still a prefix of the current one. */
  datatype Story = Story(logs: seq<seq<Sid>>, hist: seq<Degree>, base: nat) {
    ghost predicate Valid() {
      && |logs| == |hist| && base < |logs|
      && forall s :: base <= s < |logs| ==> hist[s] == DegreeOf(logs[s]) && logs[s] <= logs[|logs| - 1]
    }

    ghost function Now(): seq<Sid>
      requires logs != []
    {
      logs[|logs| - 1]
    }

    /** The degrees once a batch is counted and not yet logged. */
    ghost function CountedAhead(ops: seq<Op>): seq<Degree>
      requires |hist| == |logs| > 0
    {
      hist + [Ahead(Now(), ops)]
    }

    /** One more batch, after which the log is r. */
    ghost function Extend(r: seq<Sid>): Story {
      Story(logs + [r], hist + [DegreeOf(r)], base)
    }
  }

  /** What a new batch may rely on. */
  lemma BatchFacts(story: Story, c: seq<Snap>, capacity: nat, ops: seq<Op>)
    requires story.Valid() && capacity >= 2 && Faithful(c, story.hist, capacity)
    requires c != [] ==> c[0].id >= story.base
    ensures |story.hist| == |story.logs| > story.base && story.hist[|story.hist| - 1] == DegreeOf(story.Now())
    ensures c != [] ==> c[0].id < |story.logs| && c[0].degree.Total() <= |story.Now()|
    ensures story.Extend(ApplyAll(story.Now(), ops)).Valid()
  {
    hide Lookup, Deletes;
    if c != [] {
      EntryExact(c, story.hist, capacity, 0);
    }
    LogGrows(story.Now(), ops);
  }

  /** Replacing the counts ahead by what was logged. */
  lemma BatchLogged(story: Story, c: seq<Snap>, capacity: nat, ahead: Degree, r: seq<Sid>)
    requires c != [] && c[0].id == |story.hist| > 0
    requires Faithful(c, story.hist + [ahead], capacity)
    ensures Faithful(c[0 := Snap(c[0].id, DegreeOf(r))], story.Extend(r).hist, capacity)
  {
    hide Faithful;
    var hist := story.hist + [ahead];
    CountKeeps(c, hist, capacity, DegreeOf(r));
    assert hist[|hist| - 1 := DegreeOf(r)] == story.Extend(r).hist;
  }

  /** Before the first pass the new batch has the degree of the one before. */
  lemma CountStarts(story: Story, c: seq<Snap>, capacity: nat, ops: seq<Op>)
    requires story.Valid() && capacity >= 2 && Faithful(c, story.hist, capacity)
    requires c != [] ==> c[0].id >= story.base
    ensures |story.hist| == |story.logs| > story.base && story.Extend(ApplyAll(story.Now(), ops)).Valid()
    ensures c != [] ==> c[0].id < |story.logs| && c[0].degree.Total() <= |story.Now()|
    ensures var hist := story.hist + [story.hist[|story.hist| - 1]];
            Faithful(c, hist, capacity) && HistAfter(hist, |story.hist|, ops) == story.CountedAhead(ops)
  {
    hide Faithful, Story.Valid, ApplyAll, HistAfter;
    BatchFacts(story, c, capacity, ops);
    NextBatch(c, story.hist, capacity);
    CountedHist(story, ops);
  }

  /** After it the newest answer is the degree counted ahead. */
  lemma CountEnds(story: Story, c: seq<Snap>, now: seq<Snap>, capacity: nat, ops: seq<Op>)
    requires |story.hist| == |story.logs| > 0 && capacity >= 2 && Faithful(now, story.CountedAhead(ops), capacity)
    requires c != [] ==> c[0].id < |story.logs| && c[0].degree.Total() <= |story.Now()|
    requires if ops == [] then now == c else Opening(c, now, |story.logs|)
    ensures ops != [] ==> now != [] && now[0] == Snap(|story.logs|, Ahead(story.Now(), ops))
    ensures ops != [] && |now| > 1 ==> now[1].degree.Total() <= |story.Now()|
  {
    hide Faithful, Ahead;
    NewestAnswers(now, story.CountedAhead(ops), capacity);
  }

  lemma NothingToLog(story: Story)
    requires |story.hist| == |story.logs| > 0
    ensures ApplyAll(story.Now(), []) == story.Now() && story.CountedAhead([]) == story.Extend(story.Now()).hist
  {
  }

  lemma NothingArchived(capacity: nat)
    ensures var story := Story([[]], [ZERO], 0);
            story.Valid() && story.Now() == [] && Faithful([], story.hist, capacity)
  {
  }

  /** now is was with the blob of batch id in front; what was in front before is next, if anything is. */
  predicate Opening(was: seq<Snap>, now: seq<Snap>, id: nat) {
    && now != [] && now[0].id == id
    && (|now| > 1 && (was == [] || was[0].id < id) ==> was != [] && now[1] == was[0])
  }

  class VertexUnit {
    const snaps: SnapChain
    const edges: EdgeChain
    const capacity: nat
    ghost var story: Story

    ghost predicate Parts()
      reads this, snaps, snaps.blobs, edges, edges.repr
    {
      && snaps.Valid() && edges.Valid() && edges.Dense() && capacity >= 2
      && this as object !in edges.repr && snaps as object !in edges.repr
      && forall i :: 0 <= i < |snaps.blobs| ==> snaps.blobs[i] as object !in edges.repr
    }

    /** Chunks hold the current log; the chain answers for the kept batches. */
    ghost predicate Valid()
      reads this, snaps, snaps.blobs, edges, edges.repr
    {
      && Parts() && story.Valid()
      && edges.Records() == story.Now()
      && Faithful(snaps.Snaps(), story.hist, capacity)
      && (snaps.Snaps() != [] ==> snaps.Snaps()[0].id >= story.base)
    }

    ghost function Repr(): set<object>
      reads this, snaps, edges
    {
      {this, snaps} + (set b | b in snaps.blobs) + edges.repr
    }

    constructor (count: nat)
      requires count >= 2
      ensures Valid() && capacity == count && story == Story([[]], [ZERO], 0) && fresh(Repr())
    {
      hide EdgeChain.Valid, EdgeChain.Dense, SnapChain.Valid, Faithful, Story.Valid;
      snaps := new SnapChain();
      edges := new EdgeChain();
      capacity := count;
      story := Story([[]], [ZERO], 0);
      new;
      NothingArchived(count);
    }

    // -------------------------------------------------------------- counting the batch

    /** Counts one record in the blob of this batch. */
    method CountOne(op: Op, snapId: nat, ghost hist: seq<Degree>)
      requires Parts() && |hist| == snapId + 1 && Faithful(snaps.Snaps(), hist, capacity)
      modifies snaps, snaps.blobs
      ensures Parts() && fresh((set b | b in snaps.blobs) - old(set b | b in snaps.blobs))
      ensures snaps.Snaps() != [] && snaps.Snaps()[0].id == snapId
      ensures Faithful(snaps.Snaps(), hist[snapId := Counted(hist[snapId], op.Add?)], capacity)
      ensures |snaps.Snaps()| > 1 ==>
        var was := old(snaps.Snaps());
        was != [] && if was[0].id < snapId then snaps.Snaps()[1] == was[0] else |was| > 1 && snaps.Snaps()[1] == was[1]
    {
      hide Faithful, EdgeChain.Valid, EdgeChain.Dense, SnapChain.Valid;
      snaps.Count(op.Add?, snapId, capacity, hist);
    }

    /** The first pass over a batch. */
    method CountAll(ops: seq<Op>, snapId: nat, ghost hist: seq<Degree>)
      requires Parts() && |hist| == snapId + 1 && Faithful(snaps.Snaps(), hist, capacity)
      modifies snaps, snaps.blobs
      ensures Parts() && fresh((set b | b in snaps.blobs) - old(set b | b in snaps.blobs))
      ensures if ops == [] then snaps.Snaps() == old(snaps.Snaps())
              else Opening(old(snaps.Snaps()), snaps.Snaps(), snapId)
      ensures Faithful(snaps.Snaps(), HistAfter(hist, snapId, ops), capacity)
    {
      hide Faithful, EdgeChain.Valid, EdgeChain.Dense, SnapChain.Valid, HistAfter, Counted;
      ghost var was := snaps.Snaps();
      NothingCounted(hist, snapId, ops);
      for i := 0 to |ops|
        invariant Parts() && fresh((set b | b in snaps.blobs) - old(set b | b in snaps.blobs))
        invariant if i == 0 then snaps.Snaps() == was else Opening(was, snaps.Snaps(), snapId)
        invariant Faithful(snaps.Snaps(), HistAfter(hist, snapId, ops[..i]), capacity)
      {
        HistNext(hist, snapId, ops, i);
        CountOne(ops[i], snapId, HistAfter(hist, snapId, ops[..i]));
      }
      assert ops[..|ops|] == ops;
    }

    // -------------------------------------------------------------- logging the batch

    /** The room asked for when a chunk is opened: what this batch counts. */
    method Room() returns (n: nat)
      requires Parts() && snaps.blobs != []
      requires |snaps.blobs| > 1 ==> snaps.Snaps()[1].degree.Total() < snaps.Snaps()[0].degree.Total()
      requires snaps.Snaps()[0].degree.Total() > 0
      ensures n > 0
      ensures n == snaps.Snaps()[0].degree.Total() - if |snaps.blobs| > 1 then snaps.Snaps()[1].degree.Total() else 0
    {
      hide EdgeChain.Valid, EdgeChain.Dense;
      snaps.NewestFacts();
      var curr := snaps.snapBlob;
      n := curr.GetDegree().Total();
      if curr.prev != null {
        n := n - curr.prev.GetDegree().Total();
      }
    }

    /** Logs one record, or uncounts a delete that finds nothing. */
    method LogOne(op: Op, ghost rest: seq<Op>)
      requires Parts() && snaps.blobs != [] && !IsDel(op.dst) && |edges.Records()| <= DEL_MASK
      requires op.Del? ==> edges.chunks != []
      requires snaps.Snaps()[0].degree == Ahead(edges.Records(), [op] + rest)
      requires |snaps.blobs| > 1 ==> snaps.Snaps()[1].degree.Total() <= |edges.Records()|
      modifies edges, edges.repr, snaps.blobs[0]
      ensures Parts() && snaps.blobs == old(snaps.blobs) && fresh(edges.repr - old(edges.repr))
      ensures edges.Records() == Apply(old(edges.Records()), op) && edges.chunks != []
      ensures if old(edges.Free()) > 0 || |edges.chunks| == old(|edges.chunks|)
              then |edges.chunks| == old(|edges.chunks|) && edges.Free() >= old(edges.Free()) - 1
              else |edges.chunks| == old(|edges.chunks|) + 1 && edges.Free() >= |rest|
      ensures snaps.Snaps() == old(snaps.Snaps())[0 := Snap(old(snaps.Snaps())[0].id, Ahead(edges.Records(), rest))]
    {
      hide EdgeChain.Valid, EdgeChain.Dense, SnapChain.Valid, EdgeChain.Records, Apply, Ahead, Deletes, IsDel;
      ghost var r := edges.Records();
      snaps.NewestFacts();
      assert ([op] + rest)[1..] == rest;
      AheadStep(r, [op] + rest);
      var found, sid := RecordFor(op);
      if found {
        LogRecord(sid);
      } else {
        var curr := snaps.snapBlob;
        snaps.SetNewest(curr, Degree(curr.addCount, curr.delCount - 1));
      }
    }

    /** Appends a record, opening a chunk if the last one is full. */
    method LogRecord(sid: Sid)
      requires Parts() && snaps.blobs != [] && snaps.Snaps()[0].degree.Total() > 0
      requires |snaps.blobs| > 1 ==> snaps.Snaps()[1].degree.Total() < snaps.Snaps()[0].degree.Total()
      modifies edges, edges.repr
      ensures Parts() && fresh(edges.repr - old(edges.repr)) && edges.chunks != []
      ensures edges.Records() == old(edges.Records()) + [sid] && snaps.Snaps() == old(snaps.Snaps())
      ensures if old(edges.Free()) > 0
              then |edges.chunks| == old(|edges.chunks|) && edges.Free() == old(edges.Free()) - 1
              else |edges.chunks| == old(|edges.chunks|) + 1
                   && edges.Free() >= snaps.Snaps()[0].degree.Total() - 1
                                      - if |snaps.blobs| > 1 then snaps.Snaps()[1].degree.Total() else 0
    {
      hide EdgeChain.Valid, EdgeChain.Dense, SnapChain.Valid, EdgeChain.Records;
      var room := Room();
      var spare: nat :| spare >= 0;
      edges.AddNebr(sid, room, spare);
    }

    /** The record to log: the id itself, or the marked position of the insert it deletes, if any. */
    method RecordFor(op: Op) returns (found: bool, sid: Sid)
      requires edges.Valid() && (op.Del? ==> edges.chunks != []) && |edges.Records()| <= DEL_MASK
      ensures op.Add? ==> found
      ensures Apply(edges.Records(), op) == if found then edges.Records() + [sid] else edges.Records()
    {
      hide EdgeChain.Valid, LatestAt;
      found, sid := true, op.dst;
      if op.Del? {
        var location;
        found, location := edges.FindNebr(op.dst);
        if found {
          LatestUnique(edges.Records(), op.dst, location);
          sid := DelSid(location);
        }
      }
    }

    /** The second pass over a batch. It opens one chunk at most, with room for all the batch has left. */
    method LogAll(ops: seq<Op>, snapId: nat)
      requires Parts() && Plain(ops) && |edges.Records()| + |ops| <= DEL_MASK
      requires ops != [] && ops[0].Del? ==> edges.chunks != []
      requires snaps.blobs != [] && snaps.Snaps()[0] == Snap(snapId, Ahead(edges.Records(), ops))
      requires |snaps.blobs| > 1 ==> snaps.Snaps()[1].degree.Total() <= |edges.Records()|
      modifies edges, edges.repr, snaps.blobs[0]
      ensures Parts() && snaps.blobs == old(snaps.blobs) && fresh(edges.repr - old(edges.repr))
      ensures edges.Records() == ApplyAll(old(edges.Records()), ops)
      ensures |edges.chunks| <= old(|edges.chunks|) + 1
      ensures snaps.Snaps() == old(snaps.Snaps())[0 := Snap(snapId, DegreeOf(edges.Records()))]
    {
      hide EdgeChain.Valid, EdgeChain.Dense, SnapChain.Valid, Ahead, DegreeOf, Apply, EdgeChain.Records;
      ghost var r, c := edges.Records(), snaps.Snaps();
      assert ops[0..] == ops && ApplyAll(r, ops[..0]) == r;
      for i := 0 to |ops|
        invariant Parts() && snaps.blobs == old(snaps.blobs) && fresh(edges.repr - old(edges.repr))
        invariant edges.Records() == ApplyAll(r, ops[..i]) && |r| <= |edges.Records()| <= |r| + i
        invariant i < |ops| && ops[i].Del? ==> edges.chunks != []
        invariant |edges.chunks| == old(|edges.chunks|)
          || (|edges.chunks| == old(|edges.chunks|) + 1 && edges.Free() >= |ops| - i)
        invariant snaps.Snaps() == c[0 := Snap(snapId, Ahead(edges.Records(), ops[i..]))]
      {
        assert ops[i..] == [ops[i]] + ops[i + 1..];
        ApplyNext(r, ops, i);
        LogGrows(r, ops[..i + 1]);
        LogOne(ops[i], ops[i + 1..]);
      }
      assert ops[..|ops|] == ops && ops[|ops|..] == [];
      AllLogged(edges.Records());
    }

    lemma LoggedNeedsChunks()
      requires Valid()
      ensures story.Now() != [] ==> edges.chunks != []
    {
      if story.Now() != [] {
        edges.RecordsNeedChunks();
      }
    }

    /** The first pass, with what it means for the story: the batch's degree is counted ahead. */
    method CountBatch(ops: seq<Op>, snapId: nat)
      requires Valid() && snapId == |story.logs|
      modifies snaps, snaps.blobs
      ensures Parts() && fresh((set b | b in snaps.blobs) - old(set b | b in snaps.blobs))
      ensures |story.hist| == |story.logs| && story.Extend(ApplyAll(story.Now(), ops)).Valid()
      ensures story.base < |story.logs|
      ensures Faithful(snaps.Snaps(), story.CountedAhead(ops), capacity)
      ensures ops == [] ==> snaps.Snaps() == old(snaps.Snaps())
      ensures ops != [] ==> snaps.Snaps() != [] && snaps.Snaps()[0] == Snap(snapId, Ahead(story.Now(), ops))
      ensures ops != [] && |snaps.Snaps()| > 1 ==> snaps.Snaps()[1].degree.Total() <= |story.Now()|
    {
      hide EdgeChain.Valid, EdgeChain.Dense, SnapChain.Valid, Faithful, EdgeChain.Records, Story.Valid, Ahead, DegreeOf,
        HistAfter, Opening, ApplyAll, Story.CountedAhead;
      ghost var was, c := story, snaps.Snaps();
      CountStarts(was, c, capacity, ops);
      CountAll(ops, snapId, was.hist + [was.hist[|was.hist| - 1]]);
      CountEnds(was, c, snaps.Snaps(), capacity, ops);
    }

    /** Archives the records of one batch that belong to this vertex. */
    method Archive(ops: seq<Op>, snapId: nat)
      requires Valid() && snapId == |story.logs| < 0x1_0000
      requires Plain(ops) && |story.Now()| + |ops| <= DEL_MASK
      requires Ahead(story.Now(), ops).del < 0x1_0000
      requires edges.chunks == [] && ops != [] ==> ops[0].Add?
      modifies Repr()
      ensures Valid() && fresh(Repr() - old(Repr()))
      ensures story == old(story).Extend(ApplyAll(old(story.Now()), ops))
      ensures |edges.chunks| <= old(|edges.chunks|) + 1
    {
      hide EdgeChain.Valid, EdgeChain.Dense, SnapChain.Valid, Faithful, EdgeChain.Records, Story.Valid, Ahead, DegreeOf,
        HistAfter, CountedAll, Apply, ApplyAll, Deletes, Opening, Plain;
      edges.InRepr();
      ghost var was, r := story, edges.Records();
      CountBatch(ops, snapId);
      if ops != [] {
        ghost var counted := snaps.Snaps();
        LogAll(ops, snapId);
        BatchLogged(was, counted, capacity, Ahead(r, ops), edges.Records());
      } else {
        NothingToLog(was);
      }
      story := was.Extend(edges.Records());
    }

    // -------------------------------------------------------------- reading

    /** The neighbours among the first records, as many as the given degree counts. */
    method GetNebrs(ptr: array<Sid>, count: Degree) returns (total: nat)
      requires Parts() && ptr !in edges.repr && count.Total() <= |edges.Records()|
      requires WellFormed(edges.Records()[..count.Total()]) && count == DegreeOf(edges.Records()[..count.Total()])
      requires count.del <= count.add <= count.del + ptr.Length
      modifies ptr
      ensures Parts() && edges.Records() == old(edges.Records())
      ensures total == count.add - count.del <= ptr.Length
      ensures multiset(ptr[..total]) == Live(edges.Records()[..count.Total()])
      ensures forall k :: 0 <= k < total ==> !IsDel(ptr[k])
    {
      hide EdgeChain.Valid, EdgeChain.Dense, SnapChain.Valid, EdgeChain.Records, Live, WellFormed, Deletes;
      if count.del == 0 {
        NoDeletesAllLive(edges.Records()[..count.Total()]);
        total := edges.CopyRecords(ptr, count.Total());
      } else {
        total := ReadAndFill(ptr, count);
      }
    }

    /** Reads with overflow, then moves overflow records into the holes. */
    method ReadAndFill(ptr: array<Sid>, count: Degree) returns (total: nat)
      requires Parts() && ptr !in edges.repr && count.Total() <= |edges.Records()|
      requires WellFormed(edges.Records()[..count.Total()]) && count == DegreeOf(edges.Records()[..count.Total()])
      requires count.del <= count.add <= count.del + ptr.Length
      modifies ptr
      ensures Parts() && edges.Records() == old(edges.Records())
      ensures total == count.add - count.del && multiset(ptr[..total]) == Live(edges.Records()[..count.Total()])
      ensures forall k :: 0 <= k < total ==> !IsDel(ptr[k])
    {
      hide EdgeChain.Valid, EdgeChain.Dense, SnapChain.Valid, EdgeChain.Records, Live, WellFormed, Deletes,
        HoleReader.At;
      ghost var r := edges.Records()[..count.Total()];
      var reader := new HoleReader(ptr, count.add, count.del);
      ReaderStarts(reader, r);
      edges.ReadRecords(reader, count.Total());
      reader.Fill(r);
      total := reader.total;
    }

    /** The neighbours as of snapshot s. */
    method GetNebrsAt(s: nat, ptr: array<Sid>) returns (total: nat)
      requires Valid() && ptr !in Repr()
      requires story.base <= s < |story.logs| <= s + capacity
      requires WellFormed(story.logs[s]) && |Live(story.logs[s])| <= ptr.Length
      modifies ptr
      ensures Valid() && story == old(story)
      ensures total <= ptr.Length && multiset(ptr[..total]) == Live(story.logs[s])
    {
      hide EdgeChain.Valid, EdgeChain.Dense, SnapChain.Valid, EdgeChain.Records, Live, WellFormed, Deletes, Faithful;
      RecentSnapshotsExact(snaps.Snaps(), story.hist, capacity, s);
      LiveCount(story.logs[s]);
      var count := snaps.GetDegreeAt(s);
      assert story.logs[s] == edges.Records()[..count.Total()];
      total := GetNebrs(ptr, count);
    }

    /** The chunks hold exactly what the newest degree counts: their counts add up to its total, every
        chunk but the last is full, and none is empty. */
    lemma ChunksMatchDegree()
      requires Valid()
      ensures |edges.chunks| == |edges.parts|
      ensures forall i :: 0 <= i < |edges.chunks| ==> edges.chunks[i].count == |edges.parts[i]|
      ensures forall i :: 0 <= i < |edges.chunks| - 1 ==> edges.chunks[i].count == edges.chunks[i].maxCount
      ensures forall i :: 0 < i < |edges.chunks| ==> edges.chunks[i].count > 0
      ensures TotalLength(edges.parts) == (if snaps.Snaps() == [] then ZERO else snaps.Snaps()[0].degree).Total()
    {
      NewestAnswers(snaps.Snaps(), story.hist, capacity);
      FlattenLength(edges.parts);
      forall i | 0 <= i < |edges.chunks|
        ensures edges.chunks[i].count == |edges.parts[i]|
        ensures i < |edges.chunks| - 1 ==> edges.chunks[i].count == edges.chunks[i].maxCount
      {
        edges.ChunkFacts(i);
      }
    }

    // -------------------------------------------------------------- compaction

    /** Replaces the chunks by one that holds the live neighbours. */
    method Rewrite(count: Degree)
      requires Parts() && WellFormed(edges.Records()) && count == DegreeOf(edges.Records()) && count.del <= count.add
      modifies edges
      ensures Parts() && fresh(edges.repr - old(edges.repr))
      ensures multiset(edges.Records()) == Live(old(edges.Records())) && |edges.Records()| == count.add - count.del
      ensures forall k :: 0 <= k < |edges.Records()| ==> !IsDel(edges.Records()[k])
    {
      hide EdgeChain.Valid, EdgeChain.Dense, SnapChain.Valid, EdgeChain.Records, Live, WellFormed, Deletes;
      ghost var r := edges.Records();
      edges.InRepr();
      var c := new DeltaAdjList(count.add - count.del);
      c.count := count.add - count.del;
      assert r[..count.Total()] == r;
      var total := GetNebrs(c.adj, count);
      assert c.adj[..total] == c.adj[..];
      edges.ReplaceBy(c, c.adj[..]);
    }

    /** Chunks and newest degree together. */
    method Compact(count: Degree)
      requires Parts() && WellFormed(edges.Records()) && count == DegreeOf(edges.Records()) && count.del <= count.add
      requires snaps.blobs != [] && snaps.Snaps()[0].degree == count
      modifies edges, snaps.blobs[0]
      ensures Parts() && fresh(edges.repr - old(edges.repr)) && snaps.blobs == old(snaps.blobs)
      ensures multiset(edges.Records()) == Live(old(edges.Records()))
      ensures forall k :: 0 <= k < |edges.Records()| ==> !IsDel(edges.Records()[k])
      ensures snaps.Snaps() == old(snaps.Snaps())[0 := Snap(old(snaps.Snaps())[0].id, Degree(|edges.Records()|, 0))]
    {
      hide EdgeChain.Valid, EdgeChain.Dense, SnapChain.Valid, EdgeChain.Records, Live, WellFormed, Deletes, DegreeOf;
      Rewrite(count);
      snaps.CompressDegree();
    }

    /** Rewrites the log as its live neighbours. Snapshots older than the newest touched one can no longer
        be read; every other answer keeps its neighbours. */
    method CompressNebrs()
      requires Valid() && WellFormed(story.Now())
      modifies this, snaps.blobs, edges
      ensures Valid() && |story.logs| == |old(story).logs| && fresh(edges.repr - old(edges.repr))
      ensures Live(story.Now()) == Live(old(story.Now())) && Deletes(story.Now()) == 0
      ensures Deletes(old(story.Now())) == 0 ==> story == old(story)
      ensures forall s :: story.base <= s < |story.logs| ==> Live(story.logs[s]) == Live(old(story).logs[s])
    {
      hide EdgeChain.Valid, EdgeChain.Dense, SnapChain.Valid, EdgeChain.Records, Live, WellFormed, Deletes, Faithful,
        Story.Valid, CompressedStory, DegreeOf;
      ghost var was, chain := story, snaps.Snaps();
      CompressFacts(was, chain, capacity);
      var count := snaps.GetDegree();
      if count.del == 0 {
        return;
      }
      Compact(count);
      Compressed(was, chain, capacity, edges.Records());
      story := CompressedStory(was, chain[0].id, edges.Records());
    }
  }

  ghost function CompressedStory(story: Story, id: nat, r: seq<Sid>): Story {
    Story(ChangedFrom(story.logs, id, r), ChangedFrom(story.hist, id, DegreeOf(r)), id)
  }

  /** The newest entry is the degree of the whole log. */
  lemma CompressFacts(story: Story, c: seq<Snap>, capacity: nat)
    requires story.Valid() && capacity >= 2 && Faithful(c, story.hist, capacity)
    ensures (if c == [] then ZERO else c[0].degree) == DegreeOf(story.Now())
    ensures WellFormed(story.Now()) ==> var d := DegreeOf(story.Now()); d.add >= d.del == Deletes(story.Now())
  {
    NewestAnswers(c, story.hist, capacity);
    if WellFormed(story.Now()) {
      LiveCount(story.Now());
    }
  }

  /** The log is the same from the newest touched batch on, so replacing it there keeps its meaning. */
  lemma Compressed(story: Story, c: seq<Snap>, capacity: nat, r: seq<Sid>)
    requires story.Valid() && capacity >= 2 && Faithful(c, story.hist, capacity) && c != [] && c[0].id >= story.base
    requires multiset(r) == Live(story.Now()) && forall k :: 0 <= k < |r| ==> !IsDel(r[k])
    ensures DegreeOf(r) == Degree(|r|, 0)
    ensures var s := CompressedStory(story, c[0].id, r);
            && s.Valid() && s.Now() == r && s.base == c[0].id && |s.logs| == |story.logs|
            && Live(r) == Live(story.Now()) && Deletes(r) == 0
            && Faithful(c[0 := Snap(c[0].id, DegreeOf(r))], s.hist, capacity)
            && forall i :: c[0].id <= i < |s.logs| ==> s.logs[i] == r && story.logs[i] == story.Now()
  {
    hide Live;
    PlainHasNoDeletes(r);
    NoDeletesAllLive(r);
    HeadChange(c, story.hist, capacity, DegreeOf(r));
    NewestAnswers(c, story.hist, capacity);
    forall i | c[0].id <= i < |story.logs| ensures story.logs[i] == story.Now() {
      assert Lookup(c, i) == story.hist[i];
    }
  }

  lemma ReaderStarts(reader: HoleReader, r: seq<Sid>)
    requires reader.Shape() && reader.total == reader.otherPos == reader.idel == 0
    ensures reader.At(r, 0)
  {
    assert r[..0] == [];
  }

  lemma AllLogged(r: seq<Sid>)
    ensures Ahead(r, []) == DegreeOf(r)
  {
  }

  /** Counting a batch ahead of logging it. */
  lemma {:induction false} CountedAhead(r: seq<Sid>, ops: seq<Op>)
    ensures CountedAll(DegreeOf(r), ops) == Ahead(r, ops)
  {
    if ops != [] {
      CountedAhead(r, DropLast(ops));
      AddsAppend(DropLast(ops), Last(ops));
      assert ops == DropLast(ops) + [Last(ops)];
    }
  }

  /** The degrees per batch with batch id counted up to and including ops. */
  function HistAfter(hist: seq<Degree>, id: nat, ops: seq<Op>): seq<Degree>
    requires id < |hist|
  {
    hist[id := CountedAll(hist[id], ops)]
  }

  lemma CountedHist(story: Story, ops: seq<Op>)
    requires |story.hist| == |story.logs| > 0 && story.hist[|story.hist| - 1] == DegreeOf(story.Now())
    ensures var n := |story.hist|;
            HistAfter(story.hist + [story.hist[n - 1]], n, ops) ==
            story.CountedAhead(ops)
  {
    CountedAhead(story.Now(), ops);
  }

  lemma NothingCounted(hist: seq<Degree>, id: nat, ops: seq<Op>)
    requires id < |hist|
    ensures HistAfter(hist, id, ops[..0]) == hist
  {
  }

  lemma HistNext(hist: seq<Degree>, id: nat, ops: seq<Op>, i: nat)
    requires id < |hist| && i < |ops|
    ensures |HistAfter(hist, id, ops[..i])| == |hist|
    ensures var h := HistAfter(hist, id, ops[..i]);
            HistAfter(hist, id, ops[..i + 1]) == h[id := Counted(h[id], ops[i].Add?)]
  {
    assert DropLast(ops[..i + 1]) == ops[..i];
  }

  function CountedAll(d: Degree, ops: seq<Op>): Degree {
    if ops == [] then d else Counted(CountedAll(d, DropLast(ops)), Last(ops).Add?)
  }

  // ---------------------------------------------------------------- whole runs

  /** What the archive asks of its batches: plain ids that fit under the delete mark, no delete before the
      first insert of an empty vertex, and delete counts of 16 bits. */
  ghost predicate Archivable(batches: seq<seq<Op>>) {
    && |batches| < 0xFFFF && Size(batches) <= DEL_MASK
    && forall b :: 0 <= b < |batches| ==> BatchOk(LogAfter(batches[..b]), batches[b])
  }

  ghost predicate BatchOk(r: seq<Sid>, ops: seq<Op>) {
    Plain(ops) && Ahead(r, ops).del < 0x1_0000 && (r == [] && ops != [] ==> ops[0].Add?)
  }

  lemma {:induction false} SizePrefix(batches: seq<seq<Op>>, b: nat)
    requires b <= |batches|
    ensures |LogAfter(batches[..b])| <= Size(batches[..b]) <= Size(batches)
  {
    if b < |batches| {
      SizePrefix(DropLast(batches), b);
      assert DropLast(batches)[..b] == batches[..b];
    } else {
      assert batches[..b] == batches;
      LogFits(batches);
    }
  }

  lemma {:induction false} LogFits(batches: seq<seq<Op>>)
    ensures |LogAfter(batches)| <= Size(batches)
  {
    if batches != [] {
      LogFits(DropLast(batches));
      LogGrows(LogAfter(DropLast(batches)), Last(batches));
    }
  }

  /** One more batch fits. */
  lemma NextBatchFits(batches: seq<seq<Op>>, b: nat)
    requires Archivable(batches) && b < |batches|
    ensures BatchOk(LogAfter(batches[..b]), batches[b]) && |LogAfter(batches[..b])| + |batches[b]| <= DEL_MASK
    ensures LogAfter(batches[..b + 1]) == ApplyAll(LogAfter(batches[..b]), batches[b])
  {
    assert DropLast(batches[..b + 1]) == batches[..b];
    SizePrefix(batches, b);
    SizePrefix(batches, b + 1);
  }

  /** Archives the batches one after the other into a new unit, then reads it as of batch s: the result
      is exactly the neighbours the first s batches ask for, whatever came later, as long as s is among the
      last `capacity` snapshots and no neighbour was deleted twice in a row up to then. */
  method ArchiveThenRead(batches: seq<seq<Op>>, capacity: nat, s: nat, ptr: array<Sid>) returns (total: nat)
    requires capacity >= 2 && Archivable(batches) && s <= |batches| < s + capacity
    requires WellFormed(LogAfter(batches[..s])) && |Live(LogAfter(batches[..s]))| <= ptr.Length
    modifies ptr
    ensures total <= ptr.Length && multiset(ptr[..total]) == NeighboursAfter(batches[..s])
  {
    hide Live, LogAfter, WellFormed, NeighboursAfter, Archivable, VertexUnit.Valid;
    var unit := ArchiveAll(batches, capacity);
    PrefixArchivable(batches, s);
    total := unit.GetNebrsAt(s, ptr);
    RunMeansNeighbours(batches[..s]);
  }

  /** A new unit that has archived the batches: after batch s its log is that of the first s batches. */
  method ArchiveAll(batches: seq<seq<Op>>, capacity: nat) returns (unit: VertexUnit)
    requires capacity >= 2 && Archivable(batches)
    ensures unit.Valid() && unit.capacity == capacity && fresh(unit.Repr())
    ensures unit.story.base == 0 && |unit.story.logs| == |batches| + 1
    ensures forall i :: 0 <= i <= |batches| ==> unit.story.logs[i] == LogAfter(batches[..i])
  {
    hide LogAfter, Archivable, Ahead, VertexUnit.Valid, Deletes;
    unit := new VertexUnit(capacity);
    EmptyRun(batches);
    for b := 0 to |batches|
      invariant unit.Valid() && unit.capacity == capacity && fresh(unit.Repr())
      invariant unit.story.base == 0 && |unit.story.logs| == b + 1
      invariant forall i :: 0 <= i <= b ==> unit.story.logs[i] == LogAfter(batches[..i])
    {
      NextBatchFits(batches, b);
      unit.LoggedNeedsChunks();
      unit.Archive(batches[b], b + 1);
    }
  }

  lemma EmptyRun(batches: seq<seq<Op>>)
    requires Archivable(batches)
    ensures LogAfter(batches[..0]) == [] && |batches| < 0xFFFF
  {
  }

  lemma PrefixArchivable(batches: seq<seq<Op>>, s: nat)
    requires Archivable(batches) && s <= |batches|
    ensures Size(batches[..s]) <= DEL_MASK && forall b :: 0 <= b < s ==> Plain(batches[..s][b])
  {
    SizePrefix(batches, s);
    forall b | 0 <= b < s ensures Plain(batches[..s][b]) {
      assert BatchOk(LogAfter(batches[..b]), batches[b]);
    }
  }
}
