/** The chunked record log of one vertex: a linked chain of fixed-size chunks of which only the last
    has room, searched for deletes and read through for neighbours. */
module EdgeChains {
  import opened RecordLog
  import opened HoleReading
  import opened Sets

  /** The records of the chunks, in chain order. */
  function Flatten(parts: seq<seq<Sid>>): seq<Sid> {
    if parts == [] then [] else Flatten(parts[..|parts| - 1]) + parts[|parts| - 1]
  }

  lemma {:induction false} FlattenConcat(a: seq<seq<Sid>>, b: seq<seq<Sid>>)
    ensures Flatten(a + b) == Flatten(a) + Flatten(b)
  {
    if b == [] {
      assert a + b == a;
    } else {
      var b' := b[..|b| - 1];
      FlattenConcat(a, b');
      assert (a + b)[..|a + b| - 1] == a + b';
    }
  }

  function TotalLength(parts: seq<seq<Sid>>): nat {
    if parts == [] then 0 else TotalLength(parts[..|parts| - 1]) + |parts[|parts| - 1]|
  }

  lemma {:induction false} FlattenLength(parts: seq<seq<Sid>>)
    ensures |Flatten(parts)| == TotalLength(parts)
  {
    if parts != [] {
      FlattenLength(parts[..|parts| - 1]);
    }
  }

  lemma FlattenEmptyLast(parts: seq<seq<Sid>>)
    ensures Flatten(parts + [[]]) == Flatten(parts)
  {
    assert (parts + [[]])[..|parts|] == parts;
  }

  lemma NothingFlat()
    ensures Flatten([]) == []
  {
  }

  lemma FlattenNext(parts: seq<seq<Sid>>, k: nat)
    requires k < |parts|
    ensures Flatten(parts[..k + 1]) == Flatten(parts[..k]) + parts[k]
  {
    assert parts[..k + 1][..k] == parts[..k];
  }

  lemma FlattenSplit(parts: seq<seq<Sid>>, k: nat)
    requires k < |parts|
    ensures Flatten(parts[..k + 1]) == Flatten(parts[..k]) + parts[k]
    ensures Flatten(parts) == Flatten(parts[..k]) + parts[k] + Flatten(parts[k + 1..])
  {
    hide Flatten;
    FlattenNext(parts, k);
    assert parts == parts[..k + 1] + parts[k + 1..];
    FlattenConcat(parts[..k + 1], parts[k + 1..]);
  }

  /** The last position of x in r, or none. */
  ghost predicate LatestAt(r: seq<Sid>, x: Sid, pos: nat) {
    pos < |r| && r[pos] == x && x !in r[pos + 1..]
  }

  class DeltaAdjList {
    var next: DeltaAdjList?
    const maxCount: nat
    var count: nat
    const adj: array<Sid>

    constructor (capacity: nat)
      ensures fresh(adj) && next == null && count == 0 && maxCount == adj.Length == capacity
    {
      next := null;
      maxCount := capacity;
      count := 0;
      adj := new Sid[capacity](_ => 0);
    }
  }

  class EdgeChain {
    var deltaAdjlist: DeltaAdjList?
    var adjList: DeltaAdjList?
    ghost var chunks: seq<DeltaAdjList>
    ghost var parts: seq<seq<Sid>>
    ghost var repr: set<object>

    ghost function After(i: nat): DeltaAdjList?
      reads this
    {
      if i + 1 < |chunks| then chunks[i + 1] else null
    }

    ghost predicate ChunkOk(i: nat)
      requires i < |chunks| == |parts|
      reads this, chunks[i], chunks[i].adj
    {
      && chunks[i].count == |parts[i]| <= chunks[i].adj.Length == chunks[i].maxCount
      && chunks[i].adj[..chunks[i].count] == parts[i]
      && chunks[i].next == After(i)
      && (i + 1 < |chunks| ==> chunks[i].count == chunks[i].maxCount)
    }

    /** All chunks but the last are full; the chain holds exactly the parts. */
    ghost predicate Valid()
      reads this, repr
    {
      && this in repr && |chunks| == |parts|
      && (forall i :: 0 <= i < |chunks| ==> chunks[i] in repr && chunks[i].adj in repr && chunks[i] != this as object)
      && (forall i, j :: 0 <= i < j < |chunks| ==> chunks[i] != chunks[j] && chunks[i].adj != chunks[j].adj)
      && (forall i :: 0 <= i < |chunks| ==> ChunkOk(i))
      && deltaAdjlist == (if chunks == [] then null else chunks[0])
      && adjList == (if chunks == [] then null else chunks[|chunks| - 1])
    }

    ghost function Records(): seq<Sid>
      reads this
    {
      Flatten(parts)
    }

    constructor ()
      ensures Valid() && Records() == [] && fresh(repr) && Dense()
    {
      deltaAdjlist, adjList := null, null;
      chunks, parts, repr := [], [], {this};
    }

    lemma InRepr()
      requires Valid()
      ensures this in repr
    {
    }

    lemma RecordsNeedChunks()
      requires Valid() && Records() != []
      ensures chunks != []
    {
    }

    /** Links a chunk behind the last one, which must be full. */
    method SetDeltaAdjlist(c: DeltaAdjList)
      requires Valid() && c !in repr && c.adj !in repr && c != this as object
      requires c.next == null && c.count == 0 && c.maxCount == c.adj.Length
      requires chunks != [] ==> chunks[|chunks| - 1].count == chunks[|chunks| - 1].maxCount
      modifies this, repr
      ensures Valid() && chunks == old(chunks) + [c] && parts == old(parts) + [[]]
      ensures repr == old(repr) + {c, c.adj} && Records() == old(Records())
      ensures adjList == c && c.count == 0
    {
      hide Flatten;
      FlattenEmptyLast(parts);
      ghost var before := chunks;
      if adjList != null {
        adjList.next := c;
        adjList := c;
      } else {
        deltaAdjlist := c;
        adjList := c;
      }
      chunks, parts := chunks + [c], parts + [[]];
      repr := repr + {c, c.adj};
      forall i | 0 <= i < |chunks| ensures ChunkOk(i) {
        if i < |before| {
          assert chunks[i] == before[i] && old(ChunkOk(i));
        } else {
          assert chunks[i] == c && parts[i] == [];
        }
      }
    }

    /** Appends to the last chunk, which must have room. */
    method PutLast(sid: Sid)
      requires Valid() && chunks != [] && adjList.count < adjList.maxCount
      modifies repr
      ensures Valid() && chunks == old(chunks) && repr == old(repr)
      ensures Records() == old(Records()) + [sid] && Free() == old(Free()) - 1
      ensures |parts| == |old(parts)| && forall i :: 0 <= i < |parts| ==>
        if i < |parts| - 1 then parts[i] == old(parts)[i] else parts[i] != []
    {
      ghost var last, before := |chunks| - 1, parts;
      assert ChunkOk(last);
      adjList.adj[adjList.count] := sid;
      adjList.count := adjList.count + 1;
      parts := before[last := before[last] + [sid]];
      forall i | 0 <= i < |chunks| ensures ChunkOk(i) {
        assert old(ChunkOk(i));
        if i == last {
          assert chunks[i].adj[..chunks[i].count] == before[i] + [sid];
        } else {
          assert parts[i] == before[i] && chunks[i] != chunks[last] && chunks[i].adj != chunks[last].adj;
        }
      }
      FlattenSplit(before, last);
      FlattenSplit(parts, last);
      assert before[..last] == parts[..last] && before[last + 1..] == [] && parts[last + 1..] == [];
    }

    /** The free slots of the last chunk. */
    ghost function Free(): int
      reads this
    {
      if chunks == [] || |parts| != |chunks| then 0 else chunks[|chunks| - 1].maxCount - |parts[|chunks| - 1]|
    }

    /** Appends a record. A chunk is opened exactly when the last one is full, with room for what is wanted and
        what the rounding spares. */
    method AddNebr(sid: Sid, wanted: nat, spare: nat)
      requires Valid() && wanted > 0
      modifies this, repr
      ensures Valid() && Records() == old(Records()) + [sid] && fresh(repr - old(repr)) && chunks != []
      ensures old(Dense()) ==> Dense()
      ensures old(chunks) <= chunks && old(Free()) >= 0
      ensures if old(Free()) > 0 then |chunks| == old(|chunks|) && Free() == old(Free()) - 1
              else |chunks| == old(|chunks|) + 1 && Free() == wanted + spare - 1
    {
      assert chunks != [] ==> ChunkOk(|chunks| - 1);
      if adjList == null || adjList.count >= adjList.maxCount {
        OpenChunk(wanted + spare);
      }
      PutLast(sid);
    }

    /** A new empty chunk behind a full one. */
    method OpenChunk(capacity: nat)
      requires Valid() && capacity > 0
      requires chunks != [] ==> chunks[|chunks| - 1].count == chunks[|chunks| - 1].maxCount
      modifies this, repr
      ensures Valid() && Records() == old(Records()) && fresh(repr - old(repr))
      ensures parts == old(parts) + [[]]
      ensures chunks == old(chunks) + [adjList] && fresh(adjList)
      ensures adjList.count == 0 && adjList.maxCount == capacity
    {
      hide Flatten, ChunkOk;
      var c := new DeltaAdjList(capacity);
      SetDeltaAdjlist(c);
    }

    // -------------------------------------------------------------- search

    lemma ChunkFacts(i: nat)
      requires Valid() && i < |chunks|
      ensures chunks[i] in repr && chunks[i].adj in repr
      ensures chunks[i].count == |parts[i]| && chunks[i].next == After(i)
      ensures chunks[i].adj.Length == chunks[i].maxCount >= |parts[i]|
      ensures i + 1 < |chunks| ==> |parts[i]| == chunks[i].maxCount
      ensures chunks[i].adj[..|parts[i]|] == parts[i]
    {
      assert ChunkOk(i);
    }

    lemma HeadFacts()
      requires Valid()
      ensures |chunks| == |parts| && Flatten(parts[..0]) == [] && parts[..|parts|] == parts
      ensures deltaAdjlist == (if chunks == [] then null else chunks[0])
      ensures adjList == (if chunks == [] then null else chunks[|chunks| - 1])
      ensures forall i :: 0 <= i < |chunks| && chunks[i] == adjList ==> i == |chunks| - 1
    {
    }

    /** The last match in the last chunk, scanning backward. */
    method SearchLast(sid: Sid) returns (found: bool, pos: nat)
      requires Valid() && chunks != []
      ensures found ==> LatestAt(parts[|chunks| - 1], sid, pos)
      ensures !found ==> sid !in parts[|chunks| - 1]
    {
      ghost var part := parts[|chunks| - 1];
      assert ChunkOk(|chunks| - 1);
      var i: nat := adjList.count;
      while i != 0
        invariant i <= |part| && sid !in part[i..]
      {
        assert part[i - 1..] == [part[i - 1]] + part[i..];
        assert adjList.adj[i - 1] == part[i - 1];
        if adjList.adj[i - 1] == sid {
          return true, i - 1;
        }
        i := i - 1;
      }
      return false, 0;
    }

    /** How many records precede the last chunk. */
    method RecordsBeforeLast() returns (degree: nat)
      requires Valid() && chunks != []
      ensures degree == |Flatten(parts[..|chunks| - 1])|
    {
      hide Flatten, Valid;
      HeadFacts();
      degree := 0;
      var c := deltaAdjlist;
      ghost var k := 0;
      while c != adjList
        invariant k < |chunks| && c == chunks[k] && degree == |Flatten(parts[..k])|
        decreases |chunks| - k
      {
        ChunkFacts(k);
        FlattenNext(parts, k);
        degree := degree + c.count;
        c := c.next;
        k := k + 1;
      }
      assert k == |chunks| - 1;
    }

    /** The last match before the last chunk, scanning forward. */
    method SearchEarlier(sid: Sid) returns (found: bool, pos: nat)
      requires Valid() && chunks != []
      ensures found ==> LatestAt(Flatten(parts[..|chunks| - 1]), sid, pos)
      ensures !found ==> sid !in Flatten(parts[..|chunks| - 1])
    {
      hide Flatten, Valid, LatestAt;
      HeadFacts();
      found, pos := false, 0;
      var degree := 0;
      var c := deltaAdjlist;
      ghost var k := 0;
      while c != adjList
        invariant k < |chunks| && c == chunks[k] && degree == |Flatten(parts[..k])|
        invariant if found then LatestAt(Flatten(parts[..k]), sid, pos) else sid !in Flatten(parts[..k])
        decreases |chunks| - k
      {
        ChunkFacts(k);
        ghost var before, part := Flatten(parts[..k]), parts[k];
        FlattenNext(parts, k);
        assert before + part[..0] == before;
        for i := 0 to c.count
          invariant if found then LatestAt(before + part[..i], sid, pos) else sid !in before + part[..i]
        {
          LatestStep(before, part, i, sid, pos, found);
          if c.adj[i] == sid {
            found, pos := true, degree + i;
          }
        }
        assert part[..|part|] == part;
        degree := degree + c.count;
        c := c.next;
        k := k + 1;
      }
    }

    /** Where the latest record with this id is; delete records never match an id without the bit. */
    method FindNebr(sid: Sid) returns (found: bool, location: nat)
      requires Valid() && chunks != []
      ensures found ==> LatestAt(Records(), sid, location)
      ensures !found ==> sid !in Records()
    {
      ghost var n := |chunks| - 1;
      FlattenSplit(parts, n);
      assert parts[n + 1..] == [];
      ghost var before := Flatten(parts[..n]);
      var pos;
      found, pos := SearchLast(sid);
      if found {
        var degree := RecordsBeforeLast();
        assert Records()[degree + pos + 1..] == parts[n][pos + 1..];
        return true, degree + pos;
      }
      found, location := SearchEarlier(sid);
      if found {
        assert Records()[location + 1..] == before[location + 1..] + parts[n];
      }
    }

    // -------------------------------------------------------------- reading

    /** memcpy of the first records of one chunk. */
    static method CopyChunk(ptr: array<Sid>, total: nat, c: DeltaAdjList, iCount: nat, ghost all: seq<Sid>)
      requires iCount <= c.adj.Length && total + iCount <= |all| && total + iCount <= ptr.Length && c.adj != ptr
      requires ptr[..total] == all[..total] && c.adj[..iCount] == all[total..total + iCount]
      modifies ptr
      ensures ptr[..total + iCount] == all[..total + iCount]
    {
      ghost var records := c.adj[..iCount];
      for i := 0 to iCount
        invariant ptr[..total + i] == all[..total + i] && c.adj[..iCount] == records
      {
        assert c.adj[i] == records[i] == all[total + i];
        ptr[total + i] := c.adj[i];
      }
    }

    /** Copies the first `wanted` records; used when none of them is a delete. */
    method CopyRecords(ptr: array<Sid>, wanted: nat) returns (total: nat)
      requires Valid() && ptr !in repr && wanted <= ptr.Length && wanted <= |Records()|
      modifies ptr
      ensures total == wanted && ptr[..total] == Records()[..wanted]
    {
      hide Flatten, Valid;
      HeadFacts();
      total := 0;
      var deltaDegree: int := wanted;
      var c := deltaAdjlist;
      ghost var k := 0;
      ghost var all := Records();
      while c != null && deltaDegree > 0
        invariant Valid() && Records() == all && k <= |chunks|
        invariant c == (if k < |chunks| then chunks[k] else null)
        invariant deltaDegree == wanted - |Flatten(parts[..k])|
        invariant total == Min(wanted, |Flatten(parts[..k])|) && ptr[..total] == all[..total]
        decreases |chunks| - k
      {
        ChunkFacts(k);
        FlattenSplit(parts, k);
        var localDegree := c.count;
        var iCount := Min(localDegree, deltaDegree);
        ChunkInPrefix(parts, k, wanted, iCount);
        CopyChunk(ptr, total, c, iCount, all[..wanted]);
        total := total + iCount;
        c := c.next;
        deltaDegree := deltaDegree - localDegree;
        k := k + 1;
      }
      assert k == |chunks| ==> parts[..k] == parts;
    }

    /** Feeds the first records of one chunk to the reader. */
    static method ReadChunk(reader: HoleReader, c: DeltaAdjList, iCount: nat, ghost r: seq<Sid>, ghost base: nat)
      requires iCount <= c.adj.Length && base + iCount <= |r| && c.adj[..iCount] == r[base..base + iCount]
      requires WellFormed(r) && reader.At(r, base)
      requires c.adj != reader.ptr && c.adj != reader.others && c.adj as object != reader.delPos
      requires |r| <= reader.n + reader.others.Length && 2 * Deletes(r) <= reader.delPos.Length
      modifies reader, reader.ptr, reader.others, reader.delPos
      ensures reader.At(r, base + iCount)
    {
      hide Scanned, WellFormed, Deletes;
      ghost var records := c.adj[..iCount];
      for i := 0 to iCount
        invariant reader.At(r, base + i) && c.adj[..iCount] == records
      {
        assert c.adj[i] == records[i] == r[base + i];
        reader.Step(c.adj[i], r, base + i);
      }
    }

    /** Feeds the first `wanted` records to the reader. */
    method ReadRecords(reader: HoleReader, wanted: nat)
      requires Valid() && wanted <= |Records()| && WellFormed(Records()[..wanted])
      requires reader !in repr && reader.ptr !in repr && reader.others !in repr && reader.delPos !in repr
      requires reader.At(Records()[..wanted], 0)
      requires wanted <= reader.n + reader.others.Length && 2 * Deletes(Records()[..wanted]) <= reader.delPos.Length
      modifies reader, reader.ptr, reader.others, reader.delPos
      ensures reader.At(Records()[..wanted], wanted)
    {
      hide WellFormed, Deletes, Flatten, Valid, HoleReader.At;
      HeadFacts();
      var deltaDegree: int := wanted;
      var c := deltaAdjlist;
      ghost var k := 0;
      ghost var all, r := Records(), Records()[..wanted];
      while c != null && deltaDegree > 0
        invariant Valid() && Records() == all && k <= |chunks|
        invariant c == (if k < |chunks| then chunks[k] else null)
        invariant deltaDegree == wanted - |Flatten(parts[..k])|
        invariant reader.At(r, Min(wanted, |Flatten(parts[..k])|))
        decreases |chunks| - k
      {
        ChunkFacts(k);
        FlattenSplit(parts, k);
        ghost var base := |Flatten(parts[..k])|;
        var localDegree := c.count;
        var iCount := Min(localDegree, deltaDegree);
        ChunkInPrefix(parts, k, wanted, iCount);
        ReadChunk(reader, c, iCount, r, base);
        c := c.next;
        deltaDegree := deltaDegree - localDegree;
        k := k + 1;
      }
      assert k == |chunks| ==> parts[..k] == parts;
    }

    /** No chunk but the first is empty. */
    ghost predicate Dense()
      reads this
    {
      forall i :: 0 < i < |parts| ==> parts[i] != []
    }

    // -------------------------------------------------------------- stepping through the records

    /** The cursor reads record pos next. */
    ghost predicate CursorAt(h: Header, pos: nat, k: nat)
      reads this, repr, h
    {
      && Valid() && k < |chunks|
      && h.next == After(k) && h.maxCount == chunks[k].maxCount && h.adj == chunks[k].adj
      && h.count <= |parts[k]| && pos == |Flatten(parts[..k])| + h.count
    }

    /** A cursor at the given offset, which must be that of a record. */
    method Start(offset: nat) returns (h: Header, ghost k: nat)
      requires Valid() && offset < |Records()|
      ensures fresh(h) && CursorAt(h, offset, k)
    {
      hide ChunkOk;
      var c := deltaAdjlist;
      var deltaDegree: int := offset;
      k := 0;
      assert Flatten(parts[..0]) == [];
      assert parts == parts[..|parts|];
      while c != null && deltaDegree > 0
        invariant k <= |chunks| && c == (if k < |chunks| then chunks[k] else null)
        invariant deltaDegree >= 0 && deltaDegree + |Flatten(parts[..k])| == offset
        decreases |chunks| - k
      {
        ChunkFacts(k);
        FlattenSplit(parts, k);
        if deltaDegree >= c.count {
          deltaDegree := deltaDegree - c.count;
          c := c.next;
          k := k + 1;
        } else {
          break;
        }
      }
      if k < |chunks| {
        ChunkFacts(k);
        FlattenSplit(parts, k);
      }
      h := new Header(c.next, c.maxCount, deltaDegree, c.adj);
    }

    /** The record at the cursor, which moves on. */
    method Next(h: Header, ghost pos: nat, ghost k: nat) returns (dst: Sid, ghost k': nat)
      requires CursorAt(h, pos, k) && Dense() && pos < |Records()| && h !in repr
      modifies h
      ensures dst == Records()[pos] && CursorAt(h, pos + 1, k')
    {
      hide ChunkOk, Flatten, Valid;
      k' := k;
      HeadFacts();
      ChunkFacts(k);
      FlattenSplit(parts, k);
      NothingFlat();
      assert parts[k + 1..] == [] ==> k + 1 == |parts|;
      if h.maxCount == h.count {
        var c := h.next;
        k' := k + 1;
        ChunkFacts(k');
        FlattenSplit(parts, k');
        h.next, h.maxCount, h.count, h.adj := c.next, c.maxCount, 0, c.adj;
      }
      dst := h.adj[h.count];
      assert dst == parts[k'][h.count];
      h.count := h.count + 1;
    }

    /** Replaces the whole chain by one chunk. */
    method ReplaceBy(c: DeltaAdjList, ghost records: seq<Sid>)
      requires Valid() && c != this as object && c.next == null && c.count == |records| == c.adj.Length == c.maxCount
      requires c.adj[..] == records
      modifies this
      ensures Valid() && Records() == records && repr == {this, c, c.adj} && Dense()
    {
      deltaAdjlist, adjList := c, c;
      chunks, parts, repr := [c], [records], {this, c, c.adj};
      assert parts[..0] == [] && Flatten(parts[..0]) == [];
      assert Records() == Flatten(parts[..0]) + records;
    }
  }

  /** The cursor of one scan over a chain. */
  class Header {
    var next: DeltaAdjList?
    var maxCount: nat
    var count: nat
    var adj: array<Sid>

    constructor (n: DeltaAdjList?, m: nat, c: nat, a: array<Sid>)
      ensures next == n && maxCount == m && count == c && adj == a
    {
      next, maxCount, count, adj := n, m, c, a;
    }
  }

  lemma ChunkInPrefix(parts: seq<seq<Sid>>, k: nat, wanted: nat, iCount: nat)
    requires k < |parts| && iCount <= |parts[k]| && |Flatten(parts[..k])| + iCount <= wanted <= |Flatten(parts)|
    ensures var base := |Flatten(parts[..k])|;
            parts[k][..iCount] == Flatten(parts)[..wanted][base..base + iCount]
  {
    hide Flatten;
    FlattenSplit(parts, k);
    var base, all := |Flatten(parts[..k])|, Flatten(parts);
    var head := Flatten(parts[..k]) + parts[k];
    forall i | 0 <= i < iCount ensures parts[k][..iCount][i] == all[..wanted][base..base + iCount][i] {
      assert all[base + i] == head[base + i] == parts[k][i];
    }
  }

  lemma LatestStep(before: seq<Sid>, part: seq<Sid>, i: nat, x: Sid, pos: nat, found: bool)
    requires i < |part|
    requires if found then LatestAt(before + part[..i], x, pos) else x !in before + part[..i]
    ensures before + part[..i + 1] == before + part[..i] + [part[i]]
    ensures part[i] == x ==> LatestAt(before + part[..i + 1], x, |before| + i)
    ensures part[i] != x ==> if found then LatestAt(before + part[..i + 1], x, pos) else x !in before + part[..i + 1]
  {
    var r, s := before + part[..i], before + part[..i + 1];
    assert part[..i + 1] == part[..i] + [part[i]];
    assert s == r + [part[i]];
    if part[i] != x && found {
      assert s[pos + 1..] == r[pos + 1..] + [part[i]];
    }
  }
}
