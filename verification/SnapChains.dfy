/** The short chain of degree snapshots of one vertex, newest first, with its oldest entry recycled
    once the chain is as long as the number of snapshots kept. */
module SnapChains {

  datatype Degree = Degree(add: nat, del: nat) {
    function Total(): nat {
      add + del
    }
  }

  const ZERO := Degree(0, 0)

  datatype Snap = Snap(id: nat, degree: Degree)

  // ---------------------------------------------------------------- what a chain answers

  /** The degree as of snapshot s: the newest entry not younger than s, or none. */
  function Lookup(c: seq<Snap>, s: nat): Degree {
    if c == [] then ZERO else if s >= c[0].id then c[0].degree else Lookup(c[1..], s)
  }

  predicate Descending(c: seq<Snap>) {
    forall i, j :: 0 <= i < j < |c| ==> c[i].id > c[j].id
  }

  /** hist[s] is the degree at the end of batch s; the last batch is in progress. A chain below capacity
      answers for all of history, a full one from its oldest entry on. */
  ghost predicate Faithful(c: seq<Snap>, hist: seq<Degree>, capacity: nat) {
    && Descending(c) && |c| <= capacity && |hist| > 0
    && (forall i :: 0 <= i < |c| ==> c[i].id < |hist|)
    && forall s: nat :: s < |hist| && (|c| < capacity || (c != [] && c[|c| - 1].id <= s)) ==> Lookup(c, s) == hist[s]
  }

  lemma {:induction false} DescendingGap(c: seq<Snap>, i: nat)
    requires Descending(c) && i < |c|
    ensures c[0].id >= c[i].id + i
  {
    if i > 0 {
      DescendingGap(c, i - 1);
    }
  }

  /** Whatever was recycled, the last `capacity` batches are answered exactly. */
  lemma RecentSnapshotsExact(c: seq<Snap>, hist: seq<Degree>, capacity: nat, s: nat)
    requires capacity > 0 && Faithful(c, hist, capacity) && |hist| <= s + capacity && s < |hist|
    ensures Lookup(c, s) == hist[s]
  {
    if |c| == capacity {
      DescendingGap(c, capacity - 1);
    }
  }

  lemma {:induction false} LookupAtOrAfterHead(c: seq<Snap>, s: nat, t: nat)
    requires Descending(c) && s <= t && forall i :: 0 <= i < |c| ==> c[i].id <= s
    ensures Lookup(c, s) == Lookup(c, t)
  {
  }

  /** A batch that has not touched the vertex yet leaves its degree as it was. */
  lemma NextBatch(c: seq<Snap>, hist: seq<Degree>, capacity: nat)
    requires Faithful(c, hist, capacity)
    ensures Faithful(c, hist + [hist[|hist| - 1]], capacity)
  {
    LookupAtOrAfterHead(c, |hist| - 1, |hist|);
  }

  /** The chain after its first touch in batch id. */
  function Opened(c: seq<Snap>, id: nat, capacity: nat): seq<Snap> {
    var degree := if c == [] then ZERO else c[0].degree;
    [Snap(id, degree)] + if |c| >= capacity && |c| > 0 then c[..|c| - 1] else c
  }

  lemma {:induction false} LookupDropLast(c: seq<Snap>, s: nat)
    requires Descending(c) && |c| > 1 && c[|c| - 2].id <= s
    ensures Lookup(c[..|c| - 1], s) == Lookup(c, s)
  {
    var d := c[..|c| - 1];
    if s < c[0].id {
      assert d[1..] == c[1..][..|c[1..]| - 1];
      LookupDropLast(c[1..], s);
    }
  }

  lemma OpenKeeps(c: seq<Snap>, hist: seq<Degree>, capacity: nat)
    requires capacity >= 2 && Faithful(c, hist, capacity) && (c == [] || c[0].id < |hist| - 1)
    ensures Faithful(Opened(c, |hist| - 1, capacity), hist, capacity)
  {
    var id := |hist| - 1;
    var o := Opened(c, id, capacity);
    var tail := if |c| >= capacity then c[..|c| - 1] else c;
    assert o[1..] == tail;
    forall s: nat | s < |hist| && (|o| < capacity || (o != [] && o[|o| - 1].id <= s)) ensures Lookup(o, s) == hist[s] {
      if s < id {
        if |c| >= capacity {
          LookupDropLast(c, s);
        }
      } else if c != [] {
        assert Lookup(c, s) == c[0].degree;
      }
    }
  }

  /** Counting in the current batch changes the newest entry and the batch's degree alike. */
  lemma CountKeeps(c: seq<Snap>, hist: seq<Degree>, capacity: nat, degree: Degree)
    requires Faithful(c, hist, capacity) && c != [] && c[0].id == |hist| - 1
    ensures Faithful(c[0 := Snap(c[0].id, degree)], hist[|hist| - 1 := degree], capacity)
  {
    var c' := c[0 := Snap(c[0].id, degree)];
    assert c'[1..] == c[1..];
  }

  // ---------------------------------------------------------------- the linked chain

  class SnapBlob {
    var prev: SnapBlob?
    var addCount: nat
    var delCount: nat
    var snapId: nat

    constructor (id: nat, degree: Degree)
      ensures prev == null && snapId == id && addCount == degree.add && delCount == degree.del
    {
      prev, addCount, delCount, snapId := null, degree.add, degree.del, id;
    }

    function GetDegree(): Degree
      reads this
    {
      Degree(addCount, delCount)
    }
  }

  class SnapChain {
    var snapBlob: SnapBlob?
    ghost var blobs: seq<SnapBlob>

    ghost predicate Valid()
      reads this, blobs
    {
      && (forall i, j :: 0 <= i < j < |blobs| ==> blobs[i] != blobs[j])
      && snapBlob == (if blobs == [] then null else blobs[0])
      && forall i :: 0 <= i < |blobs| ==> blobs[i].prev == Older(i)
    }

    ghost function Older(i: nat): SnapBlob?
      reads this
    {
      if i + 1 < |blobs| then blobs[i + 1] else null
    }

    ghost function Snaps(): (c: seq<Snap>)
      reads this, blobs
      ensures |c| == |blobs|
      ensures forall i :: 0 <= i < |c| ==> c[i] == Snap(blobs[i].snapId, blobs[i].GetDegree())
    {
      seq(|blobs|, i requires 0 <= i < |blobs| reads this, blobs => Snap(blobs[i].snapId, blobs[i].GetDegree()))
    }

    constructor ()
      ensures Valid() && Snaps() == [] && blobs == []
    {
      snapBlob := null;
      blobs := [];
    }

    /** The degree now, or zero if the vertex was never touched. */
    method GetDegree() returns (d: Degree)
      requires Valid()
      ensures d == if Snaps() == [] then ZERO else Snaps()[0].degree
    {
      d := if snapBlob == null then ZERO else snapBlob.GetDegree();
    }

    /** The degree as of a snapshot. */
    method GetDegreeAt(snapId: nat) returns (d: Degree)
      requires Valid()
      ensures d == Lookup(Snaps(), snapId)
    {
      var blob := snapBlob;
      ghost var k := 0;
      while blob != null && snapId < blob.snapId
        invariant Valid()
        invariant k <= |blobs| && blob == (if k < |blobs| then blobs[k] else null)
        invariant Lookup(Snaps(), snapId) == Lookup(Snaps()[k..], snapId)
        decreases |blobs| - k
      {
        assert Snaps()[k..][1..] == Snaps()[k + 1..];
        assert blobs[k].prev == Older(k);
        blob := blob.prev;
        k := k + 1;
      }
      d := if blob == null then ZERO else blob.GetDegree();
    }

    /** Puts a blob that is not in the chain at its front. */
    method SetSnapblob(b: SnapBlob)
      requires Valid() && b !in blobs
      modifies this, b
      ensures Valid() && blobs == [b] + old(blobs)
      ensures Snaps() == [Snap(old(b.snapId), old(b.GetDegree()))] + old(Snaps())
    {
      ghost var rest, snaps := blobs, Snaps();
      b.prev := snapBlob;
      snapBlob := b;
      blobs := [b] + rest;
      forall i | 0 <= i < |rest| ensures rest[i] != b && rest[i].prev == old(Older(i)) {
        assert rest[i] in rest;
      }
      forall i | 0 <= i < |blobs| ensures blobs[i].prev == Older(i) {
        if i > 0 {
          assert blobs[i] == rest[i - 1];
        }
      }
      forall i | 0 < i < |blobs| ensures Snaps()[i] == snaps[i - 1] {
        assert blobs[i] == rest[i - 1];
      }
    }

    /** Walks to the last two blobs. */
    method Oldest() returns (snapCount: nat, blob1: SnapBlob, blob2: SnapBlob)
      requires Valid() && |blobs| >= 2
      ensures snapCount == |blobs| && blob1 == blobs[snapCount - 2] && blob2 == blobs[snapCount - 1]
    {
      assert blobs[0].prev == Older(0);
      snapCount, blob1, blob2 := 2, snapBlob, snapBlob.prev;
      while blob2.prev != null
        invariant 2 <= snapCount <= |blobs| && blob1 == blobs[snapCount - 2] && blob2 == blobs[snapCount - 1]
        decreases |blobs| - snapCount
      {
        assert blobs[snapCount - 1].prev == Older(snapCount - 1);
        blob1 := blob2;
        blob2 := blob2.prev;
        snapCount := snapCount + 1;
      }
      assert blobs[snapCount - 1].prev == Older(snapCount - 1);
    }

    /** Cuts the chain behind its last but one blob. */
    method CutAfter(blob1: SnapBlob)
      requires Valid() && |blobs| >= 2 && blob1 == blobs[|blobs| - 2]
      modifies this, blob1
      ensures Valid() && blobs == old(blobs[..|blobs| - 1]) && old(blobs[|blobs| - 1]) !in blobs
      ensures Snaps() == old(Snaps()[..|blobs| - 1])
    {
      ghost var before := blobs;
      blob1.prev := null;
      blobs := blobs[..|blobs| - 1];
      forall i | 0 <= i < |blobs| ensures blobs[i].prev == Older(i) {
        assert blobs[i] == before[i];
      }
    }

    /** Puts a detached blob in front, with a new id and the newest degree. */
    method Restart(b: SnapBlob, id: nat)
      requires Valid() && b !in blobs && blobs != []
      modifies this, b
      ensures Valid() && blobs == [b] + old(blobs)
      ensures Snaps() == [Snap(id, old(Snaps())[0].degree)] + old(Snaps())
    {
      ghost var snaps := Snaps();
      var newest := snapBlob.GetDegree();
      b.snapId, b.addCount, b.delCount := id, newest.add, newest.del;
      assert Valid() && Snaps() == snaps;
      SetSnapblob(b);
    }

    /** Detaches the oldest blob of a chain at capacity and puts it in front with the new id and the
        newest degree; null if the chain is shorter. */
    method RecycleSnapblob(snapId: nat, capacity: nat) returns (b: SnapBlob?)
      requires Valid() && capacity >= 2
      modifies this, blobs
      ensures Valid() && (b != null <==> old(|blobs|) >= capacity)
      ensures b == null ==> blobs == old(blobs) && Snaps() == old(Snaps())
      ensures b != null ==> old(blobs) != [] && b == old(blobs[|blobs| - 1]) && blobs == [b] + old(blobs[..|blobs| - 1])
      ensures b != null ==> Snaps() == Opened(old(Snaps()), snapId, capacity)
    {
      if snapBlob == null || snapBlob.prev == null {
        assert blobs != [] ==> blobs[0].prev == Older(0);
        return null;
      }
      assert blobs[0].prev == Older(0);
      ghost var before, snaps := blobs, Snaps();
      var snapCount, blob1, blob2 := Oldest();
      if snapCount < capacity {
        return null;
      }
      CutAfter(blob1);
      Restart(blob2, snapId);
      b := blob2;
    }

    /** The blob of batch snapId: the newest one if it is of this batch, else a recycled or new one that
        starts from the newest degree. */
    method Current(snapId: nat, capacity: nat) returns (curr: SnapBlob)
      requires Valid() && capacity >= 2
      requires forall i :: 0 <= i < |blobs| ==> blobs[i].snapId <= snapId
      modifies this, blobs
      ensures Valid() && blobs != [] && curr == blobs[0]
      ensures fresh((set x | x in blobs) - old(set x | x in blobs))
      ensures Snaps() == if old(Snaps()) == [] || old(Snaps())[0].id < snapId
                         then Opened(old(Snaps()), snapId, capacity)
                         else old(Snaps())
    {
      ghost var snaps := Snaps();
      if snapBlob == null || snapBlob.snapId < snapId {
        var degree := if snapBlob == null then ZERO else snapBlob.GetDegree();
        var next := RecycleSnapblob(snapId, capacity);
        if next == null {
          var b := new SnapBlob(snapId, degree);
          SetSnapblob(b);
          next := b;
          assert Snaps() == Opened(snaps, snapId, capacity);
        }
        curr := next;
      } else {
        curr := snapBlob;
      }
    }

    lemma NewestFacts()
      requires Valid() && blobs != []
      ensures snapBlob == blobs[0] && Snaps()[0].degree == blobs[0].GetDegree() && blobs[0].prev == Older(0)
    {
    }

    /** Overwrites the newest degree. */
    method SetNewest(curr: SnapBlob, degree: Degree)
      requires Valid() && blobs != [] && curr == blobs[0]
      modifies curr
      ensures Valid() && Snaps() == old(Snaps())[0 := Snap(old(curr.snapId), degree)]
    {
      curr.addCount, curr.delCount := degree.add, degree.del;
      assert forall i :: 0 < i < |blobs| ==> blobs[i] != curr;
    }

    /** The newest degree without its deletes. */
    method CompressDegree()
      requires Valid() && blobs != [] && Snaps()[0].degree.del <= Snaps()[0].degree.add
      modifies blobs[0]
      ensures Valid()
      ensures var was := old(Snaps())[0];
              Snaps() == old(Snaps())[0 := Snap(was.id, Degree(was.degree.add - was.degree.del, 0))]
    {
      hide Valid;
      NewestFacts();
      var blob := snapBlob;
      SetNewest(blob, Degree(blob.addCount - blob.delCount, 0));
    }

    /** Counts one insert or delete of batch snapId. */
    method Count(isAdd: bool, snapId: nat, capacity: nat, ghost hist: seq<Degree>)
      requires Valid() && capacity >= 2 && |hist| == snapId + 1 && Faithful(Snaps(), hist, capacity)
      modifies this, blobs
      ensures Valid() && fresh((set b | b in blobs) - old(set b | b in blobs))
      ensures Snaps() != [] && Snaps()[0].id == snapId
      ensures Faithful(Snaps(), hist[snapId := Counted(hist[snapId], isAdd)], capacity)
      ensures |Snaps()| > 1 ==> var was := old(Snaps());
                                was != [] &&
                                Snaps()[1..] == (if was[0].id < snapId then Opened(was, snapId, capacity) else was)[1..]
    {
      assert forall i :: 0 <= i < |blobs| ==> Snaps()[i].id <= snapId;
      ghost var c := Snaps();
      if c == [] || c[0].id < snapId {
        OpenKeeps(c, hist, capacity);
      }
      HeadIsNewest(if c == [] || c[0].id < snapId then Opened(c, snapId, capacity) else c, hist, capacity, snapId);
      var curr := Current(snapId, capacity);
      ghost var o := Snaps();
      CountKeeps(o, hist, capacity, Counted(hist[snapId], isAdd));
      SetNewest(curr, Counted(curr.GetDegree(), isAdd));
    }
  }

  /** Changing the newest degree changes the answers from its batch on, and no others. */
  lemma HeadChange(c: seq<Snap>, hist: seq<Degree>, capacity: nat, degree: Degree)
    requires Faithful(c, hist, capacity) && c != []
    ensures Faithful(c[0 := Snap(c[0].id, degree)], ChangedFrom(hist, c[0].id, degree), capacity)
  {
    var c' := c[0 := Snap(c[0].id, degree)];
    assert c'[1..] == c[1..];
  }

  function ChangedFrom<T>(s: seq<T>, from: nat, x: T): seq<T> {
    seq(|s|, i requires 0 <= i < |s| => if i < from then s[i] else x)
  }

  /** The newest entry answers for the newest batch. */
  lemma NewestAnswers(c: seq<Snap>, hist: seq<Degree>, capacity: nat)
    requires Faithful(c, hist, capacity) && capacity > 0
    ensures hist[|hist| - 1] == if c == [] then ZERO else c[0].degree
  {
    assert Lookup(c, |hist| - 1) == hist[|hist| - 1];
  }

  function Counted(d: Degree, isAdd: bool): Degree {
    if isAdd then Degree(d.add + 1, d.del) else Degree(d.add, d.del + 1)
  }

  lemma HeadIsNewest(c: seq<Snap>, hist: seq<Degree>, capacity: nat, id: nat)
    requires Faithful(c, hist, capacity) && c != [] && c[0].id >= id == |hist| - 1
    ensures c[0].id == id && c[0].degree == hist[id]
  {
    assert Lookup(c, id) == hist[id];
  }
}
