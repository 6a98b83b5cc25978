/** Reading the live neighbours out of a record log: a prefix with holes, an overflow buffer, and
    the overflow's live records moved into the holes. */
module HoleReading {
  import opened Sets
  import opened RecordLog

  /** After i records of r: the first n are in ptr, the rest in others with dead ones marked, and holes
      lists the dead positions of the prefix. */
  ghost predicate Scanned(r: seq<Sid>, i: nat, n: nat, ptr: seq<Sid>, others: seq<Sid>, holes: seq<nat>) {
    && i <= |r|
    && ptr == r[..Min(i, n)]
    && Distinct(holes) && (forall p: nat :: p in holes <==> p < n && p in Dead(r[..i]))
    && |others| == i - |ptr|
    && forall k :: 0 <= k < |others| ==> if n + k in Dead(r[..i]) then IsDel(others[k]) else others[k] == r[n + k]
  }

  lemma DeadStep(r: seq<Sid>, i: nat)
    requires i < |r|
    ensures Dead(r[..i + 1]) == Dead(r[..i]) + if IsDel(r[i]) then {i, UndelSid(r[i])} else {}
    ensures WellFormed(r) && IsDel(r[i]) ==> UndelSid(r[i]) < i && UndelSid(r[i]) !in Dead(r[..i]) && i !in Dead(r[..i])
  {
    assert DropLast(r[..i + 1]) == r[..i];
    if WellFormed(r) {
      WellFormedPrefix(r, i + 1);
      DeadInRange(r[..i]);
    }
  }

  lemma ScannedLengths(r: seq<Sid>, i: nat, n: nat, ptr: seq<Sid>, others: seq<Sid>, holes: seq<nat>)
    requires Scanned(r, i, n, ptr, others, holes)
    ensures i <= |r| && |ptr| == Min(i, n) && |others| == i - |ptr|
  {
  }

  /** An insert record changes no dead position. */
  lemma InsertStep(r: seq<Sid>, i: nat, n: nat, ptr: seq<Sid>, others: seq<Sid>, holes: seq<nat>)
    requires WellFormed(r) && i < |r| && !IsDel(r[i]) && Scanned(r, i, n, ptr, others, holes)
    ensures i < n ==> Scanned(r, i + 1, n, ptr + [r[i]], others, holes)
    ensures i >= n ==> Scanned(r, i + 1, n, ptr, others + [r[i]], holes)
  {
    hide Dead, WellFormed;
    DeadStep(r, i);
    WellFormedPrefix(r, i);
    DeadInRange(r[..i]);
  }

  /** A delete record in the prefix leaves two holes. */
  lemma PrefixDeleteStep(r: seq<Sid>, i: nat, n: nat, ptr: seq<Sid>, others: seq<Sid>, holes: seq<nat>)
    requires WellFormed(r) && i < |r| && IsDel(r[i]) && i < n && Scanned(r, i, n, ptr, others, holes)
    ensures Scanned(r, i + 1, n, ptr + [r[i]], others, holes + [UndelSid(r[i]), i])
  {
    hide Dead, WellFormed;
    DeadStep(r, i);
  }

  /** A delete record in the overflow that names the prefix leaves a hole there. */
  lemma OverflowHoleStep(r: seq<Sid>, i: nat, n: nat, ptr: seq<Sid>, others: seq<Sid>, holes: seq<nat>)
    requires WellFormed(r) && i < |r| && IsDel(r[i]) && i >= n && Scanned(r, i, n, ptr, others, holes)
    requires UndelSid(r[i]) < n
    ensures Scanned(r, i + 1, n, ptr, others + [r[i]], holes + [UndelSid(r[i])])
  {
    hide Dead;
    DeadStep(r, i);
  }

  /** A delete record in the overflow that names the overflow marks the record it names. */
  lemma OverflowMarkStep(r: seq<Sid>, i: nat, n: nat, ptr: seq<Sid>, others: seq<Sid>, holes: seq<nat>)
    requires WellFormed(r) && i < |r| && IsDel(r[i]) && i >= n && Scanned(r, i, n, ptr, others, holes)
    requires UndelSid(r[i]) >= n
    ensures UndelSid(r[i]) - n < |others|
    ensures Scanned(r, i + 1, n, ptr, (others + [r[i]])[UndelSid(r[i]) - n := r[i]], holes)
  {
    hide Dead;
    DeadStep(r, i);
  }

  /** The holes are among the dead positions, so their array is large enough. */
  lemma HolesFit(r: seq<Sid>, i: nat, n: nat, ptr: seq<Sid>, others: seq<Sid>, holes: seq<nat>)
    requires WellFormed(r) && Scanned(r, i, n, ptr, others, holes)
    ensures |holes| <= 2 * Deletes(r)
  {
    WellFormedPrefix(r, i);
    DeadCount(r[..i]);
    DistinctCard(holes);
    SubsetCard((set p | p in holes), Dead(r[..i]));
  }

  /** Filling: ptr outside the remaining holes, and the live records still in others, are together the
      live neighbours; and ptr minus its holes counts exactly what is missing. */
  ghost predicate Filling(r: seq<Sid>, n: nat, ptr: seq<Sid>, others: seq<Sid>, holes: seq<nat>) {
    && |ptr| == n && Distinct(holes) && (forall p :: p in holes ==> p < n)
    && Keep(ptr, Holes(holes)) + NonDeletes(others) == Live(r)
    && |NonDeletes(others)| == |holes|
  }

  ghost function Holes(holes: seq<nat>): set<nat> {
    set p | p in holes
  }

  /** After the scan there are exactly as many holes as live records beyond the prefix. */
  lemma ScanStartsFilling(r: seq<Sid>, n: nat, ptr: seq<Sid>, others: seq<Sid>, holes: seq<nat>)
    requires WellFormed(r) && n == |r| - 2 * Deletes(r) >= 0 && Scanned(r, |r|, n, ptr, others, holes)
    ensures Filling(r, n, ptr, others, holes)
  {
    hide Dead, Keep, NonDeletes, KeepFrom, WellFormed, Deletes;
    assert r[..|r|] == r;
    assert r == r[..n] + r[n..];
    KeepSplit(r[..n], r[n..], Dead(r));
    KeepLocal(r[..n], Dead(r), Holes(holes));
    DeadInRange(r);
    forall k | 0 <= k < |others|
      ensures if n + k in Dead(r) then IsDel(others[k]) else others[k] == r[n..][k] && !IsDel(r[n..][k])
    {
      assert r[n..][k] == r[n + k];
    }
    MarkedIsKept(r[n..], n, Dead(r), others);
    LiveCount(r);
    DistinctCard(holes);
    KeepCount(ptr, Holes(holes));
  }

  lemma SkipDelete(r: seq<Sid>, n: nat, ptr: seq<Sid>, others: seq<Sid>, holes: seq<nat>)
    requires others != [] && IsDel(Last(others)) && Filling(r, n, ptr, others, holes)
    ensures Filling(r, n, ptr, DropLast(others), holes)
  {
  }

  lemma FillOne(r: seq<Sid>, n: nat, ptr: seq<Sid>, others: seq<Sid>, holes: seq<nat>)
    requires others != [] && !IsDel(Last(others)) && holes != [] && Filling(r, n, ptr, others, holes)
    ensures Last(holes) < n && Filling(r, n, ptr[Last(holes) := Last(others)], DropLast(others), DropLast(holes))
  {
    var p, v := Last(holes), Last(others);
    assert p in holes;
    assert holes == DropLast(holes) + [p];
    assert Holes(DropLast(holes)) == Holes(holes) - {p};
    assert forall q :: q in DropLast(holes) ==> q in holes;
    KeepFill(ptr, Holes(holes), p, v);
  }

  lemma Filled(r: seq<Sid>, n: nat, ptr: seq<Sid>, others: seq<Sid>, holes: seq<nat>)
    requires WellFormed(r) && Filling(r, n, ptr, others, holes) && (others == [] || holes == [])
    ensures multiset(ptr) == Live(r) && forall k :: 0 <= k < |ptr| ==> !IsDel(ptr[k])
  {
    assert |NonDeletes(others)| == 0 && |holes| == 0;
    KeepAll(ptr, Holes(holes));
    DeadInRange(r);
    LiveHasNoDeletes(r, Dead(r));
    forall k | 0 <= k < |ptr| ensures !IsDel(ptr[k]) {
      assert ptr[k] in multiset(ptr);
    }
  }

  // ---------------------------------------------------------------- the buffers of one read

  class HoleReader {
    const n: nat
    const ptr: array<Sid>
    const others: array<Sid>
    const delPos: array<nat>
    var total: nat
    var otherPos: nat
    var idel: nat

    ghost predicate Shape()
      reads this
    {
      && ptr != others
      && ptr as object != delPos && others as object != delPos
      && total <= n <= ptr.Length && otherPos <= others.Length && idel <= delPos.Length
    }

    /** The first i records of r are read. */
    ghost predicate At(r: seq<Sid>, i: nat)
      reads this, ptr, others, delPos
    {
      Shape() && total == Min(i, n) && Scanned(r, i, n, ptr[..total], others[..otherPos], delPos[..idel])
    }

    constructor (target: array<Sid>, addCount: nat, delCount: nat)
      requires delCount <= addCount && addCount - delCount <= target.Length
      ensures Shape() && ptr == target && n == addCount - delCount
      ensures others.Length == 2 * delCount && delPos.Length == 2 * delCount
      ensures total == otherPos == idel == 0
      ensures fresh(others) && fresh(delPos)
    {
      n := addCount - delCount;
      ptr := target;
      others := new Sid[2 * delCount](_ => 0);
      delPos := new nat[2 * delCount](_ => 0);
      total, otherPos, idel := 0, 0, 0;
    }

    method PushHole(pos: nat)
      requires Shape() && idel < delPos.Length
      modifies this`idel, delPos
      ensures Shape() && idel == old(idel) + 1 && delPos[..idel] == old(delPos[..idel]) + [pos]
    {
      ghost var before := delPos[..idel];
      delPos[idel] := pos;
      idel := idel + 1;
      assert delPos[..idel] == before + [pos];
    }

    /** Puts a record into the prefix or behind it; a delete behind the prefix also marks the position it names. */
    method Store(x: Sid, isDel: bool, pos: nat)
      requires Shape() && (total >= n ==> otherPos < others.Length && (isDel && pos >= n ==> pos - n <= otherPos))
      modifies this`total, this`otherPos, ptr, others
      ensures Shape() && delPos[..] == old(delPos[..])
      ensures old(total) < n ==> total == old(total) + 1 && otherPos == old(otherPos)
      ensures old(total) < n ==> ptr[..total] == old(ptr[..total]) + [x] && others[..] == old(others[..])
      ensures old(total) >= n ==> total == old(total) && otherPos == old(otherPos) + 1 && ptr[..] == old(ptr[..])
      ensures old(total) >= n ==>
        var o := old(others[..otherPos]) + [x];
        others[..otherPos] == if isDel && pos >= n then o[pos - n := x] else o
    {
      ghost var p, o := ptr[..total], others[..otherPos];
      if total < n {
        ptr[total] := x;
        total := total + 1;
        assert ptr[..total] == p + [x];
      } else {
        others[otherPos] := x;
        otherPos := otherPos + 1;
        assert others[..otherPos] == o + [x];
        if isDel && pos >= total {
          others[pos - total] := x;
          assert others[..otherPos] == (o + [x])[pos - total := x];
        }
      }
    }

    /** Takes the next record of the log. */
    method Step(x: Sid, ghost r: seq<Sid>, ghost i: nat)
      requires At(r, i) && WellFormed(r) && i < |r| && r[i] == x
      requires |r| <= n + others.Length && 2 * Deletes(r) <= delPos.Length
      modifies this, ptr, others, delPos
      ensures At(r, i + 1)
    {
      hide Dead, WellFormed, Deletes, Scanned;
      ghost var p, o, h := ptr[..total], others[..otherPos], delPos[..idel];
      ScannedLengths(r, i, n, p, o, h);
      var isDel := IsDel(x);
      var pos: nat := 0;
      if isDel {
        pos := UndelSid(x);
        if total < n {
          PrefixDeleteStep(r, i, n, p, o, h);
          HolesFit(r, i + 1, n, p + [x], o, h + [pos, i]);
          PushHole(pos);
          PushHole(total);
          assert h + [pos] + [i] == h + [pos, i];
        } else {
          if pos < n {
            OverflowHoleStep(r, i, n, p, o, h);
            HolesFit(r, i + 1, n, p, o + [x], h + [pos]);
            PushHole(pos);
          } else {
            OverflowMarkStep(r, i, n, p, o, h);
          }
        }
      } else {
        InsertStep(r, i, n, p, o, h);
      }
      Store(x, isDel, pos);
    }

    /** Moves live overflow records into the holes. */
    method Fill(ghost r: seq<Sid>)
      requires At(r, |r|) && WellFormed(r) && n == |r| - 2 * Deletes(r)
      modifies this, ptr
      ensures total == n && multiset(ptr[..n]) == Live(r)
      ensures forall k :: 0 <= k < n ==> !IsDel(ptr[k])
    {
      hide Dead, Keep, NonDeletes;
      ScanStartsFilling(r, n, ptr[..total], others[..otherPos], delPos[..idel]);
      while otherPos != 0 && idel != 0
        invariant Shape() && total == n
        invariant Filling(r, n, ptr[..n], others[..otherPos], delPos[..idel])
        decreases otherPos
      {
        ghost var p, o, h := ptr[..n], others[..otherPos], delPos[..idel];
        otherPos := otherPos - 1;
        assert others[..otherPos] == DropLast(o) && Last(o) == others[otherPos];
        if IsDel(others[otherPos]) {
          SkipDelete(r, n, p, o, h);
          continue;
        }
        FillOne(r, n, p, o, h);
        idel := idel - 1;
        assert delPos[..idel] == DropLast(h) && Last(h) == delPos[idel];
        var pos := delPos[idel];
        ptr[pos] := others[otherPos];
        assert ptr[..n] == p[pos := Last(o)];
      }
      Filled(r, n, ptr[..n], others[..otherPos], delPos[..idel]);
    }
  }
}
