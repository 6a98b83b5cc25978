/** What archiving a batch of edge updates does to the record log of one vertex, and what the log then
    means as a multiset of neighbours. */
module VertexLog {
  import opened Multisets
  import opened RecordLog
  import opened SnapChains

  /** One archived edge of this vertex. */
  datatype Op = Add(dst: Sid) | Del(dst: Sid)

  /** Neighbour ids have 31 bits; the top bit is the delete mark. */
  predicate Plain(ops: seq<Op>) {
    forall i :: 0 <= i < |ops| ==> !IsDel(ops[i].dst)
  }

  function Latest(r: seq<Sid>, x: Sid): (pos: nat)
    requires x in r
    ensures pos < |r| && r[pos] == x && x !in r[pos + 1..]
  {
    if Last(r) == x then |r| - 1
    else
      assert r == DropLast(r) + [Last(r)];
      var pos := Latest(DropLast(r), x);
      assert r[pos + 1..] == DropLast(r)[pos + 1..] + [Last(r)];
      pos
  }

  /** An insert is logged as it is; a delete is logged as the marked position of the latest insert of
      the same id, or dropped if there is none. */
  function Apply(r: seq<Sid>, op: Op): seq<Sid> {
    match op
    case Add(x) => r + [x]
    case Del(x) => if x in r && Latest(r, x) < DEL_MASK then r + [DelSid(Latest(r, x))] else r
  }

  function ApplyAll(r: seq<Sid>, ops: seq<Op>): seq<Sid> {
    if ops == [] then r else Apply(ApplyAll(r, DropLast(ops)), Last(ops))
  }

  /** The reference meaning of a batch: deleting an absent neighbour does nothing. */
  function Neighbours(m: multiset<Sid>, ops: seq<Op>): multiset<Sid> {
    if ops == [] then m else Effect(Neighbours(m, DropLast(ops)), Last(ops))
  }

  function Effect(m: multiset<Sid>, op: Op): multiset<Sid> {
    match op
    case Add(x) => m + multiset{x}
    case Del(x) => m - multiset{x}
  }

  lemma {:induction false} LogGrows(r: seq<Sid>, ops: seq<Op>)
    ensures r <= ApplyAll(r, ops) && |ApplyAll(r, ops)| <= |r| + |ops|
  {
    if ops != [] {
      LogGrows(r, DropLast(ops));
    }
  }

  /** The batch applied up to and including record i. */
  lemma ApplyNext(r: seq<Sid>, ops: seq<Op>, i: nat)
    requires i < |ops|
    ensures ApplyAll(r, ops[..i + 1]) == Apply(ApplyAll(r, ops[..i]), ops[i])
  {
    assert DropLast(ops[..i + 1]) == ops[..i];
  }

  // ---------------------------------------------------------------- meaning of one record

  lemma LiveAdd(r: seq<Sid>, x: Sid)
    requires WellFormed(r) && !IsDel(x)
    ensures WellFormed(r + [x]) && Live(r + [x]) == Live(r) + multiset{x}
  {
    hide Keep;
    var s := r + [x];
    assert DropLast(s) == r && Last(s) == x;
    assert Dead(s) == Dead(r);
    DeadInRange(r);
    KeepLast(s, Dead(s));
  }

  /** Removing one good position from what is kept. */
  lemma {:induction false} KeepWithout(s: seq<Sid>, bad: set<nat>, p: nat)
    requires p < |s| && p !in bad
    ensures Keep(s, bad) == Keep(s, bad + {p}) + multiset{s[p]}
  {
    hide Keep, Kept;
    var most, bad' := DropLast(s), bad + {p};
    KeepLast(s, bad);
    KeepLast(s, bad');
    KeptIs(s[p], p, bad);
    KeptIs(s[p], p, bad');
    if p == |s| - 1 {
      KeepLocal(most, bad, bad');
    } else {
      KeepWithout(most, bad, p);
      assert most[p] == s[p];
      KeptLocal(Last(s), |s| - 1, bad, bad');
      SumSwap(Keep(most, bad'), multiset{s[p]}, Kept(Last(s), |s| - 1, bad));
    }
  }

  lemma KeptLocal(x: Sid, p: nat, a: set<nat>, b: set<nat>)
    requires p in a <==> p in b
    ensures Kept(x, p, a) == Kept(x, p, b)
  {
  }

  /** Deleting a live position removes exactly that neighbour. */
  lemma LiveDelete(r: seq<Sid>, p: nat)
    requires WellFormed(r) && p < |r| && p !in Dead(r) && p < DEL_MASK
    ensures WellFormed(r + [DelSid(p)]) && Live(r + [DelSid(p)]) + multiset{r[p]} == Live(r)
  {
    hide Keep;
    var s := r + [DelSid(p)];
    MaskRoundTrip(p);
    assert DropLast(s) == r;
    assert UndelSid(DelSid(p)) == p;
    assert Dead(s) == Dead(r) + {|r|, p};
    DeadInRange(r);
    KeepWithout(r, Dead(r), p);
    KeepLocal(r, Dead(r) + {p}, Dead(s));
    KeepLast(s, Dead(s));
  }

  lemma {:induction false} LiveOccurs(s: seq<Sid>, bad: set<nat>, x: Sid)
    requires x in Keep(s, bad)
    ensures x in s
  {
    if x in Keep(DropLast(s), bad) {
      LiveOccurs(DropLast(s), bad, x);
    }
  }

  /** Exactly when a logged delete cancels a live insert: the latest insert of the id must still be live.
      A second delete of an id names the same position again. */
  lemma DeleteIsSound(r: seq<Sid>, x: Sid)
    requires WellFormed(r) && !IsDel(x) && |r| <= DEL_MASK
    ensures WellFormed(Apply(r, Del(x))) <==> x !in r || Latest(r, x) !in Dead(r)
  {
    if x in r {
      MaskRoundTrip(Latest(r, x));
      assert UndelSid(DelSid(Latest(r, x))) == Latest(r, x);
      assert DropLast(Apply(r, Del(x))) == r;
    }
  }

  /** The failing family's smallest member: one insert and two deletes of the same neighbour leave more
      deletes than inserts. */
  lemma SecondDeleteUnderflows(x: Sid)
    requires !IsDel(x)
    ensures var r := ApplyAll([], [Add(x), Del(x), Del(x)]);
            !WellFormed(r) && DegreeOf(r) == Degree(1, 2)
  {
    hide Keep, WellFormed, Dead, Deletes, ApplyAll;
    ThreeOps([], Add(x), Del(x), Del(x));
    var r1, r2 := [x], [x, DEL_MASK];
    assert DropLast(r2) == r1 && DropLast(r1) == [];
    assert Latest(r1, x) == 0 && Latest(r2, x) == 0;
    assert Apply([], Add(x)) == r1 && Apply(r1, Del(x)) == r2 && Apply(r2, Del(x)) == r2 + [DEL_MASK];
    DoubleDelete(x);
  }

  lemma ThreeOps(r: seq<Sid>, a: Op, b: Op, c: Op)
    ensures ApplyAll(r, [a, b, c]) == Apply(Apply(Apply(r, a), b), c)
  {
    hide Apply;
    assert DropLast([a, b, c]) == [a, b] && DropLast([a, b]) == [a] && DropLast([a]) == [];
    assert ApplyAll(r, [a]) == Apply(r, a);
    assert ApplyAll(r, [a, b]) == Apply(Apply(r, a), b);
  }

  lemma DoubleDelete(x: Sid)
    requires !IsDel(x)
    ensures var r := [x, DEL_MASK] + [DEL_MASK]; !WellFormed(r) && Deletes(r) == 2
  {
    var r1, r2 := [x], [x, DEL_MASK];
    var r3 := r2 + [DEL_MASK];
    assert DropLast(r3) == r2 && DropLast(r2) == r1 && DropLast(r1) == [];
    assert Deletes(r1) == 0 && Deletes(r2) == 1;
    assert 0 in Dead(r2);
  }

  // ---------------------------------------------------------------- meaning of a batch

  /** As long as the log stays well formed, its live records are the reference neighbours. */
  lemma {:induction false} LogMeansNeighbours(r: seq<Sid>, ops: seq<Op>)
    requires Plain(ops) && WellFormed(ApplyAll(r, ops)) && |r| + |ops| <= DEL_MASK
    ensures WellFormed(r) && Live(ApplyAll(r, ops)) == Neighbours(Live(r), ops)
  {
    hide Keep, Dead;
    if ops != [] {
      var ops0, op := DropLast(ops), Last(ops);
      var before := ApplyAll(r, ops0);
      LogGrows(r, ops0);
      ApplyKeepsPrefix(before, op);
      LogMeansNeighbours(r, ops0);
      match op
      case Add(x) => LiveAdd(before, x);
      case Del(x) =>
        if x in before {
          DeleteIsSound(before, x);
          LiveDelete(before, Latest(before, x));
        } else if x in Live(before) {
          LiveOccurs(before, Dead(before), x);
        }
    }
  }

  lemma ApplyKeepsPrefix(r: seq<Sid>, op: Op)
    requires WellFormed(Apply(r, op))
    ensures WellFormed(r)
  {
    if Apply(r, op) != r {
      assert DropLast(Apply(r, op)) == r;
    }
  }

  // ---------------------------------------------------------------- when every delete is sound

  /** Some update inserts x. */
  predicate Added(ops: seq<Op>, x: Sid) {
    ops != [] && (Last(ops) == Add(x) || Added(DropLast(ops), x))
  }

  /** The last update that names x is an insert. */
  predicate LastIsAdd(ops: seq<Op>, x: Sid) {
    ops != [] && if Last(ops).dst == x then Last(ops).Add? else LastIsAdd(DropLast(ops), x)
  }

  /** No neighbour is deleted again before it is inserted again. */
  predicate NoRepeatedDelete(ops: seq<Op>) {
    ops == [] || (NoRepeatedDelete(DropLast(ops))
                  && (Last(ops).Del? ==>
                        LastIsAdd(DropLast(ops), Last(ops).dst) || !Added(DropLast(ops), Last(ops).dst)))
  }

  /** The log knows which insert of x is the latest, and whether it is live. */
  lemma {:induction false} LogRemembers(ops: seq<Op>, x: Sid)
    requires Plain(ops) && !IsDel(x) && |ops| <= DEL_MASK && WellFormed(ApplyAll([], ops))
    ensures x in ApplyAll([], ops) <==> Added(ops, x)
    ensures x in ApplyAll([], ops) ==> (Latest(ApplyAll([], ops), x) !in Dead(ApplyAll([], ops)) <==> LastIsAdd(ops, x))
  {
    hide Dead, WellFormed, Latest;
    if ops != [] {
      var before, op := ApplyAll([], DropLast(ops)), Last(ops);
      ApplyKeepsPrefix(before, op);
      LogGrows([], DropLast(ops));
      LogRemembers(DropLast(ops), x);
      if op.Add? {
        RemembersRecord(before, op.dst, x);
      } else if op.dst in before {
        RemembersDelete(before, op.dst, x);
      }
    }
  }

  lemma RemembersRecord(r: seq<Sid>, y: Sid, x: Sid)
    requires WellFormed(r + [y]) && !IsDel(x)
    ensures x in r + [y] <==> x in r || x == y
    ensures x == y ==> Latest(r + [y], x) == |r| && |r| !in Dead(r + [y])
    ensures x != y && x in r ==> Latest(r + [y], x) == Latest(r, x)
    ensures x != y && x in r ==>
              (Latest(r, x) in Dead(r + [y]) <==> Latest(r, x) in Dead(r) || (IsDel(y) && UndelSid(y) == Latest(r, x)))
  {
    var s := r + [y];
    assert DropLast(s) == r && Last(s) == y;
    DeadInRange(r);
  }

  lemma RemembersDelete(r: seq<Sid>, y: Sid, x: Sid)
    requires y in r && !IsDel(x) && !IsDel(y) && |r| <= DEL_MASK && WellFormed(Apply(r, Del(y)))
    ensures x in Apply(r, Del(y)) <==> x in r
    ensures x in r ==> Latest(Apply(r, Del(y)), x) == Latest(r, x)
    ensures x in r ==> (Latest(r, x) in Dead(Apply(r, Del(y))) <==> Latest(r, x) in Dead(r) || x == y)
  {
    hide Dead, WellFormed;
    MaskRoundTrip(Latest(r, y));
    assert UndelSid(DelSid(Latest(r, y))) == Latest(r, y);
    RemembersRecord(r, DelSid(Latest(r, y)), x);
  }

  /** The log of a vertex is well formed exactly when no neighbour was deleted twice in a row. */
  lemma {:induction false} WellFormedIff(ops: seq<Op>)
    requires Plain(ops) && |ops| <= DEL_MASK
    ensures WellFormed(ApplyAll([], ops)) <==> NoRepeatedDelete(ops)
  {
    hide Dead, WellFormed;
    if ops == [] {
      EmptyWellFormed();
    } else {
      var before, op := ApplyAll([], DropLast(ops)), Last(ops);
      WellFormedIff(DropLast(ops));
      LogGrows([], DropLast(ops));
      if WellFormed(before) {
        LogRemembers(DropLast(ops), op.dst);
        match op
        case Add(x) => LiveAdd(before, x);
        case Del(x) => DeleteIsSound(before, x);
      } else if WellFormed(Apply(before, op)) {
        ApplyKeepsPrefix(before, op);
      }
    }
  }

  lemma EmptyWellFormed()
    ensures WellFormed([])
  {
  }

  // ---------------------------------------------------------------- counting

  /** Inserts and deletes of a log, as its degree counts them. */
  function DegreeOf(r: seq<Sid>): Degree {
    Degree(|r| - Deletes(r), Deletes(r))
  }

  function Adds(ops: seq<Op>): (n: nat)
    ensures n <= |ops|
  {
    if ops == [] then 0 else (if ops[0].Add? then 1 else 0) + Adds(ops[1..])
  }

  /** The degree counted ahead of the records that are still to be logged. */
  function Ahead(r: seq<Sid>, rest: seq<Op>): (d: Degree)
    ensures d.Total() == |r| + |rest|
  {
    Degree(|r| - Deletes(r) + Adds(rest), Deletes(r) + |rest| - Adds(rest))
  }

  /** Logging a record keeps the counts ahead right, once a dropped delete is uncounted. */
  lemma AheadStep(r: seq<Sid>, rest: seq<Op>)
    requires rest != [] && !IsDel(rest[0].dst) && |r| <= DEL_MASK
    ensures Apply(r, rest[0]) == r ==> Ahead(r, rest).del > 0
    ensures Ahead(Apply(r, rest[0]), rest[1..]) ==
            if Apply(r, rest[0]) == r then Degree(Ahead(r, rest).add, Ahead(r, rest).del - 1) else Ahead(r, rest)
  {
    var s := Apply(r, rest[0]);
    if s != r {
      assert DropLast(s) == r;
      if rest[0].Del? {
        MaskRoundTrip(Latest(r, rest[0].dst));
      }
    }
  }

  lemma {:induction false} AddsAppend(ops: seq<Op>, op: Op)
    ensures Adds(ops + [op]) == Adds(ops) + if op.Add? then 1 else 0
  {
    if ops != [] {
      assert (ops + [op])[1..] == ops[1..] + [op];
      AddsAppend(ops[1..], op);
    } else {
      assert ([] + [op])[1..] == [];
    }
  }

  // ---------------------------------------------------------------- whole runs

  function LogAfter(batches: seq<seq<Op>>): seq<Sid> {
    if batches == [] then [] else ApplyAll(LogAfter(DropLast(batches)), Last(batches))
  }

  function NeighboursAfter(batches: seq<seq<Op>>): multiset<Sid> {
    if batches == [] then multiset{} else Neighbours(NeighboursAfter(DropLast(batches)), Last(batches))
  }

  function Size(batches: seq<seq<Op>>): nat {
    if batches == [] then 0 else Size(DropLast(batches)) + |Last(batches)|
  }

  /** Appended updates, archived log, live neighbours: after any run whose log is well formed the live
      records are the neighbours the updates ask for. */
  lemma {:induction false} RunMeansNeighbours(batches: seq<seq<Op>>)
    requires forall i :: 0 <= i < |batches| ==> Plain(batches[i])
    requires WellFormed(LogAfter(batches)) && Size(batches) <= DEL_MASK
    ensures Live(LogAfter(batches)) == NeighboursAfter(batches) && |LogAfter(batches)| <= Size(batches)
  {
    hide Keep, Dead, WellFormed, Neighbours, ApplyAll;
    if batches == [] {
      NothingLive();
    } else {
      var before := LogAfter(DropLast(batches));
      LogGrows(before, Last(batches));
      PrefixWellFormed(before, LogAfter(batches));
      RunMeansNeighbours(DropLast(batches));
      LogMeansNeighbours(before, Last(batches));
    }
  }

  lemma NothingLive()
    ensures Live([]) == multiset{}
  {
  }

  lemma PrefixWellFormed(r: seq<Sid>, s: seq<Sid>)
    requires WellFormed(s) && r <= s
    ensures WellFormed(r)
  {
    WellFormedPrefix(s, |r|);
    assert s[..|r|] == r;
  }

  /** Without deletes every record is a neighbour. */
  lemma {:induction false} NoDeletesAllLive(r: seq<Sid>)
    requires Deletes(r) == 0
    ensures WellFormed(r) && Dead(r) == {} && Live(r) == multiset(r)
    ensures forall k :: 0 <= k < |r| ==> !IsDel(r[k])
  {
    if r != [] {
      NoDeletesAllLive(DropLast(r));
    }
    KeepAll(r, Dead(r));
  }

  lemma {:induction false} PlainHasNoDeletes(r: seq<Sid>)
    requires forall k :: 0 <= k < |r| ==> !IsDel(r[k])
    ensures Deletes(r) == 0
  {
    if r != [] {
      PlainHasNoDeletes(DropLast(r));
    }
  }
}
