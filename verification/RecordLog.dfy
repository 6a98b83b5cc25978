/** Neighbour records of one vertex in arrival order. A record is a destination id; a delete record
    carries the top bit and names the log position of the insert it cancels. */
module RecordLog {
  import opened Multisets

  /** 32-bit ids; the top bit marks deletes. */
  type Sid = x: int | 0 <= x < 0x1_0000_0000

  const DEL_MASK := 0x8000_0000

  predicate IsDel(x: Sid) {
    x >= DEL_MASK
  }

  function DelSid(x: Sid): Sid {
    if IsDel(x) then x else x + DEL_MASK
  }

  /** Clears the delete bit. */
  function UndelSid(x: Sid): (y: Sid) {
    x % DEL_MASK
  }

  lemma MaskRoundTrip(x: Sid)
    ensures IsDel(DelSid(x)) && !IsDel(UndelSid(x))
    ensures UndelSid(DelSid(x)) == UndelSid(x)
    ensures !IsDel(x) ==> UndelSid(x) == x
    ensures IsDel(x) ==> DelSid(UndelSid(x)) == x
  {
  }

  function DropLast<T>(s: seq<T>): seq<T>
    requires s != []
  {
    s[..|s| - 1]
  }

  function Last<T>(s: seq<T>): T
    requires s != []
  {
    s[|s| - 1]
  }

  /** Positions that hold no neighbour: delete records and the inserts they name. */
  function Dead(r: seq<Sid>): set<nat> {
    if r == [] then {}
    else Dead(DropLast(r)) + if IsDel(Last(r)) then {|r| - 1, UndelSid(Last(r))} else {}
  }

  function Deletes(r: seq<Sid>): (n: nat)
    ensures n <= |r|
  {
    if r == [] then 0 else Deletes(DropLast(r)) + if IsDel(Last(r)) then 1 else 0
  }

  /** Every delete record names an earlier insert that is still live. */
  predicate WellFormed(r: seq<Sid>) {
    r == [] || (WellFormed(DropLast(r))
                && (IsDel(Last(r)) ==> UndelSid(Last(r)) < |r| - 1 && UndelSid(Last(r)) !in Dead(DropLast(r))))
  }

  /** The elements of s outside the positions of bad. */
  function Keep(s: seq<Sid>, bad: set<nat>): multiset<Sid> {
    if s == [] then multiset{}
    else Keep(DropLast(s), bad) + Kept(Last(s), |s| - 1, bad)
  }

  function Kept(x: Sid, position: nat, bad: set<nat>): multiset<Sid> {
    if position in bad then multiset{} else multiset{x}
  }

  /** The current neighbours. */
  function Live(r: seq<Sid>): multiset<Sid> {
    Keep(r, Dead(r))
  }

  lemma {:induction false} DeadInRange(r: seq<Sid>)
    requires WellFormed(r)
    ensures forall i :: i in Dead(r) ==> i < |r|
    ensures forall i :: 0 <= i < |r| && IsDel(r[i]) ==> i in Dead(r)
  {
    if r != [] {
      DeadInRange(DropLast(r));
    }
  }

  /** Each delete accounts for two dead positions. */
  lemma {:induction false} DeadCount(r: seq<Sid>)
    requires WellFormed(r)
    ensures |Dead(r)| == 2 * Deletes(r)
  {
    if r != [] {
      DeadCount(DropLast(r));
      DeadInRange(DropLast(r));
    }
  }

  lemma {:induction false} WellFormedPrefix(r: seq<Sid>, k: nat)
    requires WellFormed(r) && k <= |r|
    ensures WellFormed(r[..k]) && Deletes(r[..k]) <= Deletes(r)
  {
    if k < |r| {
      WellFormedPrefix(DropLast(r), k);
      assert DropLast(r)[..k] == r[..k];
    } else {
      assert r[..k] == r;
    }
  }

  lemma {:induction false} KeepCount(s: seq<Sid>, bad: set<nat>)
    requires forall i :: i in bad ==> i < |s|
    ensures |Keep(s, bad)| == |s| - |bad|
  {
    if s != [] {
      KeepCount(DropLast(s), bad - {|s| - 1});
      KeepLocal(DropLast(s), bad, bad - {|s| - 1});
    } else {
      assert bad == {};
    }
  }

  /** Only positions inside s matter. */
  lemma {:induction false} KeepLocal(s: seq<Sid>, a: set<nat>, b: set<nat>)
    requires forall i: nat :: i < |s| ==> (i in a <==> i in b)
    ensures Keep(s, a) == Keep(s, b)
  {
    if s != [] {
      KeepLocal(DropLast(s), a, b);
    }
  }

  /** The live neighbours number inserts minus deletes. */
  lemma LiveCount(r: seq<Sid>)
    requires WellFormed(r)
    ensures |Live(r)| == |r| - 2 * Deletes(r)
  {
    DeadInRange(r);
    DeadCount(r);
    KeepCount(r, Dead(r));
  }

  lemma {:induction false} LiveHasNoDeletes(s: seq<Sid>, bad: set<nat>)
    requires forall i :: 0 <= i < |s| && IsDel(s[i]) ==> i in bad
    ensures forall x :: x in Keep(s, bad) ==> !IsDel(x)
  {
    if s != [] {
      LiveHasNoDeletes(DropLast(s), bad);
    }
  }

  /** As Keep, for a stretch of a log that starts at position base. */
  function KeepFrom(t: seq<Sid>, base: nat, bad: set<nat>): multiset<Sid> {
    if t == [] then multiset{}
    else KeepFrom(DropLast(t), base, bad) + Kept(Last(t), base + |t| - 1, bad)
  }

  /** A log splits into a prefix and the rest. */
  lemma {:induction false} KeepSplit(s: seq<Sid>, t: seq<Sid>, bad: set<nat>)
    ensures Keep(s + t, bad) == Keep(s, bad) + KeepFrom(t, |s|, bad)
  {
    hide Kept;
    if t == [] {
      assert s + t == s;
    } else {
      KeepSplit(s, DropLast(t), bad);
      assert DropLast(s + t) == s + DropLast(t) && Last(s + t) == Last(t);
    }
  }

  /** The elements of o that are not delete records. */
  function NonDeletes(o: seq<Sid>): multiset<Sid> {
    if o == [] then multiset{}
    else NonDeletes(DropLast(o)) + if IsDel(Last(o)) then multiset{} else multiset{Last(o)}
  }

  lemma NothingKept(base: nat, bad: set<nat>)
    ensures NonDeletes([]) == KeepFrom([], base, bad) == multiset{}
  {
  }

  lemma NonDeletesLast(o: seq<Sid>)
    requires o != []
    ensures NonDeletes(o) == NonDeletes(DropLast(o)) + if IsDel(Last(o)) then multiset{} else multiset{Last(o)}
  {
  }

  lemma KeepFromLast(t: seq<Sid>, base: nat, bad: set<nat>)
    requires t != []
    ensures KeepFrom(t, base, bad) == KeepFrom(DropLast(t), base, bad) + Kept(Last(t), base + |t| - 1, bad)
  {
  }

  /** If o repeats t with the bad positions, and only those, turned into delete records. */
  lemma {:induction false} MarkedIsKept(t: seq<Sid>, base: nat, bad: set<nat>, o: seq<Sid>)
    requires |o| == |t|
    requires forall k :: 0 <= k < |t| ==> if base + k in bad then IsDel(o[k]) else o[k] == t[k] && !IsDel(t[k])
    ensures NonDeletes(o) == KeepFrom(t, base, bad)
  {
    hide NonDeletes, KeepFrom;
    if t == [] {
      NothingKept(base, bad);
    } else {
      MarkedIsKept(DropLast(t), base, bad, DropLast(o));
      NonDeletesLast(o);
      KeepFromLast(t, base, bad);
    }
  }

  /** Writing v into a bad position p makes it good. */
  lemma {:induction false} KeepFill(s: seq<Sid>, bad: set<nat>, p: nat, v: Sid)
    requires p < |s| && p in bad
    ensures Keep(s[p := v], bad - {p}) == Keep(s, bad) + multiset{v}
  {
    hide Keep, Kept;
    if p == |s| - 1 {
      KeepFillLast(s, bad, v);
    } else {
      KeepFill(DropLast(s), bad, p, v);
      KeepFillBefore(s, bad, p, v);
    }
  }

  lemma KeepFillLast(s: seq<Sid>, bad: set<nat>, v: Sid)
    requires s != [] && |s| - 1 in bad
    ensures Keep(s[|s| - 1 := v], bad - {|s| - 1}) == Keep(s, bad) + multiset{v}
  {
    hide Keep, Kept;
    var p := |s| - 1;
    KeepLast(s, bad);
    KeepLast(s[p := v], bad - {p});
    assert DropLast(s[p := v]) == DropLast(s);
    KeepLocal(DropLast(s), bad, bad - {p});
    KeptIs(v, p, bad - {p});
    KeptIs(s[p], p, bad);
  }

  lemma KeepFillBefore(s: seq<Sid>, bad: set<nat>, p: nat, v: Sid)
    requires p < |s| - 1 && p in bad
    requires Keep(DropLast(s)[p := v], bad - {p}) == Keep(DropLast(s), bad) + multiset{v}
    ensures Keep(s[p := v], bad - {p}) == Keep(s, bad) + multiset{v}
  {
    hide Keep, Kept;
    var end := |s| - 1;
    KeepLast(s, bad);
    KeepLast(s[p := v], bad - {p});
    assert DropLast(s[p := v]) == DropLast(s)[p := v];
    KeptIs(s[end], end, bad);
    KeptIs(s[end], end, bad - {p});
    SumSwap(Keep(DropLast(s), bad), multiset{v}, Kept(s[end], end, bad));
  }

  lemma KeepLast(s: seq<Sid>, bad: set<nat>)
    requires s != []
    ensures Keep(s, bad) == Keep(DropLast(s), bad) + Kept(Last(s), |s| - 1, bad)
  {
  }

  lemma KeptIs(x: Sid, p: nat, a: set<nat>)
    ensures Kept(x, p, a) == if p in a then multiset{} else multiset{x}
  {
  }

  lemma {:induction false} KeepAll(s: seq<Sid>, bad: set<nat>)
    requires forall i: nat :: i < |s| ==> i !in bad
    ensures Keep(s, bad) == multiset(s)
  {
    if s != [] {
      KeepAll(DropLast(s), bad);
      assert s == DropLast(s) + [Last(s)];
    }
  }
}
