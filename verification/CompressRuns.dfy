/** Path compression as atomic steps in any interleaving: every vertex, on its own, reads its label and its
    label's label one at a time and moves up while they differ. */
module CompressRuns {
  import opened Forests
  import opened Sums

  /** Where vertex n is: before the test, after its first or second read, before the assignment, after its
      first or second read, or done. `own` and `again` are values of n's label, `next` of its label's label. */
  datatype Crawl =
    | Test
    | Tested(own: nat)
    | TestedTwice(own: nat, again: nat)
    | Body
    | BodyRead(own: nat)
    | Assign(next: nat)
    | Done

  datatype State = State(comp: seq<nat>, crawls: seq<Crawl>)

  /** The next single read or write of vertex n. */
  function Step(s: State, n: nat): State
    requires n < |s.crawls| == |s.comp| && !s.crawls[n].Done?
  {
    var to := (c: Crawl) => s.(crawls := s.crawls[n := c]);
    match s.crawls[n]
    case Test => to(Tested(s.comp[n]))
    case Tested(own) => to(TestedTwice(own, s.comp[n]))
    case TestedTwice(own, again) => to(if own == Get(s.comp, again) then Done else Body)
    case Body => to(BodyRead(s.comp[n]))
    case BodyRead(own) => to(Assign(Get(s.comp, own)))
    case Assign(next) => to(Test).(comp := s.comp[n := next])
  }

  predicate Legal(s: State, schedule: seq<nat>)
    requires |s.crawls| == |s.comp|
    decreases |schedule|
  {
    schedule == [] ||
    (schedule[0] < |s.crawls| && !s.crawls[schedule[0]].Done? && Legal(Step(s, schedule[0]), schedule[1..]))
  }

  function Exec(s: State, schedule: seq<nat>): State
    requires |s.crawls| == |s.comp| && Legal(s, schedule)
    decreases |schedule|
  {
    if schedule == [] then s else Exec(Step(s, schedule[0]), schedule[1..])
  }

  // ---------------------------------------------------------------- invariant

  /** Only vertex n writes its label, so what it has read of it still holds; above a label that was not a root
      there is a smaller one. */
  predicate CrawlOk(comp: seq<nat>, n: nat, c: Crawl)
    requires n < |comp|
  {
    match c
    case Test => true
    case Tested(own) => own == comp[n]
    case TestedTwice(own, again) => own == again == comp[n]
    case Body => Get(comp, comp[n]) < comp[n]
    case BodyRead(own) => own == comp[n] && Get(comp, own) < own
    case Assign(next) => next < comp[n] && Get(comp, comp[n]) < comp[n]
    case Done => Get(comp, comp[n]) == comp[n]
  }

  /** What a vertex is about to write lies in its own tree. */
  ghost predicate AssignOk(r: seq<nat>, n: nat, c: Crawl)
    requires n < |r|
  {
    c.Assign? ==> c.next < |r| && r[c.next] == r[n]
  }

  ghost predicate Inv(r: seq<nat>, s: State) {
    && Descending(s.comp) && Roots(s.comp) == r && |s.crawls| == |s.comp| == |r|
    && (forall n :: 0 <= n < |r| ==> CrawlOk(s.comp, n, s.crawls[n]))
    && forall n :: 0 <= n < |r| ==> AssignOk(r, n, s.crawls[n])
  }

  /** Labels only fall, and roots stay roots. */
  predicate Lower(comp: seq<nat>, comp': seq<nat>) {
    |comp'| == |comp| && forall i :: 0 <= i < |comp| ==> comp'[i] <= comp[i] && (comp[i] == i ==> comp'[i] == i)
  }

  lemma OthersCarry(comp: seq<nat>, comp': seq<nat>, m: nat, c: Crawl)
    requires Descending(comp) && Descending(comp') && Lower(comp, comp')
    requires m < |comp| && comp'[m] == comp[m] && CrawlOk(comp, m, c)
    ensures CrawlOk(comp', m, c)
  {
  }

  lemma AssignKeeps(r: seq<nat>, s: State, n: nat)
    requires Inv(r, s) && n < |s.comp| && s.crawls[n].Assign?
    ensures Inv(r, Step(s, n)) && Step(s, n).comp[n] < s.comp[n]
  {
    hide Root, Roots;
    var next := s.crawls[n].next;
    assert CrawlOk(s.comp, n, s.crawls[n]) && AssignOk(r, n, s.crawls[n]);
    RootsAt(s.comp, next);
    RootsAt(s.comp, n);
    ShortcutKeepsRoots(s.comp, n, next);
    assert s.comp[n] != n;
    var comp' := s.comp[n := next];
    forall m | 0 <= m < |r| ensures CrawlOk(comp', m, Step(s, n).crawls[m]) && AssignOk(r, m, Step(s, n).crawls[m]) {
      assert CrawlOk(s.comp, m, s.crawls[m]) && AssignOk(r, m, s.crawls[m]);
      if m != n {
        OthersCarry(s.comp, comp', m, s.crawls[m]);
      }
    }
  }

  lemma RootsAt(comp: seq<nat>, x: nat)
    requires Descending(comp) && x < |comp|
    ensures Roots(comp)[x] == Root(comp, x) && comp[x] <= x && Roots(comp)[comp[x]] == Roots(comp)[x]
    ensures Roots(comp)[x] <= x && (comp[x] == x ==> Roots(comp)[x] == x)
  {
  }

  lemma ReadKeeps(r: seq<nat>, s: State, n: nat)
    requires Inv(r, s) && n < |s.comp| && !s.crawls[n].Done? && !s.crawls[n].Assign?
    ensures Inv(r, Step(s, n)) && Step(s, n).comp == s.comp
  {
    hide Root, Roots;
    RootsAt(s.comp, n);
    RootsAt(s.comp, s.comp[n]);
    assert CrawlOk(s.comp, n, s.crawls[n]);
    forall m | 0 <= m < |r| ensures CrawlOk(s.comp, m, Step(s, n).crawls[m]) && AssignOk(r, m, Step(s, n).crawls[m]) {
      assert CrawlOk(s.comp, m, s.crawls[m]) && AssignOk(r, m, s.crawls[m]);
    }
  }

  lemma StepKeeps(r: seq<nat>, s: State, n: nat)
    requires Inv(r, s) && n < |s.crawls| && !s.crawls[n].Done?
    ensures Inv(r, Step(s, n))
  {
    hide Inv;
    if s.crawls[n].Assign? {
      InvShape(r, s);
      AssignKeeps(r, s, n);
    } else {
      InvShape(r, s);
      ReadKeeps(r, s, n);
    }
  }

  lemma InvShape(r: seq<nat>, s: State)
    requires Inv(r, s)
    ensures |s.crawls| == |s.comp| == |r|
  {
  }

  lemma InvRoots(r: seq<nat>, s: State)
    requires Inv(r, s)
    ensures Descending(s.comp) && Roots(s.comp) == r
  {
  }

  /** What is known when a vertex is about to write. */
  lemma AssignFacts(r: seq<nat>, s: State, n: nat)
    requires Inv(r, s) && n < |s.comp| && s.crawls[n].Assign?
    ensures s.crawls[n].next < n && Root(s.comp, s.crawls[n].next) == Root(s.comp, n)
    ensures s.comp[n] < |s.comp| && s.comp[s.comp[n]] != s.comp[n]
    ensures n < |s.crawls| == |s.comp| && Step(s, n).comp == s.comp[n := s.crawls[n].next]
  {
    assert CrawlOk(s.comp, n, s.crawls[n]) && AssignOk(r, n, s.crawls[n]);
  }

  /** No step of any vertex changes a root. */
  lemma {:induction false} RunKeepsRoots(r: seq<nat>, s: State, schedule: seq<nat>)
    requires |s.crawls| == |s.comp| && Inv(r, s) && Legal(s, schedule)
    ensures Inv(r, Exec(s, schedule))
    decreases |schedule|
  {
    hide Inv;
    if schedule != [] {
      StepKeeps(r, s, schedule[0]);
      InvShape(r, Step(s, schedule[0]));
      RunKeepsRoots(r, Step(s, schedule[0]), schedule[1..]);
    }
  }

  // ---------------------------------------------------------------- every schedule ends

  /** Steps until the next assignment. */
  function StepsLeft(c: Crawl): nat {
    match c
    case Test => 6
    case Tested(_) => 5
    case TestedTwice(_, _) => 4
    case Body => 3
    case BodyRead(_) => 2
    case Assign(_) => 1
    case Done => 0
  }

  function Lefts(s: State): seq<nat>
    requires |s.crawls| == |s.comp|
  {
    seq(|s.comp|, n requires 0 <= n < |s.comp| => 6 * s.comp[n] + StepsLeft(s.crawls[n]))
  }

  /** Every read and every write lowers the same sum, so no schedule goes on forever. */
  lemma StepDescends(r: seq<nat>, s: State, n: nat)
    requires |s.crawls| == |s.comp| && Inv(r, s) && n < |s.crawls| && !s.crawls[n].Done?
    ensures SumSeq(Lefts(Step(s, n))) < SumSeq(Lefts(s))
  {
    hide Root, Roots;
    assert CrawlOk(s.comp, n, s.crawls[n]);
    var before, after := Lefts(s), Lefts(Step(s, n));
    assert after == before[n := after[n]];
    SumUpdate(before, n, after[n]);
  }

  /** Any run can be carried on until every vertex is done. */
  lemma {:induction false} RunEnds(r: seq<nat>, s: State) returns (schedule: seq<nat>)
    requires |s.crawls| == |s.comp| && Inv(r, s)
    ensures Legal(s, schedule) && forall n :: 0 <= n < |Exec(s, schedule).crawls| ==> Exec(s, schedule).crawls[n].Done?
    decreases SumSeq(Lefts(s))
  {
    hide Inv, Lefts, Step;
    if n: nat :| n < |s.crawls| && !s.crawls[n].Done? {
      StepDescends(r, s, n);
      StepKeeps(r, s, n);
      InvShape(r, Step(s, n));
      var rest := RunEnds(r, Step(s, n));
      schedule := [n] + rest;
      assert schedule[1..] == rest;
    } else {
      schedule := [];
    }
  }

  // ---------------------------------------------------------------- complete runs

  /** comp' is what some complete schedule of the vertices makes of comp. */
  ghost predicate Compressed(comp: seq<nat>, comp': seq<nat>) {
    exists schedule :: CompressedBy(comp, comp', schedule)
  }

  function Start(comp: seq<nat>): State {
    State(comp, seq(|comp|, _ => Test))
  }

  ghost predicate CompressedBy(comp: seq<nat>, comp': seq<nat>, schedule: seq<nat>) {
    Legal(Start(comp), schedule) &&
    var e := Exec(Start(comp), schedule);
    e.comp == comp' && forall n :: 0 <= n < |e.crawls| ==> e.crawls[n].Done?
  }

  /** Whatever the interleaving, a complete compression ends with every label at its root. */
  lemma CompressedToRoots(comp: seq<nat>, comp': seq<nat>)
    requires Descending(comp) && Compressed(comp, comp')
    ensures comp' == Roots(comp)
  {
    hide Roots;
    var schedule :| CompressedBy(comp, comp', schedule);
    StartInv(comp);
    RunKeepsRoots(Roots(comp), Start(comp), schedule);
    var e := Exec(Start(comp), schedule);
    forall n | 0 <= n < |comp'| ensures comp'[n] == Roots(comp)[n] {
      assert CrawlOk(comp', n, e.crawls[n]) && Descending(comp');
      RootOfLabel(comp', n);
    }
  }

  /** And there is one. */
  lemma CanCompress(comp: seq<nat>)
    requires Descending(comp)
    ensures Compressed(comp, Roots(comp))
  {
    hide Roots;
    StartInv(comp);
    var schedule := RunEnds(Roots(comp), Start(comp));
    assert CompressedBy(comp, Exec(Start(comp), schedule).comp, schedule);
    CompressedToRoots(comp, Exec(Start(comp), schedule).comp);
  }

  lemma StartInv(comp: seq<nat>)
    requires Descending(comp)
    ensures Inv(Roots(comp), Start(comp))
  {
  }

  lemma RootOfLabel(comp: seq<nat>, n: nat)
    requires Descending(comp) && n < |comp| && Get(comp, comp[n]) == comp[n]
    ensures Roots(comp)[n] == comp[n]
  {
    assert Root(comp, comp[n]) == comp[n];
  }
}
