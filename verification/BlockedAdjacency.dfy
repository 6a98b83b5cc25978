/** The blocked adjacency list: per vertex a chain of fixed-size edge blocks of which only the last has
    room, iterated block by block. */
module BlockedAdjacency {

  const BLOCK_SIZE := 1022

  class EdgeBlock {
    const block: array<nat>
    var next: EdgeBlock?

    constructor (first: nat)
      ensures fresh(block) && block.Length == BLOCK_SIZE && block[0] == first && next == null
    {
      block := new nat[BLOCK_SIZE](_ => 0);
      next := null;
      new;
      block[0] := first;
    }
  }

  function BlockCount(degree: nat): nat {
    (degree + BLOCK_SIZE - 1) / BLOCK_SIZE
  }

  lemma FullBlocks(degree: nat)
    requires degree % BLOCK_SIZE == 0
    ensures BlockCount(degree) == degree / BLOCK_SIZE && BlockCount(degree + 1) == degree / BLOCK_SIZE + 1
  {
  }

  class Vertex {
    var head: EdgeBlock?
    var tail: EdgeBlock?
    var degree: nat
    ghost var blocks: seq<EdgeBlock>
    ghost var dests: seq<nat>
    ghost var repr: set<object>

    ghost function After(k: nat): EdgeBlock?
      reads this
    {
      if k + 1 < |blocks| then blocks[k + 1] else null
    }

    ghost predicate BlockOk(k: nat)
      requires k < |blocks|
      reads this, blocks[k]
    {
      blocks[k] in repr && blocks[k].block in repr && blocks[k].block.Length == BLOCK_SIZE && blocks[k].next == After(k)
    }

    /** Where destination i is stored. */
    ghost predicate Stored(i: nat)
      reads this, repr
    {
      && i < |dests| && i / BLOCK_SIZE < |blocks|
      && blocks[i / BLOCK_SIZE] in repr && blocks[i / BLOCK_SIZE].block in repr
      && blocks[i / BLOCK_SIZE].block.Length == BLOCK_SIZE
      && blocks[i / BLOCK_SIZE].block[i % BLOCK_SIZE] == dests[i]
    }

    ghost predicate Valid()
      reads this, repr
    {
      && this in repr && degree == |dests| && |blocks| == BlockCount(degree)
      && (forall k :: 0 <= k < |blocks| ==> blocks[k] in repr && blocks[k] != this as object)
      && (forall k :: 0 <= k < |blocks| ==> BlockOk(k))
      && (forall k, l :: 0 <= k < l < |blocks| ==> blocks[k] != blocks[l] && blocks[k].block != blocks[l].block)
      && head == (if blocks == [] then null else blocks[0])
      && tail == (if blocks == [] then null else blocks[|blocks| - 1])
      && forall i :: 0 <= i < degree ==> Stored(i)
    }

    lemma HasBlock(i: nat)
      requires Valid() && i < |dests|
      ensures i / BLOCK_SIZE < |blocks|
    {
    }

    constructor ()
      ensures Valid() && dests == [] && fresh(repr)
    {
      head, tail, degree := null, null, 0;
      blocks, dests, repr := [], [], {this};
    }

    /** Appends one destination under the vertex's lock. */
    method Append(dst: nat)
      requires Valid()
      modifies repr
      ensures Valid() && dests == old(dests) + [dst]
      ensures old(blocks) <= blocks && fresh(repr - old(repr))
    {
      if degree == 0 || degree % BLOCK_SIZE == 0 {
        OpenBlock(dst);
      } else {
        PutTail(dst);
      }
    }

    /** A new block behind the full ones. */
    method OpenBlock(dst: nat)
      requires Valid() && degree % BLOCK_SIZE == 0
      modifies repr
      ensures Valid() && dests == old(dests) + [dst]
      ensures old(blocks) <= blocks && fresh(repr - old(repr))
    {
      hide BlockCount;
      FullBlocks(degree);
      ghost var was, wasDests := blocks, dests;
      var curr := new EdgeBlock(dst);
      if degree == 0 {
        head := curr;
      } else {
        assert BlockOk(|blocks| - 1);
        tail.next := curr;
      }
      tail := curr;
      degree := degree + 1;
      blocks, dests, repr := was + [curr], wasDests + [dst], repr + {curr, curr.block};
      forall k | 0 <= k < |blocks| ensures BlockOk(k) {
        if k < |was| {
          assert blocks[k] == was[k] && old(BlockOk(k));
        }
      }
      forall i | 0 <= i < degree ensures Stored(i) {
        if i < |wasDests| {
          assert old(Stored(i)) && blocks[i / BLOCK_SIZE] == was[i / BLOCK_SIZE];
        }
      }
    }

    /** The next free slot of the last block. */
    method PutTail(dst: nat)
      requires Valid() && degree % BLOCK_SIZE != 0
      modifies repr
      ensures Valid() && dests == old(dests) + [dst]
      ensures blocks == old(blocks) && repr == old(repr)
    {
      ghost var last, wasDests := |blocks| - 1, dests;
      assert BlockOk(last) && degree / BLOCK_SIZE == last;
      tail.block[degree % BLOCK_SIZE] := dst;
      degree := degree + 1;
      dests := wasDests + [dst];
      forall k | 0 <= k < |blocks| ensures BlockOk(k) {
        assert old(BlockOk(k));
      }
      forall i | 0 <= i < degree ensures Stored(i) {
        if i < |wasDests| {
          assert old(Stored(i));
        }
      }
    }
  }

  // ---------------------------------------------------------------- the graph

  function Total(lists: seq<seq<nat>>): nat {
    if lists == [] then 0 else Total(lists[..|lists| - 1]) + |lists[|lists| - 1]|
  }

  lemma {:induction false} TotalAppend(lists: seq<seq<nat>>, u: nat, x: nat)
    requires u < |lists|
    ensures Total(lists[u := lists[u] + [x]]) == Total(lists) + 1
  {
    var after := lists[u := lists[u] + [x]];
    if u == |lists| - 1 {
      assert after[..u] == lists[..u];
    } else {
      assert after[..|lists| - 1] == lists[..|lists| - 1][u := lists[u] + [x]];
      TotalAppend(lists[..|lists| - 1], u, x);
    }
  }

  lemma {:induction false} TotalEmpty(lists: seq<seq<nat>>)
    requires forall v :: 0 <= v < |lists| ==> lists[v] == []
    ensures Total(lists) == 0
  {
    if lists != [] {
      TotalEmpty(lists[..|lists| - 1]);
    }
  }

  /** The destinations of u among the edges, in order. */
  function DestsOf(edges: seq<(nat, nat)>, u: nat): seq<nat> {
    if edges == [] then []
    else DestsOf(edges[..|edges| - 1], u) + if edges[|edges| - 1].0 == u then [edges[|edges| - 1].1] else []
  }

  class BlockedGraph {
    const vertices: seq<Vertex>
    var numEdges: nat

    ghost predicate Separate()
      reads vertices
    {
      && (forall v :: 0 <= v < |vertices| ==> this as object !in vertices[v].repr && vertices[v] in vertices[v].repr)
      && forall u, v :: 0 <= u < v < |vertices| ==> vertices[u].repr !! vertices[v].repr
    }

    ghost predicate VerticesValid()
      reads vertices, set v, o | 0 <= v < |vertices| && o in vertices[v].repr :: o
    {
      Separate() && forall v :: 0 <= v < |vertices| ==> vertices[v].Valid()
    }

    /** The adjacency lists, in insertion order. */
    ghost function Lists(): (lists: seq<seq<nat>>)
      reads vertices
      ensures |lists| == |vertices| && forall v :: 0 <= v < |lists| ==> lists[v] == vertices[v].dests
    {
      seq(|vertices|, v requires 0 <= v < |vertices| reads vertices => vertices[v].dests)
    }

    ghost predicate Valid()
      reads this, vertices, set v, o | 0 <= v < |vertices| && o in vertices[v].repr :: o
    {
      VerticesValid() && numEdges == Total(Lists())
    }

    /** A graph that holds the base edges. */
    constructor (count: nat, edges: seq<(nat, nat)>)
      requires forall i :: 0 <= i < |edges| ==> edges[i].0 < count
      ensures Valid() && |vertices| == count && numEdges == |edges|
      ensures forall v :: 0 <= v < count ==> Lists()[v] == DestsOf(edges, v)
    {
      hide Vertex.Valid;
      var vs := NewVertices(count);
      vertices := vs;
      numEdges := |edges|;
      new;
      LoadBase(edges);
    }

    /** Loads the base edges: one append per listed edge, in some serial order of the vertex locks. */
    method LoadBase(edges: seq<(nat, nat)>)
      requires VerticesValid() && forall v :: 0 <= v < |vertices| ==> Lists()[v] == []
      requires forall i :: 0 <= i < |edges| ==> edges[i].0 < |vertices|
      modifies set v, o | 0 <= v < |vertices| && o in vertices[v].repr :: o
      ensures VerticesValid() && numEdges == old(numEdges) && Total(Lists()) == |edges|
      ensures forall v :: 0 <= v < |vertices| ==> Lists()[v] == DestsOf(edges, v)
    {
      hide Vertex.Valid, Total;
      TotalEmpty(Lists());
      for i := 0 to |edges|
        invariant VerticesValid() && numEdges == old(numEdges) && Total(Lists()) == i
        invariant forall v :: 0 <= v < |vertices| ==> fresh(vertices[v].repr - old(vertices[v].repr))
        invariant forall v :: 0 <= v < |vertices| ==> Lists()[v] == DestsOf(edges[..i], v)
      {
        assert edges[..i + 1][..i] == edges[..i];
        TotalAppend(Lists(), edges[i].0, edges[i].1);
        AppendTo(edges[i].0, edges[i].1);
      }
      assert edges[..|edges|] == edges;
    }

    static method NewVertices(count: nat) returns (vs: seq<Vertex>)
      ensures |vs| == count && forall v :: 0 <= v < count ==>
        vs[v].Valid() && fresh(vs[v].repr) && vs[v].dests == [] && vs[v] in vs[v].repr
      ensures forall u, v :: 0 <= u < v < count ==> vs[u].repr !! vs[v].repr
    {
      vs := [];
      for i := 0 to count
        invariant |vs| == i && forall v :: 0 <= v < i ==>
          vs[v].Valid() && fresh(vs[v].repr) && vs[v].dests == [] && vs[v] in vs[v].repr
        invariant forall u, v :: 0 <= u < v < i ==> vs[u].repr !! vs[v].repr
      {
        var x := new Vertex();
        assert forall v :: 0 <= v < i ==> vs[v].repr !! x.repr;
        vs := vs + [x];
      }
    }

    /** Appends to one vertex; the others are untouched. */
    method AppendTo(src: nat, dst: nat)
      requires VerticesValid() && src < |vertices|
      modifies vertices[src].repr
      ensures VerticesValid() && Lists() == old(Lists())[src := old(Lists())[src] + [dst]]
      ensures numEdges == old(numEdges)
      ensures forall v :: 0 <= v < |vertices| ==> old(vertices[v].blocks) <= vertices[v].blocks
      ensures fresh(vertices[src].repr - old(vertices[src].repr))
      ensures forall v :: 0 <= v < |vertices| && v != src ==> vertices[v].repr == old(vertices[v].repr)
    {
      hide Vertex.Valid;
      vertices[src].Append(dst);
    }

    /** Adds one edge to a graph in use. */
    method Insert(src: nat, dst: nat)
      requires Valid() && src < |vertices|
      modifies this, vertices[src].repr
      ensures Valid() && Lists() == old(Lists())[src := old(Lists())[src] + [dst]]
      ensures numEdges == old(numEdges) + 1
      ensures forall v :: 0 <= v < |vertices| ==> old(vertices[v].blocks) <= vertices[v].blocks
      ensures fresh(vertices[src].repr - old(vertices[src].repr))
      ensures forall v :: 0 <= v < |vertices| && v != src ==> vertices[v].repr == old(vertices[v].repr)
    {
      hide Vertex.Valid, Total;
      TotalAppend(Lists(), src, dst);
      AppendTo(src, dst);
      numEdges := numEdges + 1;
    }

    /** Any sequence of inserts only extends lists and block chains. */
    method InsertAll(edges: seq<(nat, nat)>)
      requires Valid() && forall i :: 0 <= i < |edges| ==> edges[i].0 < |vertices|
      modifies this, set v, o | 0 <= v < |vertices| && o in vertices[v].repr :: o
      ensures Valid() && numEdges == old(numEdges) + |edges|
      ensures forall v :: 0 <= v < |vertices| ==> old(vertices[v].blocks) <= vertices[v].blocks
      ensures forall v :: 0 <= v < |vertices| ==> old(vertices[v].dests) <= vertices[v].dests
    {
      hide Total, Vertex.Valid;
      for i := 0 to |edges|
        invariant Valid() && numEdges == old(numEdges) + i
        invariant forall v :: 0 <= v < |vertices| ==> fresh(vertices[v].repr - old(vertices[v].repr))
        invariant forall v :: 0 <= v < |vertices| ==> old(vertices[v].blocks) <= vertices[v].blocks
        invariant forall v :: 0 <= v < |vertices| ==> old(vertices[v].dests) <= vertices[v].dests
      {
        ghost var lists := Lists();
        Insert(edges[i].0, edges[i].1);
        assert forall v :: 0 <= v < |vertices| ==> lists[v] <= Lists()[v];
      }
    }
  }

  // ---------------------------------------------------------------- iteration

  /** What out_neigh hands out: the head block, a starting offset and the degree at that moment. */
  datatype Neighborhood = Neighborhood(block: EdgeBlock?, start: nat, degree: nat)

  /** nb was taken from v, now or before later appends. */
  ghost predicate TakenFrom(nb: Neighborhood, v: Vertex)
    reads v
  {
    nb.degree <= |v.dests| && (nb.degree > 0 ==> v.blocks != [] && nb.block == v.blocks[0])
  }

  /** What an iterator's pointer designates: a destination, or memory behind a block's destinations. */
  datatype Seen = Found(dst: nat) | Outside

  /** How far back the walk from a starting offset reads: it starts in the head block whatever the offset. */
  function Lag(start: nat): (n: nat)
    ensures n <= start
  {
    start / BLOCK_SIZE * BLOCK_SIZE
  }

  /** What the walk from `start` finds for destination i. */
  function SeenAt(dests: seq<nat>, start: nat, i: nat): Seen
    requires start <= i < |dests|
  {
    if i == start >= BLOCK_SIZE then Outside else Found(dests[i - Lag(start)])
  }

  /** The whole walk up to a degree. */
  function Walk(dests: seq<nat>, start: nat, degree: nat): seq<Seen>
    requires degree <= |dests|
  {
    if start >= degree then []
    else seq(degree - start, k requires 0 <= k < degree - start => SeenAt(dests, start, start + k))
  }

  /** The destinations from `start` on, as promised. */
  function Promised(dests: seq<nat>, start: nat, degree: nat): seq<Seen>
    requires degree <= |dests|
  {
    if start >= degree then []
    else seq(degree - start, k requires 0 <= k < degree - start => Found(dests[start + k]))
  }

  class Iterator {
    var block: EdgeBlock?
    var idx: nat
    const degree: nat
    var live: bool
    /** Where in the block the pointer is. */
    var pos: nat
    ghost const start: nat

    constructor (nb: Neighborhood)
      ensures block == nb.block && idx == pos == start == nb.start && degree == nb.degree
        && live == (nb.start < nb.degree)
    {
      block, idx, degree := nb.block, nb.start, nb.degree;
      pos, start := nb.start, nb.start;
      live := nb.start < nb.degree;
    }

    /** The block is as many blocks behind that of destination idx as the start was. */
    ghost predicate PointsInto(v: Vertex)
      reads this, v
    {
      && (live ==>
            && start <= idx < degree <= |v.dests| && idx / BLOCK_SIZE < |v.blocks|
            && block == v.blocks[idx / BLOCK_SIZE - start / BLOCK_SIZE]
            && pos == if idx == start then start else idx % BLOCK_SIZE)
      && (!live ==> idx >= degree)
    }

    method Current(ghost v: Vertex) returns (seen: Seen)
      requires v.Valid() && PointsInto(v) && live
      ensures seen == SeenAt(v.dests, start, idx)
    {
      ghost var behind := idx - Lag(start);
      assert behind / BLOCK_SIZE == idx / BLOCK_SIZE - start / BLOCK_SIZE && behind % BLOCK_SIZE == idx % BLOCK_SIZE;
      assert v.BlockOk(behind / BLOCK_SIZE) && v.Stored(behind);
      seen := if pos < block.block.Length then Found(block.block[pos]) else Outside;
    }

    method Advance(ghost v: Vertex)
      requires v.Valid() && PointsInto(v) && live && this !in v.repr
      modifies this
      ensures PointsInto(v) && idx == old(idx) + 1
    {
      assert v.BlockOk(idx / BLOCK_SIZE - start / BLOCK_SIZE);
      idx := idx + 1;
      if idx == degree {
        live := false;
      } else {
        if idx % BLOCK_SIZE == 0 {
          assert idx / BLOCK_SIZE == old(idx) / BLOCK_SIZE + 1 < |v.blocks|;
          block := block.next;
        } else {
          assert idx / BLOCK_SIZE == old(idx) / BLOCK_SIZE;
        }
        pos := idx % BLOCK_SIZE;
      }
    }
  }

  lemma WalkStarts(dests: seq<nat>, start: nat, degree: nat)
    requires degree <= |dests|
    ensures start >= degree ==> Walk(dests, start, degree) == []
    ensures start <= |dests| ==> Walk(dests, start, start) == []
  {
  }

  lemma WalkNext(dests: seq<nat>, start: nat, i: nat)
    requires start <= i < |dests|
    ensures Walk(dests, start, i + 1) == Walk(dests, start, i) + [SeenAt(dests, start, i)]
  {
    hide SeenAt;
  }

  /** Walks a neighbourhood from begin to end, whatever its starting offset. */
  method Iterate(nb: Neighborhood, ghost v: Vertex) returns (out: seq<Seen>)
    requires v.Valid() && TakenFrom(nb, v)
    ensures out == Walk(v.dests, nb.start, nb.degree)
  {
    hide Walk, SeenAt, Vertex.Valid;
    out := [];
    var it := new Iterator(nb);
    WalkStarts(v.dests, nb.start, nb.degree);
    if nb.start < nb.degree {
      v.HasBlock(nb.start);
    }
    while it.live
      invariant it.PointsInto(v) && it.degree == nb.degree && it.start == nb.start && v.Valid() && it !in v.repr
      invariant nb.start < nb.degree ==> nb.start <= it.idx <= nb.degree
      invariant nb.start < nb.degree ==> out == Walk(v.dests, nb.start, it.idx)
      invariant nb.start >= nb.degree ==> out == [] && !it.live
      decreases nb.degree - it.idx
    {
      WalkNext(v.dests, nb.start, it.idx);
      var seen := it.Current(v);
      out := out + [seen];
      it.Advance(v);
    }
  }

  /** The walk finds the destinations from the offset on exactly if the offset lies in the head block or past
      the end. */
  lemma StartCondition(dests: seq<nat>, start: nat, degree: nat)
    requires degree <= |dests|
    ensures Walk(dests, start, degree) == Promised(dests, start, degree) <==> start < BLOCK_SIZE || start >= degree
  {
    if start < BLOCK_SIZE {
      assert Lag(start) == 0;
      var walk, promised := Walk(dests, start, degree), Promised(dests, start, degree);
      forall k | 0 <= k < |walk| ensures walk[k] == promised[k] {
        assert walk[k] == SeenAt(dests, start, start + k) == Found(dests[start + k]);
      }
    } else if start < degree {
      assert Walk(dests, start, degree)[0] == SeenAt(dests, start, start);
      assert Promised(dests, start, degree)[0] == Found(dests[start]);
    }
  }

  /** Later destinations do not change a walk. */
  lemma WalkPrefix(before: seq<nat>, now: seq<nat>, start: nat)
    requires before <= now
    ensures Walk(now, start, |before|) == Walk(before, start, |before|)
  {
    var a, b := Walk(now, start, |before|), Walk(before, start, |before|);
    forall k | 0 <= k < |a| ensures a[k] == b[k] {
      assert a[k] == SeenAt(now, start, start + k);
      assert b[k] == SeenAt(before, start, start + k);
    }
  }

  /** A vertex with two destinations behind its first block, read from there on: the pointer starts outside the
      block, then finds destination 1 where destination 1023 was promised. */
  method FarStart() returns (dests: seq<nat>, out: seq<Seen>)
    ensures dests == seq(1024, i => i) && out == [Outside, Found(1)]
    ensures Promised(dests, 1022, 1024) == [Found(1022), Found(1023)]
  {
    hide Vertex.Valid, Total;
    var edges: seq<(nat, nat)> := seq(1024, i => (0, i));
    dests := seq(1024, i => i);
    var g := new BlockedGraph(1, edges);
    AllOfOne(edges, 0);
    assert g.Lists()[0] == dests;
    var nb := OutNeigh(g, 0, 1022);
    out := Iterate(nb, g.vertices[0]);
  }

  lemma {:induction false} AllOfOne(edges: seq<(nat, nat)>, u: nat)
    requires forall i :: 0 <= i < |edges| ==> edges[i].0 == u
    ensures DestsOf(edges, u) == seq(|edges|, i requires 0 <= i < |edges| => edges[i].1)
  {
    if edges != [] {
      AllOfOne(edges[..|edges| - 1], u);
    }
  }

  /** out_neigh: the vertex's blocks with the degree at this moment. */
  method OutNeigh(g: BlockedGraph, n: nat, start: nat) returns (nb: Neighborhood)
    requires g.VerticesValid() && n < |g.vertices|
    ensures TakenFrom(nb, g.vertices[n]) && nb.start == start && nb.degree == |g.Lists()[n]|
  {
    nb := Neighborhood(g.vertices[n].head, start, g.vertices[n].degree);
  }

  /** A neighbourhood taken before any later inserts, to this vertex or others, still walks exactly the list as
      it was. */
  method IterateAcrossInserts(g: BlockedGraph, n: nat, start: nat, later: seq<(nat, nat)>) returns (out: seq<Seen>)
    requires g.Valid() && n < |g.vertices|
    requires forall i :: 0 <= i < |later| ==> later[i].0 < |g.vertices|
    modifies g, set v, o | 0 <= v < |g.vertices| && o in g.vertices[v].repr :: o
    ensures g.Valid() && g.numEdges == old(g.numEdges) + |later|
    ensures out == Walk(old(g.Lists())[n], start, |old(g.Lists())[n]|)
    ensures start < BLOCK_SIZE || start >= |old(g.Lists())[n]| ==>
      out == Promised(old(g.Lists())[n], start, |old(g.Lists())[n]|)
  {
    hide Total, Vertex.Valid, Walk, Promised;
    ghost var before := g.Lists();
    var nb := OutNeigh(g, n, start);
    g.InsertAll(later);
    assert before[n] <= g.Lists()[n];
    out := Iterate(nb, g.vertices[n]);
    WalkPrefix(before[n], g.vertices[n].dests, start);
    StartCondition(before[n], start, |before[n]|);
  }
}
