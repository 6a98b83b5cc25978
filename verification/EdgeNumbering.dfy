/** Edge ids: the position of an edge in its vertex's list, offset by a blocked prefix sum of degrees. */
module EdgeNumbering {
  import opened Graphs
  import opened Sets

  /** The sum of the first i degrees. */
  function Prefix(degrees: seq<nat>, i: nat): nat
    requires i <= |degrees|
  {
    if i == 0 then 0 else Prefix(degrees, i - 1) + degrees[i - 1]
  }

  lemma {:induction false} PrefixMonotone(degrees: seq<nat>, i: nat, j: nat)
    requires i <= j <= |degrees|
    ensures Prefix(degrees, i) <= Prefix(degrees, j)
  {
    if i < j {
      PrefixMonotone(degrees, i, j - 1);
    }
  }

  /** Where a block begins, or the end of the array for the one past the last. */
  function BlockStart(block: nat, size: nat, n: nat): nat {
    Min(block * size, n)
  }

  /** First pass: the sum of every block. */
  method BlockSums(degrees: seq<nat>, size: nat, blocks: nat) returns (sums: array<nat>)
    requires size > 0 && blocks == (|degrees| + size - 1) / size
    ensures fresh(sums) && sums.Length == blocks
    ensures forall b :: 0 <= b < blocks ==>
      Prefix(degrees, BlockStart(b, size, |degrees|)) + sums[b] == Prefix(degrees, BlockStart(b + 1, size, |degrees|))
  {
    sums := new nat[blocks];
    for block := 0 to blocks
      invariant forall b :: 0 <= b < block ==>
        Prefix(degrees, BlockStart(b, size, |degrees|)) + sums[b] == Prefix(degrees, BlockStart(b + 1, size, |degrees|))
    {
      var lsum := 0;
      BlockBounds(|degrees|, size, block);
      for i := BlockStart(block, size, |degrees|) to BlockStart(block + 1, size, |degrees|)
        invariant Prefix(degrees, BlockStart(block, size, |degrees|)) + lsum == Prefix(degrees, i)
      {
        lsum := lsum + degrees[i];
      }
      sums[block] := lsum;
    }
  }

  /** Second pass: what precedes every block. */
  method BulkPrefix(degrees: seq<nat>, size: nat, sums: array<nat>) returns (bulk: array<nat>)
    requires size > 0 && sums.Length == (|degrees| + size - 1) / size
    requires forall b :: 0 <= b < sums.Length ==>
      Prefix(degrees, BlockStart(b, size, |degrees|)) + sums[b] == Prefix(degrees, BlockStart(b + 1, size, |degrees|))
    ensures fresh(bulk) && bulk.Length == sums.Length + 1
    ensures forall b :: 0 <= b <= sums.Length ==> bulk[b] == Prefix(degrees, BlockStart(b, size, |degrees|))
  {
    bulk := new nat[sums.Length + 1];
    var total := 0;
    assert BlockStart(0, size, |degrees|) == 0;
    for block := 0 to sums.Length
      invariant total == Prefix(degrees, BlockStart(block, size, |degrees|))
      invariant forall b :: 0 <= b < block ==> bulk[b] == Prefix(degrees, BlockStart(b, size, |degrees|))
    {
      bulk[block] := total;
      total := total + sums[block];
    }
    bulk[sums.Length] := total;
  }

  /** Sums blocks, then prefixes of block sums, then prefixes inside each block. */
  method ParallelPrefixSum(degrees: seq<nat>, prefix: array<nat>, blockSize: nat)
    requires blockSize > 0 && prefix.Length == |degrees| + 1
    modifies prefix
    ensures forall i :: 0 <= i <= |degrees| ==> prefix[i] == Prefix(degrees, i)
  {
    hide Prefix;
    var n := |degrees|;
    var numBlocks := (n + blockSize - 1) / blockSize;
    var localSums := BlockSums(degrees, blockSize, numBlocks);
    var bulk := BulkPrefix(degrees, blockSize, localSums);
    ghost var bulkSeq := bulk[..];
    for block := 0 to numBlocks
      invariant bulk[..] == bulkSeq
      invariant forall i :: 0 <= i < BlockStart(block, blockSize, n) ==> prefix[i] == Prefix(degrees, i)
    {
      BlockBounds(n, blockSize, block);
      FillBlock(degrees, prefix, BlockStart(block, blockSize, n), BlockStart(block + 1, blockSize, n), bulk[block]);
    }
    BlocksCover(n, blockSize);
    prefix[n] := bulk[numBlocks];
  }

  /** Third pass over one block, from what precedes it. */
  method FillBlock(degrees: seq<nat>, prefix: array<nat>, lo: nat, hi: nat, before: nat)
    requires lo <= hi <= |degrees| && prefix.Length == |degrees| + 1 && before == Prefix(degrees, lo)
    requires forall k :: 0 <= k < lo ==> prefix[k] == Prefix(degrees, k)
    modifies prefix
    ensures forall k :: 0 <= k < hi ==> prefix[k] == Prefix(degrees, k)
  {
    hide Prefix;
    var localTotal := before;
    for i := lo to hi
      invariant localTotal == Prefix(degrees, i)
      invariant forall k :: 0 <= k < i ==> prefix[k] == Prefix(degrees, k)
    {
      prefix[i] := localTotal;
      PrefixNext(degrees, i);
      localTotal := localTotal + degrees[i];
    }
  }

  lemma PrefixNext(degrees: seq<nat>, i: nat)
    requires i < |degrees|
    ensures Prefix(degrees, i + 1) == Prefix(degrees, i) + degrees[i]
  {
  }

  lemma BlocksCover(n: nat, size: nat)
    requires size > 0
    ensures var blocks := (n + size - 1) / size;
            BlockStart(blocks, size, n) == n && (blocks > 0 ==> (blocks - 1) * size < n)
  {
    var blocks := (n + size - 1) / size;
    assert blocks * size + (n + size - 1) % size == n + size - 1;
    assert (blocks - 1) * size == blocks * size - size;
  }

  lemma BlockBounds(n: nat, size: nat, block: nat)
    requires size > 0 && block < (n + size - 1) / size
    ensures BlockStart(block, size, n) == block * size < n
    ensures BlockStart(block, size, n) <= BlockStart(block + 1, size, n)
  {
    BlocksCover(n, size);
    var blocks := (n + size - 1) / size;
    assert block <= blocks - 1;
    Times(block, blocks - 1, size);
    assert (block + 1) * size == block * size + size;
  }

  lemma Times(a: nat, b: nat, c: nat)
    requires a <= b
    ensures a * c <= b * c
  {
  }

  function Degrees(g: Adj): seq<nat> {
    seq(|g|, u requires 0 <= u < |g| => |g[u]|)
  }

  /** prefix holds, per vertex, the id of its first edge. */
  ghost predicate EdgeIds(g: Adj, prefix: seq<nat>) {
    |prefix| == |g| + 1 && forall i :: 0 <= i <= |g| ==> prefix[i] == Prefix(Degrees(g), i)
  }

  function GetEdgeId(prefix: seq<nat>, u: nat, local: nat): nat
    requires u < |prefix|
  {
    prefix[u] + local
  }

  /** Edge ids stay below the number of edges. */
  lemma EdgeIdInRange(g: Adj, prefix: seq<nat>, u: nat, j: nat)
    requires EdgeIds(g, prefix) && u < |g| && j < |g[u]|
    ensures GetEdgeId(prefix, u, j) < prefix[u + 1] <= prefix[|g|]
  {
    PrefixMonotone(Degrees(g), u + 1, |g|);
  }

  /** No two edges share an id. */
  lemma EdgeIdsInjective(g: Adj, prefix: seq<nat>, u: nat, j: nat, v: nat, k: nat)
    requires EdgeIds(g, prefix) && u < |g| && j < |g[u]| && v < |g| && k < |g[v]|
    requires GetEdgeId(prefix, u, j) == GetEdgeId(prefix, v, k)
    ensures u == v && j == k
  {
    EdgeIdInRange(g, prefix, u, j);
    EdgeIdInRange(g, prefix, v, k);
    if u < v {
      PrefixMonotone(Degrees(g), u + 1, v);
    } else if v < u {
      PrefixMonotone(Degrees(g), v + 1, u);
    }
  }

  /** And every number below the number of edges is one. */
  lemma {:induction false} EdgeIdsCover(g: Adj, prefix: seq<nat>, n: nat, id: nat) returns (u: nat, j: nat)
    requires EdgeIds(g, prefix) && n <= |g| && id < prefix[n]
    ensures u < n && j < |g[u]| && GetEdgeId(prefix, u, j) == id
    decreases n
  {
    assert n > 0 && prefix[n] == prefix[n - 1] + |g[n - 1]|;
    if id >= prefix[n - 1] {
      u, j := n - 1, id - prefix[n - 1];
    } else {
      u, j := EdgeIdsCover(g, prefix, n - 1, id);
    }
  }
}
