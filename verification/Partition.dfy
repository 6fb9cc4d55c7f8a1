/**
 The split of a range of routes among goroutines. The boundaries leave out the last
 routes unless the remainder is smaller than the size of a share.
 */
module Partition {

  function At(start: int, j: int, size: int): int {
    start + j * size
  }

  /** The boundaries that a partition of `[start, end)` into pieces of `size` ends up with. */
  function Boundaries(start: int, end: int, size: int): (r: seq<int>)
    requires start <= end && 0 < size
    ensures |r| == (end - start) / size + 1
  {
    var k := (end - start) / size;
    seq(k + 1, j requires 0 <= j <= k => if j < k then At(start, j, size) else end)
  }

  lemma Steps(n: int, size: int, k: int)
    requires 0 <= n && 0 < size && 0 <= k
    ensures k * size <= n <==> k <= n / size
  {
    var q := n / size;
    assert n == q * size + n % size;
    if k <= q {
      MultiplyMonotone(k, q, size);
    } else {
      MultiplyMonotone(q + 1, k, size);
      assert (q + 1) * size == q * size + size;
    }
  }

  lemma MultiplyMonotone(a: int, b: int, c: int)
    requires a <= b && 0 <= c
    ensures a * c <= b * c
  {
  }

  lemma AtFacts(start: int, end: int, size: int, j: int)
    requires start <= end && 0 < size && 0 <= j
    ensures At(start, 0, size) == start
    ensures At(start, j + 1, size) == At(start, j, size) + size
    ensures At(start, j, size) <= end <==> j <= (end - start) / size
    ensures (end - start) % size == 0 ==> At(start, (end - start) / size, size) == end
  {
    Steps(end - start, size, j);
    assert (j + 1) * size == j * size + size;
    var n := end - start;
    assert n == (n / size) * size + n % size;
  }

  /** Every piece has the size asked for, the last one the remainder as well; if none fits only the end is left. */
  lemma PiecesAre(start: int, end: int, size: int)
    requires start <= end && 0 < size
    ensures var r, n := Boundaries(start, end, size), end - start;
            && |r| == n / size + 1 && r[|r| - 1] == end
            && (n >= size ==> r[0] == start)
            && (forall j :: 0 <= j < |r| - 2 ==> r[j + 1] - r[j] == size)
            && (n >= size ==> r[|r| - 1] - r[|r| - 2] == size + n % size)
  {
    var r, n := Boundaries(start, end, size), end - start;
    var k := n / size;
    Steps(n, size, 1);
    assert n == k * size + n % size;
    forall j | 0 <= j < k ensures At(start, j + 1, size) - At(start, j, size) == size {
      assert (j + 1) * size == j * size + size;
    }
    assert (k - 1) * size + size == k * size;
  }

  method PartitionRange(start: int, end: int, partitionSize: int) returns (result: seq<int>)
    requires start <= end && 0 < partitionSize
    ensures result == Boundaries(start, end, partitionSize)
  {
    AtFacts(start, end, partitionSize, 0);
    result := [];
    var rangeSize := end - start;
    ghost var k := rangeSize / partitionSize;
    if partitionSize == rangeSize {
      assert k == 1;
      return [start, end];
    }
    hide At;
    var i := start;
    while i <= end
      invariant |result| <= k + 1 && i == At(start, |result|, partitionSize)
      invariant forall j :: 0 <= j < |result| ==> result[j] == At(start, j, partitionSize)
      decreases end - i + partitionSize
    {
      AtFacts(start, end, partitionSize, |result|);
      result := result + [i];
      i := i + partitionSize;
    }
    AtFacts(start, end, partitionSize, |result|);
    if rangeSize % partitionSize > 0 {
      result := result[|result| - 1 := end];
    }
  }

  // ---------------------------------------------------------------- shares

  /** The size of a share: `n` routes among `g` goroutines. */
  function Share(start: int, end: int, g: int): (size: int)
    requires 1 <= g <= end - start
    ensures 0 < size
  {
    Steps(end - start, g, 1);
    (end - start) / g
  }

  function Edges(start: int, end: int, g: int): seq<int>
    requires 1 <= g <= end - start
  {
    Boundaries(start, end, Share(start, end, g))
  }

  /** The range of goroutine `id` runs from `Edges[id]` to `Edges[id + 1]`: both are always there. */
  lemma EdgesInBounds(start: int, end: int, g: int)
    requires 1 <= g <= end - start
    ensures g + 1 <= |Edges(start, end, g)|
  {
    var n, size := end - start, Share(start, end, g);
    Steps(n, g, size);
    Steps(n, size, g);
  }

  /**
   Every goroutine but the last gets `n / g` routes; the last one gets these and the remainder,
   or just these if the remainder is no smaller than a share.
   */
  lemma ShareSizes(start: int, end: int, g: int, id: int)
    requires 1 <= g <= end - start && 0 <= id < g
    ensures g + 1 <= |Edges(start, end, g)|
    ensures var e, n := Edges(start, end, g), end - start;
            && e[0] == start
            && e[id + 1] - e[id] == n / g + if id == g - 1 && n % g < n / g then n % g else 0
  {
    EdgesInBounds(start, end, g);
    var n, size := end - start, Share(start, end, g);
    PiecesAre(start, end, size);
    PieceCount(n, g, size);
    hide Boundaries;
  }

  /** How many pieces of the size of a share there are. */
  lemma PieceCount(n: int, g: int, size: int)
    requires 1 <= g <= n && size == n / g && size > 0
    ensures n >= size
    ensures if n % g < size then n / size == g && n % size == n % g else n / size > g
  {
    assert n == g * size + n % g;
    MultiplyMonotone(1, g, size);
    Steps(n, size, g);
    Steps(n, size, g + 1);
    assert (g + 1) * size == g * size + size;
    Remainder(n, size, n / size);
  }

  lemma Remainder(n: int, size: int, k: int)
    requires 0 < size && n / size == k
    ensures n % size == n - k * size
  {
  }

  /** Where the last share ends. */
  function Reached(start: int, end: int, g: int): (r: int)
    requires 1 <= g <= end - start
  {
    EdgesInBounds(start, end, g);
    Edges(start, end, g)[g]
  }

  /**
   The shares reach the end exactly when the remainder is smaller than a share;
   otherwise exactly the remainder is left out.
   */
  lemma ExactCoverage(start: int, end: int, g: int)
    requires 1 <= g <= end - start
    ensures var n := end - start;
            && (Reached(start, end, g) == end <==> n % g < n / g)
            && (n % g >= n / g ==> Reached(start, end, g) == end - n % g)
  {
    var n, size := end - start, Share(start, end, g);
    EdgesInBounds(start, end, g);
    assert n == g * size + n % g;
    Steps(n, size, g + 1);
    assert (g + 1) * size == g * size + size;
  }

  /** In particular the shares cover everything when there are at least as many routes as goroutines squared. */
  lemma ManyRoutesCovered(start: int, end: int, g: int)
    requires 1 <= g <= end - start && g * g <= end - start
    ensures Reached(start, end, g) == end
  {
    ExactCoverage(start, end, g);
    Steps(end - start, g, g);
  }

  /** With fewer there may be a gap: eleven routes among four goroutines leave out the last three. */
  lemma GapExample()
    ensures Reached(0, 11, 4) == 8
  {
    ExactCoverage(0, 11, 4);
  }

  /** The shares are consecutive and not empty. */
  lemma SharesAreConsecutive(start: int, end: int, g: int, id: int)
    requires 1 <= g <= end - start && 0 <= id < g
    ensures g + 1 <= |Edges(start, end, g)|
    ensures var e := Edges(start, end, g);
            e[0] == start && e[id] < e[id + 1] <= end
  {
    EdgesInBounds(start, end, g);
    var n, size := end - start, Share(start, end, g);
    var k := n / size;
    assert (id + 1) * size == id * size + size;
    Steps(n, size, id + 1);
  }

  lemma {:induction false} EdgesSorted(start: int, end: int, g: int, a: int, b: int)
    requires 1 <= g <= end - start && 0 <= a <= b <= g
    ensures g + 1 <= |Edges(start, end, g)|
    ensures Edges(start, end, g)[a] <= Edges(start, end, g)[b]
    decreases b
  {
    EdgesInBounds(start, end, g);
    if a < b {
      EdgesSorted(start, end, g, a, b - 1);
      SharesAreConsecutive(start, end, g, b - 1);
    }
  }

  predicate InShare(start: int, end: int, g: int, id: int, i: int)
    requires 1 <= g <= end - start && 0 <= id < g
  {
    EdgesInBounds(start, end, g);
    Edges(start, end, g)[id] <= i < Edges(start, end, g)[id + 1]
  }

  lemma {:induction false} ShareOf(start: int, end: int, g: int, i: int, m: int) returns (id: int)
    requires 1 <= g <= end - start && 1 <= m <= g
    requires g + 1 <= |Edges(start, end, g)| && start <= i < Edges(start, end, g)[m]
    ensures 0 <= id < g && InShare(start, end, g, id, i)
  {
    SharesAreConsecutive(start, end, g, m - 1);
    if Edges(start, end, g)[m - 1] <= i {
      id := m - 1;
    } else {
      id := ShareOf(start, end, g, i, m - 1);
    }
  }

  /** Every route up to where the shares reach is in exactly one of them, and no other route is in any. */
  lemma EachRouteInOneShare(start: int, end: int, g: int, i: int)
    requires 1 <= g <= end - start
    ensures (exists id :: 0 <= id < g && InShare(start, end, g, id, i)) <==> start <= i < Reached(start, end, g)
    ensures forall a, b :: 0 <= a < g && 0 <= b < g && InShare(start, end, g, a, i) && InShare(start, end, g, b, i)
              ==> a == b
  {
    EdgesInBounds(start, end, g);
    if start <= i < Reached(start, end, g) {
      var id := ShareOf(start, end, g, i, g);
    }
    forall id | 0 <= id < g && InShare(start, end, g, id, i) ensures start <= i < Reached(start, end, g) {
      EdgesSorted(start, end, g, 0, id);
      EdgesSorted(start, end, g, id + 1, g);
      SharesAreConsecutive(start, end, g, id);
    }
    forall a, b | 0 <= a < g && 0 <= b < g && InShare(start, end, g, a, i) && InShare(start, end, g, b, i)
      ensures a == b
    {
      if a < b { EdgesSorted(start, end, g, a + 1, b); }
      if b < a { EdgesSorted(start, end, g, b + 1, a); }
    }
  }
}
