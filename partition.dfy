// Static work partitioning: `calculate_chunk`, which the crawlers use to
// split the article list across download threads and the preprocessor uses
// to split the HTML files across worker processes, and the dispatch loop
// that hands each worker its slice.
module Partition {
  import opened Text

  /** The pair returned to a surplus worker that gets no work. */
  const NoWork: (int, int) := (-1, -1)

  /**
   * `a * b` on naturals, written as repeated addition so that the proofs
   * about chunk arithmetic below stay linear; MulIsProduct shows it is `*`.
   */
  function Mul(a: nat, b: nat): nat
  {
    if a == 0 then 0 else Mul(a - 1, b) + b
  }

  lemma {:induction false} MulIsProduct(a: nat, b: nat)
    ensures Mul(a, b) == a * b
  {
    if a > 0 {
      MulIsProduct(a - 1, b);
      assert (a - 1) * b + b == a * b;
    }
  }

  lemma {:induction false} MulZero(a: nat)
    ensures Mul(a, 0) == 0
  {
    if a > 0 {
      MulZero(a - 1);
    }
  }

  lemma {:induction false} MulSucc(a: nat, b: nat)
    ensures Mul(a, b + 1) == Mul(a, b) + a
  {
    if a > 0 {
      MulSucc(a - 1, b);
    }
  }

  lemma {:induction false} MulAdd(a: nat, a': nat, b: nat)
    ensures Mul(a + a', b) == Mul(a, b) + Mul(a', b)
  {
    if a > 0 {
      MulAdd(a - 1, a', b);
      assert a + a' - 1 == (a - 1) + a';
    }
  }

  /**
   * The half-open range [lb, ub) of the n items that worker `pid` of `p`
   * processes. When n is not a multiple of p the first n % p workers get
   * one item more; when there are fewer items than workers, workers
   * pid >= n get NoWork.
   */
  function CalculateChunk(n: nat, pid: nat, p: nat): (int, int)
    requires p > 0
  {
    ChunkOf(n, pid, n / p, n % p)
  }

  /** The body of `calculate_chunk` once `chunksize` and `remainder` are computed. */
  function ChunkOf(n: nat, pid: nat, chunksize: nat, remainder: nat): (int, int)
  {
    if remainder != 0 then
      if chunksize == 0 then
        if pid >= n then NoWork else (pid, pid + 1)
      else if pid < remainder then
        (Mul(pid, chunksize + 1), Mul(pid, chunksize + 1) + (chunksize + 1))
      else
        var lb := Mul(remainder, chunksize + 1) + Mul(pid - remainder, chunksize);
        (lb, lb + chunksize)
    else
      (Mul(pid, chunksize), Mul(pid, chunksize) + chunksize)
  }

  function Min(a: int, b: int): int { if a <= b then a else b }

  /** Every branch of `calculate_chunk` computes the same closed form, pid * c + min(pid, r). */
  lemma ChunkOfClosed(n: nat, pid: nat, c: nat, r: nat)
    requires r != 0 && c == 0 ==> n == r
    ensures ChunkOf(n, pid, c, r) ==
      if r != 0 && c == 0 && pid >= n then NoWork
      else (Mul(pid, c) + Min(pid, r), Mul(pid + 1, c) + Min(pid + 1, r))
  {
    if r != 0 && c == 0 {
      MulZero(pid);
      MulZero(pid + 1);
    } else if r != 0 && pid < r {
      MulSucc(pid, c);
    } else if r != 0 {
      MulSucc(r, c);
      MulAdd(r, pid - r, c);
    }
  }

  /** `n // p` and `n % p` put back together give n. */
  lemma DivParts(n: nat, p: nat)
    requires p > 0
    ensures Mul(p, n / p) + n % p == n && n % p < p
  {
    MulIsProduct(p, n / p);
  }

  /**
   * Where worker k's range starts when each worker takes c items and the
   * first r workers one more.
   */
  function BoundaryOf(c: nat, r: nat, k: nat): nat
  {
    if k == 0 then 0 else BoundaryOf(c, r, k - 1) + c + (if k - 1 < r then 1 else 0)
  }

  /** Where worker k's range starts in the balanced partition of n items over p workers. */
  function Boundary(n: nat, p: nat, k: nat): (b: nat)
    requires p > 0
  {
    BoundaryOf(n / p, n % p, k)
  }

  lemma {:induction false} BoundaryOfClosed(c: nat, r: nat, k: nat)
    ensures BoundaryOf(c, r, k) == Mul(k, c) + Min(k, r)
  {
    if k > 0 {
      BoundaryOfClosed(c, r, k - 1);
    }
  }

  lemma {:induction false} BoundaryOfMonotone(c: nat, r: nat, j: nat, k: nat)
    requires j <= k
    ensures BoundaryOf(c, r, j) <= BoundaryOf(c, r, k)
  {
    if j < k {
      BoundaryOfMonotone(c, r, j, k - 1);
    }
  }

  /** The boundary in closed form. */
  lemma BoundaryClosed(n: nat, p: nat, k: nat)
    requires p > 0
    ensures Boundary(n, p, k) == k * (n / p) + Min(k, n % p)
  {
    BoundaryOfClosed(n / p, n % p, k);
    MulIsProduct(k, n / p);
  }

  /** The boundaries run from 0 to n and step by n / p or n / p + 1. */
  lemma BoundaryShape(n: nat, p: nat, k: nat)
    requires p > 0 && k < p
    ensures Boundary(n, p, 0) == 0 && Boundary(n, p, p) == n
    ensures Boundary(n, p, k + 1) - Boundary(n, p, k) == n / p + (if k < n % p then 1 else 0)
  {
    BoundaryOfClosed(n / p, n % p, p);
    DivParts(n, p);
  }

  /** Boundaries never decrease. */
  lemma BoundaryMonotone(n: nat, p: nat, j: nat, k: nat)
    requires p > 0 && j <= k
    ensures Boundary(n, p, j) <= Boundary(n, p, k)
  {
    BoundaryOfMonotone(n / p, n % p, j, k);
  }

  lemma BoundaryInRange(n: nat, k: nat, p: nat)
    requires p > 0 && k < p
    ensures 0 <= Boundary(n, p, k) <= Boundary(n, p, k + 1) <= n
  {
    BoundaryOfMonotone(n / p, n % p, k, k + 1);
    BoundaryOfMonotone(n / p, n % p, k + 1, p);
    BoundaryShape(n, p, k);
  }

  /**
   * Every worker either gets NoWork, and then every boundary from its own on
   * is already n, or gets exactly [Boundary(pid), Boundary(pid + 1)).
   */
  lemma ChunkIsSlice(n: nat, pid: nat, p: nat)
    requires p > 0 && pid < p
    ensures CalculateChunk(n, pid, p) == NoWork ==>
              Boundary(n, p, pid) == n && Boundary(n, p, pid + 1) == n
    ensures CalculateChunk(n, pid, p) != NoWork ==>
              CalculateChunk(n, pid, p) == (Boundary(n, p, pid), Boundary(n, p, pid + 1))
  {
    var c, r := n / p, n % p;
    DivParts(n, p);
    MulZero(p);
    ChunkOfClosed(n, pid, c, r);
    BoundaryOfClosed(c, r, pid);
    BoundaryOfClosed(c, r, pid + 1);
    if r != 0 && c == 0 {
      MulZero(pid);
      MulZero(pid + 1);
    }
  }

  /** Exactly the surplus workers of the "fewer items than workers" case get NoWork. */
  lemma ChunkNoWorkIff(n: nat, pid: nat, p: nat)
    requires p > 0
    ensures CalculateChunk(n, pid, p) == NoWork <==> (n % p != 0 && n / p == 0 && pid >= n)
  {
    DivParts(n, p);
    MulZero(p);
    ChunkOfClosed(n, pid, n / p, n % p);
  }

  /** A worker's range lies inside [0, n) and holds n / p or n / p + 1 items. */
  lemma ChunkInRange(n: nat, pid: nat, p: nat)
    requires p > 0 && pid < p && CalculateChunk(n, pid, p) != NoWork
    ensures var (lb, ub) := CalculateChunk(n, pid, p);
      0 <= lb <= ub <= n && (ub - lb == n / p || ub - lb == n / p + 1)
  {
    var b0, b1 := Boundary(n, p, pid), Boundary(n, p, pid + 1);
    assert CalculateChunk(n, pid, p) == (b0, b1) by {
      ChunkIsSlice(n, pid, p);
    }
    assert b1 - b0 == n / p || b1 - b0 == n / p + 1 by {
      BoundaryShape(n, p, pid);
    }
    assert 0 <= b0 <= b1 <= n by {
      BoundaryInRange(n, pid, p);
    }
  }

  /** Ranges of distinct workers do not overlap, and their sizes differ by at most one. */
  lemma ChunksDisjointBalanced(n: nat, i: nat, j: nat, p: nat)
    requires p > 0 && i < j < p
    requires CalculateChunk(n, i, p) != NoWork && CalculateChunk(n, j, p) != NoWork
    ensures CalculateChunk(n, i, p).1 <= CalculateChunk(n, j, p).0
    ensures var di := CalculateChunk(n, i, p).1 - CalculateChunk(n, i, p).0;
            var dj := CalculateChunk(n, j, p).1 - CalculateChunk(n, j, p).0;
            -1 <= di - dj <= 1
  {
    ChunkIsSlice(n, i, p);
    ChunkIsSlice(n, j, p);
    BoundaryMonotone(n, p, i + 1, j);
    BoundaryShape(n, p, i);
    BoundaryShape(n, p, j);
  }

  /** Consecutive workers' ranges are contiguous; the first starts at 0 and the last ends at n. */
  lemma ChunksContiguous(n: nat, pid: nat, p: nat)
    requires p > 0 && pid < p && CalculateChunk(n, pid, p) != NoWork
    ensures pid == 0 ==> CalculateChunk(n, pid, p).0 == 0
    ensures pid + 1 < p && CalculateChunk(n, pid + 1, p) != NoWork ==>
              CalculateChunk(n, pid + 1, p).0 == CalculateChunk(n, pid, p).1
    ensures (pid + 1 == p || CalculateChunk(n, pid + 1, p) == NoWork) ==>
              CalculateChunk(n, pid, p).1 == n
  {
    ChunkIsSlice(n, pid, p);
    BoundaryShape(n, p, pid);
    if pid + 1 < p {
      ChunkIsSlice(n, pid + 1, p);
    }
  }

  /** The worked examples: 10 items over 3 workers, and 2 items over 5 workers. */
  lemma ChunkExamples()
    ensures CalculateChunk(10, 0, 3) == (0, 4)
    ensures CalculateChunk(10, 1, 3) == (4, 7)
    ensures CalculateChunk(10, 2, 3) == (7, 10)
    ensures CalculateChunk(2, 0, 5) == (0, 1) && CalculateChunk(2, 1, 5) == (1, 2)
    ensures CalculateChunk(2, 2, 5) == NoWork && CalculateChunk(2, 4, 5) == NoWork
  {
  }

  /** The lb/ub arithmetic written out inside `download` of the oldest crawler:
      None where the thread returns early. */
  function InlineChunk(n: nat, tid: nat, p: nat): (r: Option<(int, int)>)
    requires p > 0
    ensures r.None? <==> CalculateChunk(n, tid, p) == NoWork
    ensures r.Some? ==> CalculateChunk(n, tid, p) == r.value
  {
    var chunksize := n / p;
    var remainder := n % p;
    if remainder != 0 then
      if chunksize == 0 then
        if tid >= n then None else Some((tid, tid + 1))
      else if tid < remainder then
        Some((Mul(tid, chunksize + 1), Mul(tid, chunksize + 1) + (chunksize + 1)))
      else
        var lb := Mul(remainder, chunksize + 1) + Mul(tid - remainder, chunksize);
        Some((lb, lb + chunksize))
    else
      Some((Mul(tid, chunksize), Mul(tid, chunksize) + chunksize))
  }

  /** What the dispatch loop needs of one step: the chunk and the boundaries around it. */
  lemma ChunkStep(n: nat, pid: nat, p: nat)
    requires p > 0 && pid < p
    ensures 0 <= Boundary(n, p, pid) <= Boundary(n, p, pid + 1) <= n
    ensures CalculateChunk(n, pid, p) == NoWork ==> Boundary(n, p, pid + 1) == Boundary(n, p, pid)
    ensures CalculateChunk(n, pid, p) != NoWork ==>
              CalculateChunk(n, pid, p) == (Boundary(n, p, pid), Boundary(n, p, pid + 1))
  {
    BoundaryInRange(n, pid, p);
    ChunkIsSlice(n, pid, p);
  }

  function Flatten<T>(ss: seq<seq<T>>): seq<T>
  {
    if ss == [] then [] else Flatten(ss[..|ss| - 1]) + ss[|ss| - 1]
  }

  /** Worker w has a chunk of the items, and s is that chunk. */
  ghost predicate SliceOf<T>(items: seq<T>, p: nat, w: nat, s: seq<T>)
    requires p > 0
  {
    var c := CalculateChunk(|items|, w, p);
    c != NoWork && 0 <= c.0 <= c.1 <= |items| && s == items[c.0..c.1]
  }

  /**
   * The dispatch after workers 0..i-1: each worker with a chunk, and only
   * those, started in increasing order on its chunk, the chunks together
   * covering the items up to worker i's boundary.
   */
  ghost predicate Dispatched<T>(items: seq<T>, p: nat, i: nat, workers: seq<nat>, slices: seq<seq<T>>)
    requires p > 0
  {
    && |workers| == |slices| <= i
    && Boundary(|items|, p, i) <= |items|
    && Flatten(slices) == items[..Boundary(|items|, p, i)]
    && (forall k :: 0 <= k < |workers| ==> workers[k] < i)
    && (forall k :: 0 <= k < |workers| - 1 ==> workers[k] < workers[k + 1])
    && (forall k :: 0 <= k < |workers| ==> SliceOf(items, p, workers[k], slices[k]))
    && (forall j :: 0 <= j < i && CalculateChunk(|items|, j, p) != NoWork ==> j in workers)
  }

  lemma DispatchStart<T>(items: seq<T>, p: nat)
    requires p > 0
    ensures Dispatched(items, p, 0, [], [])
  {
    assert items[..0] == [];
  }

  /** A worker without a chunk is skipped. */
  lemma DispatchSkip<T>(items: seq<T>, p: nat, i: nat, workers: seq<nat>, slices: seq<seq<T>>)
    requires p > 0 && i < p && Dispatched(items, p, i, workers, slices)
    requires CalculateChunk(|items|, i, p) == NoWork
    ensures Dispatched(items, p, i + 1, workers, slices)
  {
    ChunkStep(|items|, i, p);
  }

  /** A worker with a chunk is started on it. */
  lemma DispatchTake<T>(items: seq<T>, p: nat, i: nat, workers: seq<nat>, slices: seq<seq<T>>)
    requires p > 0 && i < p && Dispatched(items, p, i, workers, slices)
    requires CalculateChunk(|items|, i, p) != NoWork
    ensures var c := CalculateChunk(|items|, i, p);
      0 <= c.0 <= c.1 <= |items| && Dispatched(items, p, i + 1, workers + [i], slices + [items[c.0..c.1]])
  {
    ChunkStep(|items|, i, p);
    var c := CalculateChunk(|items|, i, p);
    var slice := items[c.0..c.1];
    assert items[..c.1] == items[..c.0] + slice;
    assert (slices + [slice])[..|slices|] == slices;
    assert SliceOf(items, p, i, slice);
  }

  lemma DispatchEnd<T>(items: seq<T>, p: nat, workers: seq<nat>, slices: seq<seq<T>>)
    requires p > 0 && Dispatched(items, p, p, workers, slices)
    ensures Flatten(slices) == items
  {
    BoundaryShape(|items|, p, 0);
    assert items[..|items|] == items;
  }

  /**
   * The worker-creation loop of `multithreaded_download` and
   * `multiprocess_preprocessing`: every worker that does not get NoWork is
   * started on items[lb:ub], and only those workers are. The slices
   * handed out, in worker order, put back together give the item list
   * unchanged.
   */
  method AssignChunks<T>(items: seq<T>, p: nat) returns (workers: seq<nat>, slices: seq<seq<T>>)
    requires p > 0
    ensures |workers| == |slices| <= p
    ensures Flatten(slices) == items
    ensures forall k :: 0 <= k < |workers| ==> workers[k] < p
    ensures forall k :: 0 <= k < |workers| - 1 ==> workers[k] < workers[k + 1]
    ensures forall k :: 0 <= k < |workers| ==> SliceOf(items, p, workers[k], slices[k])
    ensures forall j :: 0 <= j < p && CalculateChunk(|items|, j, p) != NoWork ==> j in workers
  {
    workers, slices := [], [];
    DispatchStart(items, p);
    var i := 0;
    while i < p
      invariant i <= p && Dispatched(items, p, i, workers, slices)
    {
      var chunk := CalculateChunk(|items|, i, p);
      var lb, ub := chunk.0, chunk.1;
      if lb == -1 && ub == -1 {
        DispatchSkip(items, p, i, workers, slices);
        i := i + 1;
        continue;
      }
      DispatchTake(items, p, i, workers, slices);
      workers, slices := workers + [i], slices + [items[lb..ub]];
      i := i + 1;
    }
    DispatchEnd(items, p, workers, slices);
  }
}
