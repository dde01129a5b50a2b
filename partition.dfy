/**
  The row partition of `multiply_multithread` (MultMatrixThreads.cpp:144-148).

  With `step = rows / threads`, worker `i` of `threads` gets the output rows
  `[i * step, (i + 1) * step)`, except the last worker, whose range is
  stretched to end at `rows` so that it absorbs the remainder.  The lemmas
  show that these ranges cover `[0, rows)` exactly once, and that running
  `part` over all of them, starting from the zero matrix, yields the product.
 */
module Partition {
  import opened MatrixSpec

  /** `a <= b` implies `a * s <= b * s` for a non-negative factor `s`. */
  lemma {:induction false} MulMonotone(a: nat, b: nat, s: nat)
    requires a <= b
    ensures a * s <= b * s
  {
    if a < b {
      MulMonotone(a, b - 1, s);
      assert (b - 1) * s + s == b * s;
    }
  }

  /** `threads` chunks of `rows / threads` rows never go past `rows`. */
  lemma StepsFit(rows: nat, threads: nat)
    requires threads >= 1
    ensures threads * (rows / threads) <= rows
  {
    assert rows == threads * (rows / threads) + rows % threads;
  }

  /**
    First row of chunk `i` (C++ `start = i * step`).  It never lies past
    `rows`, and a chunk other than the last still has room for a full step.
   */
  function ChunkStart(rows: nat, threads: nat, i: nat): (s: nat)
    requires threads >= 1 && i < threads
    ensures s <= rows
    ensures i + 1 < threads ==> s + rows / threads <= rows
  {
    var step := rows / threads;
    StepsFit(rows, threads);
    MulMonotone(i + 1, threads, step);
    assert i * step + step == (i + 1) * step;
    i * step
  }

  /**
    One past the last row of chunk `i` (C++ `end`): the last chunk ends at
    `rows`, every other one `step` rows after its start.
   */
  function ChunkEnd(rows: nat, threads: nat, i: nat): (e: nat)
    requires threads >= 1 && i < threads
    ensures ChunkStart(rows, threads, i) <= e <= rows
  {
    var step := rows / threads;
    StepsFit(rows, threads);
    MulMonotone(i, threads - 1, step);
    MulMonotone(threads - 1, threads, step);
    if i == threads - 1 then rows
    else
      MulMonotone(i + 1, threads, step);
      (i + 1) * step
  }

  /** The first chunk starts at row 0 and the last one ends at row `rows`, for any number of chunks. */
  lemma ChunkEnds(rows: nat, threads: nat)
    requires threads >= 1
    ensures ChunkStart(rows, threads, 0) == 0
    ensures ChunkEnd(rows, threads, threads - 1) == rows
  {
  }

  /** Each chunk but the last ends where the next one starts. */
  lemma ChunksAdjacent(rows: nat, threads: nat, i: nat)
    requires threads >= 1 && i + 1 < threads
    ensures ChunkEnd(rows, threads, i) == ChunkStart(rows, threads, i + 1)
  {
  }

  /** Every row `r < rows` lies in some chunk. */
  lemma ChunkOf(rows: nat, threads: nat, r: nat) returns (i: nat)
    requires threads >= 1 && r < rows
    ensures i < threads
    ensures ChunkStart(rows, threads, i) <= r < ChunkEnd(rows, threads, i)
  {
    var step := rows / threads;
    if step == 0 {
      i := threads - 1;
    } else {
      i := r / step;
      if i >= threads - 1 {
        i := threads - 1;
        MulMonotone(threads - 1, r / step, step);
        assert r == (r / step) * step + r % step;
      } else {
        assert r == (r / step) * step + r % step;
        assert (i + 1) * step == i * step + step;
      }
    }
  }

  /** No row lies in two different chunks. */
  lemma ChunksDisjoint(rows: nat, threads: nat, i: nat, k: nat, r: nat)
    requires threads >= 1 && i < threads && k < threads
    requires ChunkStart(rows, threads, i) <= r < ChunkEnd(rows, threads, i)
    requires ChunkStart(rows, threads, k) <= r < ChunkEnd(rows, threads, k)
    ensures i == k
  {
    var step := rows / threads;
    if i < k {
      MulMonotone(i + 1, k, step);
    } else if k < i {
      MulMonotone(k + 1, i, step);
    }
  }

  /**
    The values after the first `i` workers of `multiply_multithread` have run
    `part` on their chunks, one after another, starting from the zero matrix
    that the result is constructed as.
   */
  function RunChunks(A: Mat, B: Mat, threads: nat, i: nat): (C: Mat)
    requires A.Valid() && B.Valid() && A.m == B.n
    requires threads >= 1 && i <= threads
    ensures C.Valid() && C.n == A.n && C.m == B.m
  {
    if i == 0 then Zeros(A.n, B.m)
    else PartSpec(A, B, RunChunks(A, B, threads, i - 1),
                  ChunkStart(A.n, threads, i - 1), ChunkEnd(A.n, threads, i - 1))
  }

  /**
    After `i` chunks, exactly the rows below the end of chunk `i - 1` hold
    their dot products and every other row is still zero.
   */
  lemma {:induction false} RunChunksRows(A: Mat, B: Mat, threads: nat, i: nat, r: nat, c: nat)
    requires A.Valid() && B.Valid() && A.m == B.n
    requires threads >= 1 && i <= threads && r < A.n && c < B.m
    ensures RunChunks(A, B, threads, i).cells[r][c]
         == if i > 0 && r < ChunkEnd(A.n, threads, i - 1) then Dot(A, B, r, c, A.m) else 0
  {
    if i > 0 {
      RunChunksRows(A, B, threads, i - 1, r, c);
      if i > 1 {
        ChunksAdjacent(A.n, threads, i - 2);
      }
    }
  }

  /**
    Running `part` over all `threads` chunks in turn gives the full product,
    for every number of threads, also when some chunks are empty.
   */
  lemma ChunkedProduct(A: Mat, B: Mat, threads: nat)
    requires A.Valid() && B.Valid() && A.m == B.n && threads >= 1
    ensures RunChunks(A, B, threads, threads) == Product(A, B)
  {
    var C, P := RunChunks(A, B, threads, threads), Product(A, B);
    forall r | 0 <= r < A.n
      ensures C.cells[r] == P.cells[r]
    {
      forall c | 0 <= c < B.m
        ensures C.cells[r][c] == P.cells[r][c]
      {
        RunChunksRows(A, B, threads, threads, r, c);
      }
    }
  }
}
