/**
  The multiplication routines of MultMatrixThreads.cpp: the row-range kernel
  `part`, the sequential `operator*` and `multiply_multithread`.

  `multiply_multithread` starts one thread per chunk of output rows and joins
  them all before returning.  Each thread runs `part` on its own chunk, reads
  only the two inputs and writes only its own rows of the shared result, so
  the joined result is the one obtained by running the `part` calls one after
  another; `MultiplyThreaded` runs them in thread order, and
  `MatrixSpec.PartCommutes` shows that any other order gives the same values.
 */
module Multiplication {
  import opened MatrixSpec
  import opened Partition
  import opened Matrices

  /**
    The two inner loops that `part` and `operator*` share: for every column
    `j < M2.m`, add the dot product of row `i` of `M1` and column `j` of `M2`
    into `row[j]`, one term `M1[i][k] * M2[k][j]` at a time.
   */
  method AccumulateRow(M1: Matrix, M2: Matrix, row: array<int>, i: nat)
    requires M1.Valid() && M2.Valid() && row !in M1.Repr && row !in M2.Repr
    requires i < M1.n && M2.m <= row.Length && M1.m <= M2.n
    modifies row
    ensures forall c :: 0 <= c < row.Length ==>
      row[c] == old(row[c]) + (if c < M2.m then Dot(M1.Value(), M2.Value(), i, c, M1.m) else 0)
  {
    ghost var A, B, row0 := M1.Value(), M2.Value(), row[..];
    var j := 0;
    while j < M2.m
      invariant 0 <= j <= M2.m
      invariant forall c :: 0 <= c < row.Length ==>
        row[c] == row0[c] + (if c < j then Dot(A, B, i, c, M1.m) else 0)
    {
      ghost var before := row[..];
      var k := 0;
      while k < M1.m
        invariant 0 <= k <= M1.m
        invariant forall c :: 0 <= c < row.Length && c != j ==> row[c] == before[c]
        invariant row[j] == row0[j] + Dot(A, B, i, j, k)
      {
        row[j] := row[j] + M1.a[i][k] * M2.a[k][j];
        k := k + 1;
      }
      j := j + 1;
    }
  }

  /**
    `part(M1, M2, C, i0, i1)`: for every row `i0 <= i < i1` and every column
    `j < M2.m`, add the dot product of row `i` of `M1` and column `j` of `M2`
    into `C[i][j]`.  Only those rows of `C` change; the inputs are only read.
   */
  method Part(M1: Matrix, M2: Matrix, C: Matrix, i0: nat, i1: nat)
    requires M1.Valid() && M2.Valid() && C.Valid()
    requires C.Repr !! M1.Repr && C.Repr !! M2.Repr
    requires i1 <= M1.n && i1 <= C.n && M2.m <= C.m && M1.m <= M2.n
    modifies C.Repr - {C, C.a}
    ensures C.Valid()
    ensures C.Value() == PartSpec(M1.Value(), M2.Value(), old(C.Value()), i0, i1)
  {
    ghost var A, B, C0 := M1.Value(), M2.Value(), C.Value();
    var i := i0;
    while i < i1
      invariant i0 <= i <= if i0 <= i1 then i1 else i0
      invariant C.Valid()
      invariant forall r, c :: 0 <= r < C.n && 0 <= c < C.m ==>
        C.a[r][c] == C0.cells[r][c] + (if i0 <= r < i && c < M2.m then Dot(A, B, r, c, M1.m) else 0)
      invariant M1.Value() == A && M2.Value() == B
    {
      label Before:
      AccumulateRow(M1, M2, C.a[i], i);
      forall r, c | 0 <= r < C.n && 0 <= c < C.m
        ensures C.a[r][c] == old@Before(C.a[r][c]) + (if r == i && c < M2.m then Dot(A, B, r, c, M1.m) else 0)
      {
        if r != i {
          assert C.a[r] != C.a[i];
        }
      }
      i := i + 1;
    }
    SameEntries(C.Value(), PartSpec(A, B, C0, i0, i1));
  }

  /**
    `operator*`: a new `M1.n x M2.m` matrix holding the product `M1 * M2`, or
    left all zero when the inner dimensions `M1.m` and `M2.n` differ.
   */
  method Multiply(M1: Matrix, M2: Matrix) returns (C: Matrix)
    requires M1.Valid() && M2.Valid()
    ensures C.Valid() && fresh(C.Repr)
    ensures C.n == M1.n && C.m == M2.m
    ensures M1.m != M2.n ==> C.Value() == Zeros(M1.n, M2.m)
    ensures M1.m == M2.n ==> C.Value() == Product(M1.Value(), M2.Value())
    ensures C.Value() == Mul(M1.Value(), M2.Value())
  {
    C := new Matrix(M1.n, M2.m);
    if M1.m != M2.n {
      return;
    }
    ghost var A, B := M1.Value(), M2.Value();
    assert C.Repr !! M1.Repr && C.Repr !! M2.Repr;
    var i := 0;
    while i < M1.n
      modifies C.Repr - {C, C.a}
      invariant 0 <= i <= M1.n
      invariant C.Valid() && C.Repr !! M1.Repr && C.Repr !! M2.Repr
      invariant forall r, c :: 0 <= r < C.n && 0 <= c < C.m ==>
        C.a[r][c] == if r < i then Dot(A, B, r, c, M1.m) else 0
      invariant M1.Value() == A && M2.Value() == B
    {
      label Before:
      AccumulateRow(M1, M2, C.a[i], i);
      forall r, c | 0 <= r < C.n && 0 <= c < C.m
        ensures C.a[r][c] == old@Before(C.a[r][c]) + (if r == i then Dot(A, B, r, c, M1.m) else 0)
      {
        if r != i {
          assert C.a[r] != C.a[i];
        }
      }
      i := i + 1;
    }
    SameEntries(C.Value(), Product(A, B));
  }

  /**
    The worker loop of `multiply_multithread`: worker `i` of `numThreads`
    runs `part` on rows `[i * step, (i + 1) * step)` of `C`, the last one on
    rows `[i * step, M1.n)`.  The workers run one after another here, in
    thread order; joining them all is reaching the end of the loop.  A
    negative `numThreads` starts no worker at all.
   */
  method RunWorkers(M1: Matrix, M2: Matrix, C: Matrix, numThreads: int)
    requires M1.Valid() && M2.Valid() && C.Valid() && numThreads != 0
    requires C.Repr !! M1.Repr && C.Repr !! M2.Repr
    requires M1.m == M2.n && C.n == M1.n && C.m == M2.m
    requires C.Value() == Zeros(M1.n, M2.m)
    modifies C.Repr - {C, C.a}
    ensures C.Valid()
    ensures numThreads >= 1 ==> C.Value() == RunChunks(M1.Value(), M2.Value(), numThreads, numThreads)
    ensures numThreads < 0 ==> C.Value() == Zeros(M1.n, M2.m)
  {
    ghost var A, B := M1.Value(), M2.Value();
    var i := 0;
    while i < numThreads
      invariant 0 <= i && (numThreads < 0 ==> i == 0)
      invariant C.Valid() && M1.Value() == A && M2.Value() == B
      invariant numThreads >= 1 ==> i <= numThreads && C.Value() == RunChunks(A, B, numThreads, i)
      invariant numThreads < 0 ==> C.Value() == Zeros(M1.n, M2.m)
    {
      var start := ChunkStart(M1.n, numThreads, i);
      var end := ChunkEnd(M1.n, numThreads, i);
      Part(M1, M2, C, start, end);
      i := i + 1;
    }
  }

  /**
    `multiply_multithread`: for a positive `numThreads`, the same result as
    `operator*`, computed by `numThreads` workers that each run `part` on their
    own chunk of rows.  For a negative `numThreads` the worker loop never runs
    and the all-zero result comes back, even when the shapes agree.  A
    `numThreads` of 0 is a division by zero in the source and is excluded.
   */
  method MultiplyThreaded(M1: Matrix, M2: Matrix, numThreads: int) returns (C: Matrix)
    requires M1.Valid() && M2.Valid() && numThreads != 0
    ensures C.Valid() && fresh(C.Repr)
    ensures C.n == M1.n && C.m == M2.m
    ensures numThreads >= 1 ==> C.Value() == Mul(M1.Value(), M2.Value())
    ensures numThreads < 0 ==> C.Value() == Zeros(M1.n, M2.m)
  {
    C := new Matrix(M1.n, M2.m);
    if M1.m != M2.n {
      return;
    }
    RunWorkers(M1, M2, C, numThreads);
    if numThreads >= 1 {
      ChunkedProduct(M1.Value(), M2.Value(), numThreads);
    }
  }
}
