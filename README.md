# MultMatrixThreads in Dafny

MultMatrixThreads is a small C++ benchmark. It multiplies square integer
matrices once with a plain triple loop (`operator*`). It then multiplies them
again with `multiply_multithread`, which splits the output rows into one
chunk per thread and runs the row-range kernel `part` on each chunk.

This project models the `matrix<int>` container, `part`, `operator*` and
`multiply_multithread` as imperative Dafny:

- `MatrixSpec` holds the value-level meaning. A `Mat` is a shape plus its
  entries, and `Dot` sums the terms in the order the C++ loops add them.
  `Product`, `Zeros`, `Mul` (the result of `operator*`, including its
  mismatch path) and `PartSpec` (the effect of `part`) are defined there,
  together with their algebraic properties.
- `Partition` holds the chunk arithmetic of `multiply_multithread`. It proves
  that the chunks cover the rows exactly once, and that running `part` over
  all of them, starting from zero, gives the product.
- `Matrices` holds the class `Matrix`. It has the fields `a`, `m` and `n`,
  where `a` is a table of distinct row arrays. Its constructors, its
  copy-assignment and its row access are each proved against `Value()`, the
  `Mat` the object holds.
- `Multiplication` holds `part` (`Part`), `operator*` (`Multiply`) and
  `multiply_multithread` (`MultiplyThreaded`). `Part` and `Multiply` are loops
  over the rows of the result, proved to produce `PartSpec` and `Mul`.
  `MultiplyThreaded` runs its worker threads as a sequential loop over the
  chunks (`RunWorkers`), each step a call of `Part`, and is proved to produce
  `Mul` for a positive thread count.
- `Scenarios` holds a client. It fills two `2 x 2` matrices through
  `operator[]`, multiplies them both ways, asks for a row that is out of
  range, and multiplies them with a negative thread count.

## Model

| member | source | states |
|---|---|---|
| Matrices.Matrix.Empty | MultMatrixThreads/MultMatrixThreads.cpp:37 | the default matrix is the empty `0 x 0` matrix and owns fresh storage |
| Matrices.Matrix.constructor | MultMatrixThreads/MultMatrixThreads.cpp:40-48 | the sized constructor gives `n` fresh distinct rows of `m` entries, every entry 0 |
| Matrices.ZeroRows | MultMatrixThreads/MultMatrixThreads.cpp:41-47 | the allocation loop yields `n` fresh, pairwise distinct rows of length `m` holding 0 |
| Matrices.Matrix.Copy | MultMatrixThreads/MultMatrixThreads.cpp:62-70 | the copy has the same shape and entries as `M`, shares no storage with it, and `M` is unchanged |
| Matrices.CopyRows | MultMatrixThreads/MultMatrixThreads.cpp:63-69 | the copy loop yields fresh distinct rows whose entries equal `M`'s |
| Matrices.Matrix.Assign | MultMatrixThreads/MultMatrixThreads.cpp:73-92 | afterwards the matrix holds the old value of `M`; on self-assignment the row table and footprint are the same objects as before; otherwise the new storage is fresh and `M` is unchanged |
| Matrices.Matrix.Row | MultMatrixThreads/MultMatrixThreads.cpp:157-163 | `out_of_range("out of range")` exactly when `r >= n`; otherwise the row object itself, owned by the matrix, holding row `r` of the value |
| Multiplication.AccumulateRow | MultMatrixThreads/MultMatrixThreads.cpp:109-112 | the `j`/`k` loops add the full dot product of row `i` and column `j` to `row[j]` for each `j < M2.m` and leave the other entries as they were |
| Multiplication.Part | MultMatrixThreads/MultMatrixThreads.cpp:106-114 | `part` turns the value of `C` into `PartSpec` of the inputs and the old value: dot products added in rows `[i0, i1)` only |
| Multiplication.Multiply | MultMatrixThreads/MultMatrixThreads.cpp:116-133 | `operator*` returns a fresh `M1.n x M2.m` matrix; it is all zero when `M1.m != M2.n` and otherwise it is the product |
| Multiplication.RunWorkers | MultMatrixThreads/MultMatrixThreads.cpp:143-152 | for a positive thread count, running `part` on every chunk in thread order, from the zero result, gives `RunChunks` over all chunks; for a negative count no worker runs and the result stays zero |
| Multiplication.MultiplyThreaded | MultMatrixThreads/MultMatrixThreads.cpp:135-155 | for every `num_threads >= 1`, `multiply_multithread` returns the same value as `operator*`; for `num_threads < 0` it returns the all-zero `M1.n x M2.m` matrix, whatever the shapes |
| Partition.ChunkStart | MultMatrixThreads/MultMatrixThreads.cpp:144-146 | the start row of every chunk lies within `[0, M1.n]`, and a chunk other than the last has room for a full step before `M1.n` |
| Partition.ChunkEnd | MultMatrixThreads/MultMatrixThreads.cpp:144-147 | every chunk `[start, end)` lies within `[0, M1.n)` and does not end before it starts |
| Partition.ChunkEnds | MultMatrixThreads/MultMatrixThreads.cpp:144-147 | for any `num_threads >= 1`, including 1, chunk 0 starts at row 0 and the last chunk ends at `M1.n` |
| Partition.ChunksAdjacent | MultMatrixThreads/MultMatrixThreads.cpp:144-147 | each chunk but the last ends where the next one begins |
| Partition.ChunkOf | MultMatrixThreads/MultMatrixThreads.cpp:144-147 | every row below `M1.n` lies in some chunk, also when `num_threads > M1.n` |
| Partition.ChunksDisjoint | MultMatrixThreads/MultMatrixThreads.cpp:144-147 | no row lies in two different chunks |
| Partition.StepsFit | MultMatrixThreads/MultMatrixThreads.cpp:144 | `num_threads` steps of `M1.n / num_threads` rows do not exceed `M1.n` |
| Partition.RunChunksRows | MultMatrixThreads/MultMatrixThreads.cpp:145-148 | after the first `i` chunks, exactly the rows before the end of chunk `i - 1` hold their dot products and the rest are zero |
| Partition.ChunkedProduct | MultMatrixThreads/MultMatrixThreads.cpp:136-155 | `part` over all chunks from zero equals the sequential product, including when some chunks are empty |
| MatrixSpec.Zeros | MultMatrixThreads/MultMatrixThreads.cpp:40-48 | the value of a sized matrix: the right shape and every entry 0 |
| MatrixSpec.Mul | MultMatrixThreads/MultMatrixThreads.cpp:117-122 | the result of `operator*` always has shape `M1.n x M2.m` |
| MatrixSpec.MulMismatch | MultMatrixThreads/MultMatrixThreads.cpp:117-122 | on an inner-dimension mismatch the result is the zero matrix of shape `M1.n x M2.m` |
| MatrixSpec.PartFrame | MultMatrixThreads/MultMatrixThreads.cpp:107-114 | `part` leaves every entry outside rows `[i0, i1)` and columns `[0, M2.m)` as it was |
| MatrixSpec.PartFromZero | MultMatrixThreads/MultMatrixThreads.cpp:107-114 | from a zero `C`, `part` over `[i0, i1)` gives the product's rows there and zero rows elsewhere; over all rows it gives the product |
| MatrixSpec.PartCommutes | MultMatrixThreads/MultMatrixThreads.cpp:145-152 | two `part` calls give the same values in either order, so the order in which the threads finish does not matter |
| MatrixSpec.SameEntries | MultMatrixThreads/MultMatrixThreads.cpp:18-34 | two well-formed matrices of one shape with the same entries are the same value |
| MatrixSpec.DotRightIdentity | MultMatrixThreads/MultMatrixThreads.cpp:125-130 | a dot product with a column of the identity picks out one entry of the row |
| MatrixSpec.DotLeftIdentity | MultMatrixThreads/MultMatrixThreads.cpp:125-130 | a dot product with a row of the identity picks out one entry of the column |
| MatrixSpec.ProductRightIdentity | MultMatrixThreads/MultMatrixThreads.cpp:125-130 | `A * I == A` for the identity of matching size |
| MatrixSpec.ProductLeftIdentity | MultMatrixThreads/MultMatrixThreads.cpp:125-130 | `I * B == B` for the identity of matching size |
| MatrixSpec.DotZero | MultMatrixThreads/MultMatrixThreads.cpp:125-130 | every partial dot product against a zero matrix is 0 |
| MatrixSpec.ProductZero | MultMatrixThreads/MultMatrixThreads.cpp:125-130 | `A * 0 == 0`, with the product's shape |
| MatrixSpec.TwoByTwoScenario | MultMatrixThreads/MultMatrixThreads.cpp:125-130 | `[[1,2],[3,4]] * [[5,6],[7,8]] == [[19,22],[43,50]]` |
| MatrixSpec.OneByOneScenario | MultMatrixThreads/MultMatrixThreads.cpp:125-130 | `[[7]] * [[6]] == [[42]]` |
| Scenarios.Fill2x2 | MultMatrixThreads/MultMatrixThreads.cpp:174-179 | writing through the rows `operator[]` returns sets the matrix's entries |
| Scenarios.TwoByTwoInputs | MultMatrixThreads/MultMatrixThreads.cpp:170-179 | two sized matrices filled through `operator[]` hold the given values in separate storage |

## Left out

- Threads: `std::thread`, `ref` and `join` are not modelled. The workers run one after another in thread order. This is sound because each worker writes only its own chunk of rows (`Partition.ChunksDisjoint`), and `MatrixSpec.PartCommutes` shows the order does not change the values. Interleavings inside one `part` call are not modelled.
- `num_threads == 0`: the step computation divides by it. `MultiplyThreaded` requires `numThreads != 0`; a negative count is modelled and gives the all-zero result.
- `operator<<`, the `"error *"` message of both multiplications, and `main` (random input, timing with `double` durations, printing) are I/O, randomness or floating point. Only the returned matrices are modelled.
- The destructor and the `delete[]` calls in `operator=` are not modelled, because Dafny's arrays are garbage-collected. The null row table of the default constructor is an empty row table.
- The template parameter `T` is `int` only. The accumulation uses mathematical integers, so the undefined behaviour of `int` overflow in the C++ code is not modelled.
- Negative sizes: the sized constructor takes `nat` dimensions. `new T*[n]` with a negative `n` is not modelled.
- Matrices.Matrix.Row: requires `r >= 0`. The source does not check for a negative row, and reads outside the table when given one.
- Matrices.Matrix.Assign: does not return the reference `*this`. It also requires that `M`, when it is another matrix, shares no storage with this one. The source ensures this through deep copies.
- Multiplication.Part: requires `i1 <= M1.n`, `i1 <= C.n`, `M2.m <= C.m` and `M1.m <= M2.n` even when the range is empty, and takes `i0` as a `nat`. The source reads out of bounds when these do not hold. `multiply_multithread` always calls it within them.
- Multiplication.Part: also requires that the storage of `C` is disjoint from that of `M1` and `M2` (`C.Repr !! M1.Repr && C.Repr !! M2.Repr`). The source accepts aliased arguments, and `part(A, B, A, 0, A.n)` then reads entries it has already updated. Both multiplications pass a freshly constructed result, so they never alias.
- Multiplication.AccumulateRow: likewise requires that the row it updates belongs to neither input.
- Multiplication.AccumulateRow: the `j`/`k` loops that `part` and `operator*` share are one method. Likewise, `start` and `end` of a worker are computed by `Partition.ChunkStart` and `Partition.ChunkEnd`.
