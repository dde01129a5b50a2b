/**
  A client of the matrix container and of both multiplication strategies,
  in the way the benchmark driver uses them: build two matrices with the
  sized constructor, fill them through `operator[]`, multiply them
  sequentially and with several worker threads, and compare.
 */
module Scenarios {
  import opened MatrixSpec
  import opened Matrices
  import opened Multiplication

  /** Sets the entries of a `2 x 2` matrix through the rows `operator[]` returns. */
  method Fill2x2(M: Matrix, x00: int, x01: int, x10: int, x11: int)
    requires M.Valid() && M.n == 2 && M.m == 2
    modifies M.Repr - {M, M.a}
    ensures M.Valid()
    ensures M.Value() == Mat(2, 2, [[x00, x01], [x10, x11]])
  {
    var r0 := M.Row(0);
    var r1 := M.Row(1);
    r0.value[0], r0.value[1] := x00, x01;
    r1.value[0], r1.value[1] := x10, x11;
    SameEntries(M.Value(), Mat(2, 2, [[x00, x01], [x10, x11]]));
  }

  /** The two inputs `[[1,2],[3,4]]` and `[[5,6],[7,8]]`, filled through `operator[]`. */
  method TwoByTwoInputs() returns (A: Matrix, B: Matrix)
    ensures A.Valid() && B.Valid() && fresh(A.Repr) && fresh(B.Repr) && A.Repr !! B.Repr
    ensures A.Value() == Mat(2, 2, [[1, 2], [3, 4]])
    ensures B.Value() == Mat(2, 2, [[5, 6], [7, 8]])
  {
    A := new Matrix(2, 2);
    B := new Matrix(2, 2);
    Fill2x2(A, 1, 2, 3, 4);
    Fill2x2(B, 5, 6, 7, 8);
  }

  /**
    `operator*` gives `[[1,2],[3,4]] * [[5,6],[7,8]] == [[19,22],[43,50]]`,
    and asking for row 2 of the `2 x 2` result is the out-of-range error.
   */
  method SequentialClient()
  {
    var A, B := TwoByTwoInputs();
    TwoByTwoScenario();
    var C := Multiply(A, B);
    assert C.Value() == Mat(2, 2, [[19, 22], [43, 50]]);
    var bad := C.Row(2);
    assert bad == Err(OutOfRange("out of range"));
  }

  /**
    `multiply_multithread` on 4 threads gives the same `[[19,22],[43,50]]`,
    although with a step of 0 rows three of its four chunks are empty
    and the last one holds both rows.
   */
  method ThreadedClient()
  {
    var A, B := TwoByTwoInputs();
    TwoByTwoScenario();
    var D := MultiplyThreaded(A, B, 4);
    assert D.Value() == Mat(2, 2, [[19, 22], [43, 50]]);
  }

  /**
    With a negative thread count `multiply_multithread` starts no worker and
    returns the all-zero `2 x 2` matrix, although the shapes agree.
   */
  method NegativeThreadsClient()
  {
    var A, B := TwoByTwoInputs();
    var D := MultiplyThreaded(A, B, -1);
    assert D.Value() == Zeros(2, 2);
  }
}
