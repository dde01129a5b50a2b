/**
  Value-level meaning of the integer matrices of MultMatrixThreads.cpp.

  A `Mat` is what a `matrix<int>` holds at one moment: its row count `n`, its
  column count `m` and the `n` rows of `m` entries.  The functions here are the
  specification the imperative operations of module Matrices are proved
  against: the dot-product accumulation, the product, the all-zero matrix that
  the sized constructor builds, and the result of `operator*` including its
  shape-mismatch path.
 */
module MatrixSpec {

  /** Entries row by row; `cells[i][j]` is row `i`, column `j`. */
  datatype Mat = Mat(n: nat, m: nat, cells: seq<seq<int>>) {
    /** Exactly `n` rows, each of exactly `m` entries. */
    ghost predicate Valid() {
      |cells| == n && forall i :: 0 <= i < n ==> |cells[i]| == m
    }
  }

  /** The `n x m` matrix whose every entry is 0. */
  function Zeros(n: nat, m: nat): (z: Mat)
    ensures z.Valid() && z.n == n && z.m == m
    ensures forall i, j :: 0 <= i < n && 0 <= j < m ==> z.cells[i][j] == 0
  {
    Mat(n, m, seq(n, i => seq(m, j => 0)))
  }

  /** The `p x p` identity matrix. */
  function Identity(p: nat): (e: Mat)
    ensures e.Valid() && e.n == p && e.m == p
    ensures forall i, j :: 0 <= i < p && 0 <= j < p ==> e.cells[i][j] == (if i == j then 1 else 0)
  {
    Mat(p, p, seq(p, i => seq(p, j => if i == j then 1 else 0)))
  }

  /**
    The first `len` terms of the dot product of row `i` of `A` with column `j`
    of `B`, summed in the order the C++ loops add them:
    `A[i][0]*B[0][j] + ... + A[i][len-1]*B[len-1][j]`.
   */
  function Dot(A: Mat, B: Mat, i: nat, j: nat, len: nat): int
    requires A.Valid() && B.Valid()
    requires i < A.n && j < B.m && len <= A.m && len <= B.n
  {
    if len == 0 then 0
    else Dot(A, B, i, j, len - 1) + A.cells[i][len - 1] * B.cells[len - 1][j]
  }

  /** The mathematical product of an `n x p` and a `p x m` matrix. */
  function Product(A: Mat, B: Mat): (C: Mat)
    requires A.Valid() && B.Valid() && A.m == B.n
    ensures C.Valid() && C.n == A.n && C.m == B.m
  {
    Mat(A.n, B.m, seq(A.n, i requires 0 <= i < A.n =>
                        seq(B.m, j requires 0 <= j < B.m => Dot(A, B, i, j, A.m))))
  }

  /**
    What `operator*` returns for `M1 * M2`: an `M1.n x M2.m` matrix that is the
    product when the inner dimensions agree and stays all zero when they do not.
   */
  function Mul(A: Mat, B: Mat): (C: Mat)
    requires A.Valid() && B.Valid()
    ensures C.Valid() && C.n == A.n && C.m == B.m
  {
    if A.m != B.n then Zeros(A.n, B.m) else Product(A, B)
  }

  /**
    The effect of `part(M1, M2, C, i0, i1)` on the values: every entry of `C`
    in a row `i0 <= i < i1` and a column `j < B.m` gets the dot product added
    to it; every other entry keeps its value.
   */
  function PartSpec(A: Mat, B: Mat, C: Mat, i0: nat, i1: nat): (D: Mat)
    requires A.Valid() && B.Valid() && C.Valid()
    requires i1 <= A.n && i1 <= C.n && B.m <= C.m && A.m <= B.n
    ensures D.Valid() && D.n == C.n && D.m == C.m
  {
    Mat(C.n, C.m, seq(C.n, i requires 0 <= i < C.n =>
                        seq(C.m, j requires 0 <= j < C.m =>
                              if i0 <= i < i1 && j < B.m then C.cells[i][j] + Dot(A, B, i, j, A.m)
                              else C.cells[i][j])))
  }

  // ---------------------------------------------------------------------------
  // Properties of the specification
  // ---------------------------------------------------------------------------

  /** Two well-formed matrices of one shape with the same entries are equal. */
  lemma SameEntries(X: Mat, Y: Mat)
    requires X.Valid() && Y.Valid() && X.n == Y.n && X.m == Y.m
    requires forall i, j :: 0 <= i < X.n && 0 <= j < X.m ==> X.cells[i][j] == Y.cells[i][j]
    ensures X == Y
  {
    forall i | 0 <= i < X.n
      ensures X.cells[i] == Y.cells[i]
    {
    }
  }

  /** A dot product against a column of the identity picks out one entry of the row. */
  lemma {:induction false} DotRightIdentity(A: Mat, i: nat, j: nat, len: nat)
    requires A.Valid() && i < A.n && j < A.m && len <= A.m
    ensures Dot(A, Identity(A.m), i, j, len) == if j < len then A.cells[i][j] else 0
  {
    if len > 0 {
      DotRightIdentity(A, i, j, len - 1);
    }
  }

  /** A dot product of a row of the identity picks out one entry of the column. */
  lemma {:induction false} DotLeftIdentity(B: Mat, i: nat, j: nat, len: nat)
    requires B.Valid() && i < B.n && j < B.m && len <= B.n
    ensures Dot(Identity(B.n), B, i, j, len) == if i < len then B.cells[i][j] else 0
  {
    if len > 0 {
      DotLeftIdentity(B, i, j, len - 1);
    }
  }

  /** Multiplying by a correctly shaped identity on the right gives back the matrix. */
  lemma ProductRightIdentity(A: Mat)
    requires A.Valid()
    ensures Product(A, Identity(A.m)) == A
  {
    var C := Product(A, Identity(A.m));
    forall i | 0 <= i < A.n
      ensures C.cells[i] == A.cells[i]
    {
      forall j | 0 <= j < A.m
        ensures C.cells[i][j] == A.cells[i][j]
      {
        DotRightIdentity(A, i, j, A.m);
      }
    }
  }

  /** Multiplying by a correctly shaped identity on the left gives back the matrix. */
  lemma ProductLeftIdentity(B: Mat)
    requires B.Valid()
    ensures Product(Identity(B.n), B) == B
  {
    var C := Product(Identity(B.n), B);
    forall i | 0 <= i < B.n
      ensures C.cells[i] == B.cells[i]
    {
      forall j | 0 <= j < B.m
        ensures C.cells[i][j] == B.cells[i][j]
      {
        DotLeftIdentity(B, i, j, B.n);
      }
    }
  }

  /** Every partial dot product against a zero matrix is 0. */
  lemma {:induction false} DotZero(A: Mat, p: nat, q: nat, i: nat, j: nat, len: nat)
    requires A.Valid() && A.m == p && i < A.n && j < q && len <= p
    ensures Dot(A, Zeros(p, q), i, j, len) == 0
  {
    if len > 0 {
      DotZero(A, p, q, i, j, len - 1);
    }
  }

  /** Multiplying by a zero matrix of compatible shape gives the zero matrix of the product's shape. */
  lemma ProductZero(A: Mat, q: nat)
    requires A.Valid()
    ensures Product(A, Zeros(A.m, q)) == Zeros(A.n, q)
  {
    var C := Product(A, Zeros(A.m, q));
    forall i | 0 <= i < A.n
      ensures C.cells[i] == Zeros(A.n, q).cells[i]
    {
      forall j | 0 <= j < q
        ensures C.cells[i][j] == 0
      {
        DotZero(A, A.m, q, i, j, A.m);
      }
    }
  }

  /** On an inner-dimension mismatch the result is the zero matrix of shape `A.n x B.m`. */
  lemma MulMismatch(A: Mat, B: Mat)
    requires A.Valid() && B.Valid() && A.m != B.n
    ensures Mul(A, B) == Zeros(A.n, B.m)
  {
  }

  /** `part` leaves every row outside `[i0, i1)`, and every column from `B.m` on, as it was. */
  lemma PartFrame(A: Mat, B: Mat, C: Mat, i0: nat, i1: nat, i: nat, j: nat)
    requires A.Valid() && B.Valid() && C.Valid()
    requires i1 <= A.n && i1 <= C.n && B.m <= C.m && A.m <= B.n
    requires i < C.n && j < C.m && !(i0 <= i < i1 && j < B.m)
    ensures PartSpec(A, B, C, i0, i1).cells[i][j] == C.cells[i][j]
  {
  }

  /**
    Starting from the zero matrix, `part` over every row `[0, A.n)` yields the
    exact product; over a row range it yields the product's rows in that range
    and zero rows elsewhere.
   */
  lemma PartFromZero(A: Mat, B: Mat, i0: nat, i1: nat)
    requires A.Valid() && B.Valid() && A.m == B.n && i1 <= A.n
    ensures forall i, j :: 0 <= i < A.n && 0 <= j < B.m ==>
      PartSpec(A, B, Zeros(A.n, B.m), i0, i1).cells[i][j]
        == if i0 <= i < i1 then Product(A, B).cells[i][j] else 0
    ensures PartSpec(A, B, Zeros(A.n, B.m), 0, A.n) == Product(A, B)
  {
    var D, P := PartSpec(A, B, Zeros(A.n, B.m), 0, A.n), Product(A, B);
    forall i | 0 <= i < A.n
      ensures D.cells[i] == P.cells[i]
    {
    }
  }

  /**
    Two calls of `part` give the same values in either order, so the order in
    which the worker threads finish does not matter for the final values.
   */
  lemma PartCommutes(A: Mat, B: Mat, C: Mat, i0: nat, i1: nat, k0: nat, k1: nat)
    requires A.Valid() && B.Valid() && C.Valid()
    requires i1 <= A.n && i1 <= C.n && k1 <= A.n && k1 <= C.n && B.m <= C.m && A.m <= B.n
    ensures PartSpec(A, B, PartSpec(A, B, C, i0, i1), k0, k1)
         == PartSpec(A, B, PartSpec(A, B, C, k0, k1), i0, i1)
  {
    var D := PartSpec(A, B, PartSpec(A, B, C, i0, i1), k0, k1);
    var E := PartSpec(A, B, PartSpec(A, B, C, k0, k1), i0, i1);
    forall i | 0 <= i < C.n
      ensures D.cells[i] == E.cells[i]
    {
    }
  }

  /** `[[1,2],[3,4]] * [[5,6],[7,8]] == [[19,22],[43,50]]`. */
  lemma TwoByTwoScenario()
    ensures Mul(Mat(2, 2, [[1, 2], [3, 4]]), Mat(2, 2, [[5, 6], [7, 8]]))
         == Mat(2, 2, [[19, 22], [43, 50]])
  {
    var A, B := Mat(2, 2, [[1, 2], [3, 4]]), Mat(2, 2, [[5, 6], [7, 8]]);
    var C := Product(A, B);
    assert Dot(A, B, 0, 0, 2) == 19 && Dot(A, B, 0, 1, 2) == 22;
    assert Dot(A, B, 1, 0, 2) == 43 && Dot(A, B, 1, 1, 2) == 50;
    assert C.cells[0] == [19, 22];
    assert C.cells[1] == [43, 50];
  }

  /** `[[7]] * [[6]] == [[42]]`. */
  lemma OneByOneScenario()
    ensures Mul(Mat(1, 1, [[7]]), Mat(1, 1, [[6]])) == Mat(1, 1, [[42]])
  {
    var A, B := Mat(1, 1, [[7]]), Mat(1, 1, [[6]]);
    assert Dot(A, B, 0, 0, 1) == 42;
    assert Product(A, B).cells[0] == [42];
  }
}
