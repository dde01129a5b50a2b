/**
  The `matrix<int>` container of MultMatrixThreads.cpp: its constructors,
  its copy-assignment and its bounds-checked row access.

  The C++ row table `T** a` is an array of separately allocated rows; here it
  is an `array<array<int>>` whose `n` rows are distinct arrays of length `m`,
  so `operator[]` can hand out a row that the caller then writes through.
  `Repr` is the set of objects a matrix owns (itself, its row table and its
  rows); distinct matrices own disjoint sets, which is what the deep copies of
  the copy constructor and of `operator=` guarantee in the source.
 */
module Matrices {
  import opened MatrixSpec

  /** The exception `operator[]` throws. */
  datatype Error = OutOfRange(message: string)

  /** A value, or the exception raised instead of returning one. */
  datatype Result<T> = Ok(value: T) | Err(error: Error)

  /** `t` is a table of `n` distinct rows, each of length `m`. */
  ghost predicate IsRowTable(t: array<array<int>>, n: nat, m: nat)
    reads t
  {
    t.Length == n &&
    (forall i :: 0 <= i < n ==> t[i].Length == m) &&
    (forall i, k :: 0 <= i < k < n ==> t[i] != t[k])
  }

  /** Allocates `n` new rows of `m` entries and sets every entry to 0. */
  method ZeroRows(n: nat, m: nat) returns (t: array<array<int>>)
    ensures fresh(t) && IsRowTable(t, n, m)
    ensures forall i :: 0 <= i < n ==> fresh(t[i])
    ensures forall i, j :: 0 <= i < n && 0 <= j < m ==> t[i][j] == 0
  {
    var placeholder := new int[0];
    t := new array<int>[n](_ => placeholder);
    for i := 0 to n
      invariant forall k :: 0 <= k < i ==> fresh(t[k]) && t[k] != placeholder && t[k].Length == m
      invariant forall k, l :: 0 <= k < l < i ==> t[k] != t[l]
      invariant forall k, j :: 0 <= k < i && 0 <= j < m ==> t[k][j] == 0
    {
      var row := new int[m];
      for j := 0 to m
        modifies row
        invariant forall jj :: 0 <= jj < j ==> row[jj] == 0
      {
        row[j] := 0;
      }
      t[i] := row;
    }
  }

  /** Allocates new rows holding a copy of every entry of `M`. */
  method CopyRows(M: Matrix) returns (t: array<array<int>>)
    requires M.Valid()
    ensures fresh(t) && IsRowTable(t, M.n, M.m)
    ensures forall i :: 0 <= i < M.n ==> fresh(t[i])
    ensures forall i, j :: 0 <= i < M.n && 0 <= j < M.m ==> t[i][j] == M.a[i][j]
  {
    var placeholder := new int[0];
    t := new array<int>[M.n](_ => placeholder);
    for i := 0 to M.n
      invariant forall k :: 0 <= k < i ==> fresh(t[k]) && t[k] != placeholder && t[k].Length == M.m
      invariant forall k, l :: 0 <= k < l < i ==> t[k] != t[l]
      invariant forall k, j :: 0 <= k < i && 0 <= j < M.m ==> t[k][j] == M.a[k][j]
    {
      var row := new int[M.m];
      for j := 0 to M.m
        modifies row
        invariant forall jj :: 0 <= jj < j ==> row[jj] == M.a[i][jj]
      {
        row[j] := M.a[i][j];
      }
      t[i] := row;
    }
  }

  class Matrix {
    var a: array<array<int>>
    var m: nat
    var n: nat
    ghost var Repr: set<object>

    /** The object invariant: `n` distinct rows of `m` entries, all owned. */
    ghost predicate Valid()
      reads this, a
    {
      this in Repr && a in Repr && IsRowTable(a, n, m) &&
      forall i :: 0 <= i < n ==> a[i] in Repr
    }

    /** The entries the matrix currently holds. */
    ghost function Value(): (v: Mat)
      reads this, Repr
      requires Valid()
      ensures v.Valid() && v.n == n && v.m == m
      ensures forall i, j :: 0 <= i < n && 0 <= j < m ==> v.cells[i][j] == a[i][j]
    {
      Mat(n, m, seq(n, i requires 0 <= i < n && Valid() reads this, a, Repr => a[i][..]))
    }

    /** Default constructor: the empty `0 x 0` matrix. */
    constructor Empty()
      ensures Valid() && fresh(Repr)
      ensures Value() == Zeros(0, 0)
    {
      a := new array<int>[0];
      m, n := 0, 0;
      Repr := {this, a};
      new;
      SameEntries(Value(), Zeros(0, 0));
    }

    /** Sized constructor: `n` rows of `m` entries, every entry 0. */
    constructor (n: nat, m: nat)
      ensures Valid() && fresh(Repr)
      ensures Value() == Zeros(n, m)
    {
      var t := ZeroRows(n, m);
      this.n, this.m := n, m;
      a := t;
      Repr := {this, t} + set i | 0 <= i < n :: t[i];
      new;
      SameEntries(Value(), Zeros(n, m));
    }

    /** Copy constructor: a deep copy of `M`, which is left as it was. */
    constructor Copy(M: Matrix)
      requires M.Valid()
      ensures Valid() && fresh(Repr)
      ensures Value() == M.Value() && Repr !! M.Repr
      ensures M.Value() == old(M.Value())
    {
      var t := CopyRows(M);
      n, m := M.n, M.m;
      a := t;
      Repr := {this, t} + set i | 0 <= i < M.n :: t[i];
      new;
      SameEntries(Value(), M.Value());
    }

    /**
      `operator=`: unless `M` is this very matrix, the old rows are released
      and this matrix becomes a deep copy of `M`; assigning a matrix to itself
      changes nothing.
     */
    method Assign(M: Matrix)
      requires Valid() && M.Valid()
      requires this != M ==> Repr !! M.Repr
      modifies this
      ensures Valid()
      ensures Value() == old(M.Value())
      ensures this == M ==> a == old(a) && Repr == old(Repr)
      ensures this != M ==> fresh(Repr - {this}) && M.Value() == old(M.Value())
    {
      if this != M {
        n := M.n;
        m := M.m;
        var t := CopyRows(M);
        a := t;
        Repr := {this, t} + set i | 0 <= i < M.n :: t[i];
        SameEntries(Value(), M.Value());
      }
    }

    /**
      `operator[]`: row `r` itself, or the `out_of_range` exception when
      `r >= n`.  The source does not check negative indices.
     */
    method Row(r: int) returns (res: Result<array<int>>)
      requires Valid() && r >= 0
      ensures res.Err? <==> r >= n
      ensures res.Err? ==> res.error == OutOfRange("out of range")
      ensures res.Ok? ==> res.value == a[r] && res.value in Repr
      ensures res.Ok? ==> res.value[..] == Value().cells[r]
    {
      if r >= n {
        return Err(OutOfRange("out of range"));
      }
      res := Ok(a[r]);
    }
  }
}
