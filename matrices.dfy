/**
  The dense linear-algebra substrate of the filter: the `_Matrix` and `_Vector`
  classes of python/tinyekf/__init__.py.  A matrix is its `data` array, taken as
  a value: a sequence of rows, each a sequence of reals.  A `_Vector` is an
  n-by-1 matrix.  Shapes are stated with `IsMatrix(A, r, c)`.
*/
module Matrices {
  import opened Wrappers

  type Matrix = seq<seq<real>>

  /** Number of columns, read off the first row. */
  function Cols(A: Matrix): (c: nat)
  {
    if |A| == 0 then 0 else |A[0]|
  }

  /** A is an r-by-c matrix. */
  predicate IsMatrix(A: Matrix, r: nat, c: nat)
  {
    |A| == r && forall i :: 0 <= i < r ==> |A[i]| == c
  }

  /** Every row of A has the same length. */
  predicate Rect(A: Matrix)
  {
    IsMatrix(A, |A|, Cols(A))
  }

  predicate IsSquare(A: Matrix)
  {
    IsMatrix(A, |A|, |A|)
  }

  predicate Symmetric(A: Matrix)
  {
    IsSquare(A) && forall i, j :: 0 <= i < |A| && 0 <= j < |A| ==> A[i][j] == A[j][i]
  }

  /** The r-by-c matrix of zeros (`np.zeros((r, c))`). */
  function Zeros(r: nat, c: nat): (Z: Matrix)
    ensures IsMatrix(Z, r, c)
    ensures forall i, j :: 0 <= i < r && 0 <= j < c ==> Z[i][j] == 0.0
  {
    seq(r, i => seq(c, j => 0.0))
  }

  /** `_Matrix(r, c)`: the data is a zero array when both sizes are positive,
      and `None` otherwise (the default `_Matrix()` among them). */
  function NewMatrix(r: int := 0, c: int := 0): (o: Option<Matrix>)
    ensures o.Some? <==> r > 0 && c > 0
    ensures o.Some? ==> IsMatrix(o.value, r, c)
    ensures o.Some? ==> forall i, j :: 0 <= i < r && 0 <= j < c ==> o.value[i][j] == 0.0
  {
    if r > 0 && c > 0 then Some(Zeros(r, c)) else None
  }

  /** `_Vector(n)`: an n-by-1 zero column when n is positive, `None` otherwise. */
  function NewVector(n: int := 0): (o: Option<Matrix>)
    ensures o.Some? <==> n > 0
    ensures o.Some? ==> IsMatrix(o.value, n, 1) && forall i :: 0 <= i < n ==> o.value[i][0] == 0.0
  {
    if n > 0 then Some(Zeros(n, 1)) else None
  }

  /** `_Matrix.eye(n, m)`: ones where row equals column, zeros elsewhere;
      `m == 0` (the default) asks for the square n-by-n identity. */
  function Eye(n: nat, m: nat := 0): (E: Matrix)
    ensures IsMatrix(E, n, if m == 0 then n else m)
    ensures forall i, j :: 0 <= i < n && 0 <= j < (if m == 0 then n else m) ==>
              E[i][j] == if i == j then 1.0 else 0.0
  {
    var c := if m == 0 then n else m;
    seq(n, i => seq(c, j => if i == j then 1.0 else 0.0))
  }

  /** Inner product of two equally long rows: the sum of u[k] * v[k]. */
  function Dot(u: seq<real>, v: seq<real>): (d: real)
    requires |u| == |v|
  {
    if |u| == 0 then 0.0 else u[0] * v[0] + Dot(u[1..], v[1..])
  }

  /** Column j of A, as a flat sequence. */
  function Col(A: Matrix, j: nat): (v: seq<real>)
    requires forall i :: 0 <= i < |A| ==> j < |A[i]|
    ensures |v| == |A| && forall i :: 0 <= i < |A| ==> v[i] == A[i][j]
  {
    seq(|A|, i requires 0 <= i < |A| => A[i][j])
  }

  /** `A * B` for two matrices (`np.dot`): an r-by-k matrix times a k-by-c one
      is r-by-c, with entry (i, j) the sum over l of A[i][l] * B[l][j]. */
  function Mul(A: Matrix, B: Matrix): (M: Matrix)
    requires Rect(A) && Rect(B) && Cols(A) == |B|
    ensures IsMatrix(M, |A|, Cols(B))
    ensures forall i, j :: 0 <= i < |A| && 0 <= j < Cols(B) ==> M[i][j] == Dot(A[i], Col(B, j))
  {
    seq(|A|, i requires 0 <= i < |A| => seq(Cols(B), j requires 0 <= j < Cols(B) => Dot(A[i], Col(B, j))))
  }

  /** `A * s` for a scalar s: a copy of A with every entry multiplied by s. */
  function Scale(A: Matrix, s: real): (M: Matrix)
    ensures |M| == |A| && forall i :: 0 <= i < |A| ==> |M[i]| == |A[i]|
    ensures forall i, j :: 0 <= i < |A| && 0 <= j < |A[i]| ==> M[i][j] == A[i][j] * s
  {
    seq(|A|, i requires 0 <= i < |A| => seq(|A[i]|, j requires 0 <= j < |A[i]| => A[i][j] * s))
  }

  /** A and B are matrices of one shape. */
  predicate SameShape(A: Matrix, B: Matrix)
  {
    Rect(A) && IsMatrix(B, |A|, Cols(A))
  }

  /** `A + B` on equal shapes: the entrywise sum. */
  function Add(A: Matrix, B: Matrix): (M: Matrix)
    requires SameShape(A, B)
    ensures IsMatrix(M, |A|, Cols(A))
    ensures forall i, j :: 0 <= i < |A| && 0 <= j < Cols(A) ==> M[i][j] == A[i][j] + B[i][j]
  {
    seq(|A|, i requires 0 <= i < |A| => seq(Cols(A), j requires 0 <= j < Cols(A) => A[i][j] + B[i][j]))
  }

  /** `A - B` on equal shapes: the entrywise difference. */
  function Sub(A: Matrix, B: Matrix): (M: Matrix)
    requires SameShape(A, B)
    ensures IsMatrix(M, |A|, Cols(A))
    ensures forall i, j :: 0 <= i < |A| && 0 <= j < Cols(A) ==> M[i][j] == A[i][j] - B[i][j]
  {
    seq(|A|, i requires 0 <= i < |A| => seq(Cols(A), j requires 0 <= j < Cols(A) => A[i][j] - B[i][j]))
  }

  /** `A.transpose()`: an r-by-c matrix becomes c-by-r with T[j][i] == A[i][j]. */
  function Transpose(A: Matrix): (T: Matrix)
    requires Rect(A)
    ensures IsMatrix(T, Cols(A), |A|)
    ensures forall i, j :: 0 <= i < |A| && 0 <= j < Cols(A) ==> T[j][i] == A[i][j]
  {
    seq(Cols(A), j requires 0 <= j < Cols(A) => seq(|A|, i requires 0 <= i < |A| => A[i][j]))
  }

  /** `A.copy()` (`np.copy`): a deep copy, which as a value is A itself. */
  function Copy(A: Matrix): (C: Matrix)
    ensures C == A
  {
    A
  }

  /** A numpy index `key` into an axis of length `len`: non-negative keys count
      from the front, negative ones from the back; anything else is an
      IndexError, here `None`. */
  function Index(key: int, len: nat): (o: Option<nat>)
    ensures o.Some? <==> -(len as int) <= key < len
    ensures o.Some? ==> o.value < len
    ensures o.Some? && key >= 0 ==> o.value == key
    ensures o.Some? && key < 0 ==> o.value == len + key
  {
    if 0 <= key < len then Some(key)
    else if -(len as int) <= key < 0 then Some(len + key)
    else None
  }

  /** `A[i, j]`: one entry, or `None` when an index is out of range. */
  function GetEntry(A: Matrix, i: int, j: int): (o: Option<real>)
    requires Rect(A)
    ensures o.Some? <==> Index(i, |A|).Some? && Index(j, Cols(A)).Some?
    ensures o.Some? ==> o.value == A[Index(i, |A|).value][Index(j, Cols(A)).value]
  {
    match (Index(i, |A|), Index(j, Cols(A)))
    case (Some(p), Some(q)) => Some(A[p][q])
    case _ => None
  }

  /** `A[i]`: one row, or `None` when i is out of range. */
  function GetRow(A: Matrix, i: int): (o: Option<seq<real>>)
    ensures o.Some? <==> Index(i, |A|).Some?
    ensures o.Some? ==> o.value == A[Index(i, |A|).value]
  {
    match Index(i, |A|)
    case Some(p) => Some(A[p])
    case None => None
  }

  /** `A[i, j] = v`: the same matrix with that one entry replaced, or `None`
      when an index is out of range. */
  function SetEntry(A: Matrix, i: int, j: int, v: real): (o: Option<Matrix>)
    requires Rect(A)
    ensures o.Some? <==> Index(i, |A|).Some? && Index(j, Cols(A)).Some?
    ensures o.Some? ==> IsMatrix(o.value, |A|, Cols(A))
    ensures o.Some? ==> forall p, q :: 0 <= p < |A| && 0 <= q < Cols(A) ==>
              o.value[p][q] == if p == Index(i, |A|).value && q == Index(j, Cols(A)).value then v else A[p][q]
  {
    match (Index(i, |A|), Index(j, Cols(A)))
    case (Some(p), Some(q)) => Some(A[p := A[p][q := v]])
    case _ => None
  }

  /** `A[i] = v` for a scalar v: numpy broadcasts v over the whole of row i;
      `None` when i is out of range. */
  function SetRow(A: Matrix, i: int, v: real): (o: Option<Matrix>)
    requires Rect(A)
    ensures o.Some? <==> Index(i, |A|).Some?
    ensures o.Some? ==> IsMatrix(o.value, |A|, Cols(A))
    ensures o.Some? ==> forall p, q :: 0 <= p < |A| && 0 <= q < Cols(A) ==>
              o.value[p][q] == if p == Index(i, |A|).value then v else A[p][q]
  {
    match Index(i, |A|)
    case Some(p) => Some(A[p := seq(Cols(A), q => v)])
    case None => None
  }

  /** T is a two-sided inverse of the square matrix S. */
  predicate IsInverseOf(T: Matrix, S: Matrix)
    requires 1 <= |S| && IsSquare(S)
  {
    IsMatrix(T, |S|, |S|) && Mul(S, T) == Eye(|S|) && Mul(T, S) == Eye(|S|)
  }

  /** S is square, non-empty and has a two-sided inverse. */
  ghost predicate Invertible(S: Matrix)
  {
    1 <= |S| && IsSquare(S) && exists T {:trigger IsInverseOf(T, S)} :: IsInverseOf(T, S)
  }

  /** `inv` behaves as `A.invert()` (`np.linalg.inv`) does on every invertible
      matrix: it returns an inverse on both sides. */
  ghost predicate IsInverter(inv: Matrix -> Matrix)
  {
    forall S {:trigger inv(S)} :: Invertible(S) ==> IsInverseOf(inv(S), S)
  }

  /** `A.asarray()`: column 0 as a flat sequence. */
  function AsArray(A: Matrix): (s: seq<real>)
    requires forall i :: 0 <= i < |A| ==> |A[i]| > 0
    ensures |s| == |A| && forall i :: 0 <= i < |A| ==> s[i] == A[i][0]
  {
    seq(|A|, i requires 0 <= i < |A| => A[i][0])
  }

  /** The column vector holding t, entry k being t[k]. */
  function Column(t: seq<real>): (v: Matrix)
    ensures IsMatrix(v, |t|, 1) && forall k :: 0 <= k < |t| ==> v[k][0] == t[k]
  {
    seq(|t|, k requires 0 <= k < |t| => [t[k]])
  }

  /** `_Vector.fromTuple(t)`: allocate `_Vector(len(t))` and store t[k] into
      row k, for k from 0 up.  An empty t leaves the data `None`. */
  method FromTuple(t: seq<real>) returns (v: Option<Matrix>)
    ensures v.Some? <==> |t| > 0
    ensures v.Some? ==> IsMatrix(v.value, |t|, 1) && forall k :: 0 <= k < |t| ==> v.value[k][0] == t[k]
    ensures v.Some? ==> v.value == Column(t)
  {
    v := NewVector(|t|);
    for k := 0 to |t|
      invariant v.Some? <==> |t| > 0
      invariant v.Some? ==> IsMatrix(v.value, |t|, 1)
      invariant v.Some? ==> forall p :: 0 <= p < k ==> v.value[p][0] == t[p]
      invariant v.Some? ==> forall p :: k <= p < |t| ==> v.value[p][0] == 0.0
    {
      v := SetRow(v.value, k, t[k]);
    }
    if v.Some? {
      forall k | 0 <= k < |t| ensures v.value[k] == Column(t)[k] {
        assert |v.value[k]| == 1;
      }
    }
  }
}
