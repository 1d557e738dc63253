/**
  Algebraic laws of the substrate that the filter's formulas rely on:
  identity, inverse, transpose, associativity and distributivity.
*/
module MatrixLaws {
  import opened Wrappers
  import opened Matrices

  /** Two r-by-c matrices with the same entries are equal. */
  lemma Ext(A: Matrix, B: Matrix, r: nat, c: nat)
    requires IsMatrix(A, r, c) && IsMatrix(B, r, c)
    requires forall i, j :: 0 <= i < r && 0 <= j < c ==> A[i][j] == B[i][j]
    ensures A == B
  {
    forall i | 0 <= i < r ensures A[i] == B[i] {
      assert |A[i]| == c == |B[i]|;
    }
  }

  lemma {:induction false} DotComm(u: seq<real>, v: seq<real>)
    requires |u| == |v|
    ensures Dot(u, v) == Dot(v, u)
  {
    if |u| > 0 {
      DotComm(u[1..], v[1..]);
    }
  }

  lemma {:induction false} DotZeroLeft(u: seq<real>, v: seq<real>)
    requires |u| == |v|
    requires forall k :: 0 <= k < |u| ==> u[k] == 0.0
    ensures Dot(u, v) == 0.0
  {
    if |u| > 0 {
      DotZeroLeft(u[1..], v[1..]);
    }
  }

  /** A row that is s at position i and zero elsewhere picks s * v[i]. */
  lemma {:induction false} DotSpike(e: seq<real>, v: seq<real>, i: nat, s: real)
    requires |e| == |v| && i < |e|
    requires forall k :: 0 <= k < |e| ==> e[k] == if k == i then s else 0.0
    ensures Dot(e, v) == s * v[i]
  {
    if i == 0 {
      DotZeroLeft(e[1..], v[1..]);
    } else {
      forall k | 0 <= k < |e| - 1 ensures e[1..][k] == if k == i - 1 then s else 0.0 {
        assert e[1..][k] == e[k + 1];
      }
      DotSpike(e[1..], v[1..], i - 1, s);
    }
  }

  /** Dot is linear in its first argument. */
  lemma {:induction false} DotCombine(z: seq<real>, x: seq<real>, y: seq<real>, w: seq<real>, a: real)
    requires |z| == |x| == |y| == |w|
    requires forall l :: 0 <= l < |z| ==> z[l] == a * x[l] + y[l]
    ensures Dot(z, w) == a * Dot(x, w) + Dot(y, w)
  {
    if |z| > 0 {
      DotCombine(z[1..], x[1..], y[1..], w[1..], a);
      assert z[0] * w[0] == a * (x[0] * w[0]) + y[0] * w[0];
    }
  }

  /** The row vector u times B, for a |u|-by-L matrix B. */
  function RowTimes(u: seq<real>, B: Matrix, L: nat): (t: seq<real>)
    requires IsMatrix(B, |u|, L)
  {
    seq(L, l requires 0 <= l < L => Dot(u, Col(B, l)))
  }

  /** The matrix B times the column w. */
  function MatVec(B: Matrix, w: seq<real>): (t: seq<real>)
    requires forall k :: 0 <= k < |B| ==> |B[k]| == |w|
  {
    seq(|B|, k requires 0 <= k < |B| => Dot(B[k], w))
  }

  /** Peeling the first row of B off the product u B. */
  lemma RowTimesSplit(u: seq<real>, B: Matrix, L: nat)
    requires 1 <= |u| && IsMatrix(B, |u|, L)
    ensures forall l :: 0 <= l < L ==>
              RowTimes(u, B, L)[l] == u[0] * B[0][l] + RowTimes(u[1..], B[1..], L)[l]
  {
    forall l | 0 <= l < L
      ensures RowTimes(u, B, L)[l] == u[0] * B[0][l] + RowTimes(u[1..], B[1..], L)[l]
    {
      assert Col(B, l)[1..] == Col(B[1..], l);
    }
  }

  /** (u B) w == u (B w). */
  lemma {:induction false} Bilinear(u: seq<real>, B: Matrix, L: nat, w: seq<real>)
    requires IsMatrix(B, |u|, L) && |w| == L
    ensures Dot(RowTimes(u, B, L), w) == Dot(u, MatVec(B, w))
  {
    if |u| == 0 {
      DotZeroLeft(RowTimes(u, B, L), w);
    } else {
      var t := RowTimes(u[1..], B[1..], L);
      RowTimesSplit(u, B, L);
      DotCombine(RowTimes(u, B, L), B[0], t, w, u[0]);
      Bilinear(u[1..], B[1..], L, w);
      assert MatVec(B, w)[1..] == MatVec(B[1..], w);
    }
  }

  /** Matrix product is associative, so `F * P * F.transpose()`, which Python
      evaluates from the left, has one meaning however it is bracketed. */
  lemma MulAssoc(A: Matrix, B: Matrix, C: Matrix, r: nat, k: nat, l: nat, c: nat)
    requires 1 <= r && 1 <= k && 1 <= l
    requires IsMatrix(A, r, k) && IsMatrix(B, k, l) && IsMatrix(C, l, c)
    ensures Mul(Mul(A, B), C) == Mul(A, Mul(B, C))
  {
    var AB := Mul(A, B);
    var BC := Mul(B, C);
    forall i, j | 0 <= i < r && 0 <= j < c ensures Mul(AB, C)[i][j] == Mul(A, BC)[i][j] {
      assert AB[i] == RowTimes(A[i], B, l);
      assert Col(BC, j) == MatVec(B, Col(C, j));
      Bilinear(A[i], B, l, Col(C, j));
    }
    Ext(Mul(AB, C), Mul(A, BC), r, c);
  }

  /** The identity is neutral on the left. */
  lemma MulEyeLeft(A: Matrix, r: nat, c: nat)
    requires 1 <= r && IsMatrix(A, r, c)
    ensures Mul(Eye(r), A) == A
  {
    forall i, j | 0 <= i < r && 0 <= j < c ensures Mul(Eye(r), A)[i][j] == A[i][j] {
      DotSpike(Eye(r)[i], Col(A, j), i, 1.0);
    }
    Ext(Mul(Eye(r), A), A, r, c);
  }

  /** The identity is neutral on the right. */
  lemma MulEyeRight(A: Matrix, r: nat, c: nat)
    requires 1 <= r && 1 <= c && IsMatrix(A, r, c)
    ensures Mul(A, Eye(c)) == A
  {
    forall i, j | 0 <= i < r && 0 <= j < c ensures Mul(A, Eye(c))[i][j] == A[i][j] {
      DotComm(A[i], Col(Eye(c), j));
      DotSpike(Col(Eye(c), j), A[i], j, 1.0);
    }
    Ext(Mul(A, Eye(c)), A, r, c);
  }

  /** `eye(r) * s` acts on the left as multiplication by the scalar s. */
  lemma MulScaledEye(A: Matrix, r: nat, c: nat, s: real)
    requires 1 <= r && IsMatrix(A, r, c)
    ensures IsMatrix(Scale(Eye(r), s), r, r)
    ensures Mul(Scale(Eye(r), s), A) == Scale(A, s)
  {
    var D := Scale(Eye(r), s);
    forall i, j | 0 <= i < r && 0 <= j < c ensures Mul(D, A)[i][j] == A[i][j] * s {
      DotSpike(D[i], Col(A, j), i, s);
    }
    Ext(Mul(D, A), Scale(A, s), r, c);
  }

  /** `eye(n) * s` is symmetric (the initial P_post and the noise matrices Q and R). */
  lemma ScaledEyeSymmetric(n: nat, s: real)
    ensures Symmetric(Scale(Eye(n), s))
  {
  }

  /** A product with a zero matrix is zero. */
  lemma MulZeros(A: Matrix, r: nat, k: nat, c: nat)
    requires 1 <= r && 1 <= k && IsMatrix(A, r, k)
    ensures Mul(A, Zeros(k, c)) == Zeros(r, c)
  {
    forall i, j | 0 <= i < r && 0 <= j < c ensures Mul(A, Zeros(k, c))[i][j] == 0.0 {
      DotComm(A[i], Col(Zeros(k, c), j));
      DotZeroLeft(Col(Zeros(k, c), j), A[i]);
    }
    Ext(Mul(A, Zeros(k, c)), Zeros(r, c), r, c);
  }

  lemma AddZeros(A: Matrix, r: nat, c: nat)
    requires 1 <= r && IsMatrix(A, r, c)
    ensures Add(A, Zeros(r, c)) == A
  {
    Ext(Add(A, Zeros(r, c)), A, r, c);
  }

  lemma SubSelf(A: Matrix, r: nat, c: nat)
    requires 1 <= r && IsMatrix(A, r, c)
    ensures Sub(A, A) == Zeros(r, c)
  {
    Ext(Sub(A, A), Zeros(r, c), r, c);
  }

  /** Subtracting B undoes adding B. */
  lemma AddSubCancel(A: Matrix, B: Matrix, r: nat, c: nat)
    requires 1 <= r && IsMatrix(A, r, c) && IsMatrix(B, r, c)
    ensures Sub(Add(A, B), B) == A
  {
    Ext(Sub(Add(A, B), B), A, r, c);
  }

  /** Adding B undoes subtracting B. */
  lemma SubAddCancel(A: Matrix, B: Matrix, r: nat, c: nat)
    requires 1 <= r && IsMatrix(A, r, c) && IsMatrix(B, r, c)
    ensures Add(Sub(A, B), B) == A
  {
    Ext(Add(Sub(A, B), B), A, r, c);
  }

  /** Transposing twice gives the matrix back. */
  lemma TransposeTwice(A: Matrix, r: nat, c: nat)
    requires 1 <= r && 1 <= c && IsMatrix(A, r, c)
    ensures Transpose(Transpose(A)) == A
  {
    Ext(Transpose(Transpose(A)), A, r, c);
  }

  lemma TransposeAdd(A: Matrix, B: Matrix, r: nat, c: nat)
    requires 1 <= r && 1 <= c && IsMatrix(A, r, c) && IsMatrix(B, r, c)
    ensures Transpose(Add(A, B)) == Add(Transpose(A), Transpose(B))
  {
    Ext(Transpose(Add(A, B)), Add(Transpose(A), Transpose(B)), c, r);
  }

  lemma TransposeSub(A: Matrix, B: Matrix, r: nat, c: nat)
    requires 1 <= r && 1 <= c && IsMatrix(A, r, c) && IsMatrix(B, r, c)
    ensures Transpose(Sub(A, B)) == Sub(Transpose(A), Transpose(B))
  {
    Ext(Transpose(Sub(A, B)), Sub(Transpose(A), Transpose(B)), c, r);
  }

  /** A - (A - B) == B. */
  lemma SubSub(A: Matrix, B: Matrix, r: nat, c: nat)
    requires 1 <= r && IsMatrix(A, r, c) && IsMatrix(B, r, c)
    ensures Sub(A, Sub(A, B)) == B
  {
    Ext(Sub(A, Sub(A, B)), B, r, c);
  }

  /** (A B)^T == B^T A^T. */
  lemma TransposeMul(A: Matrix, B: Matrix, r: nat, k: nat, c: nat)
    requires 1 <= r && 1 <= k && 1 <= c
    requires IsMatrix(A, r, k) && IsMatrix(B, k, c)
    ensures Transpose(Mul(A, B)) == Mul(Transpose(B), Transpose(A))
  {
    var AT, BT := Transpose(A), Transpose(B);
    forall j, i | 0 <= j < c && 0 <= i < r ensures Transpose(Mul(A, B))[j][i] == Mul(BT, AT)[j][i] {
      assert BT[j] == Col(B, j);
      assert Col(AT, i) == A[i];
      DotComm(A[i], Col(B, j));
    }
    Ext(Transpose(Mul(A, B)), Mul(BT, AT), c, r);
  }

  /** A square matrix is symmetric exactly when it is its own transpose. */
  lemma SymmetricIffTransposeFixed(A: Matrix)
    requires 1 <= |A| && IsSquare(A)
    ensures Symmetric(A) <==> Transpose(A) == A
  {
    if Symmetric(A) {
      Ext(Transpose(A), A, |A|, |A|);
    }
    if Transpose(A) == A {
      forall i, j | 0 <= i < |A| && 0 <= j < |A| ensures A[i][j] == A[j][i] {
        assert Transpose(A)[j][i] == A[i][j];
      }
    }
  }

  /** The identity is its own transpose. */
  lemma TransposeEye(k: nat)
    requires 1 <= k
    ensures Transpose(Eye(k)) == Eye(k)
  {
    Ext(Transpose(Eye(k)), Eye(k), k, k);
  }

  /** (A - B) C == A C - B C. */
  lemma MulSubDistrib(A: Matrix, B: Matrix, C: Matrix, r: nat, k: nat, c: nat)
    requires 1 <= r && 1 <= k
    requires IsMatrix(A, r, k) && IsMatrix(B, r, k) && IsMatrix(C, k, c)
    ensures Mul(Sub(A, B), C) == Sub(Mul(A, C), Mul(B, C))
  {
    var D := Sub(A, B);
    forall i, j | 0 <= i < r && 0 <= j < c
      ensures Mul(D, C)[i][j] == Mul(A, C)[i][j] - Mul(B, C)[i][j]
    {
      DotCombine(D[i], B[i], A[i], Col(C, j), -1.0);
    }
    Ext(Mul(D, C), Sub(Mul(A, C), Mul(B, C)), r, c);
  }

  /** A (B - C) == A B - A C. */
  lemma MulSubDistribLeft(A: Matrix, B: Matrix, C: Matrix, r: nat, k: nat, c: nat)
    requires 1 <= r && 1 <= k
    requires IsMatrix(A, r, k) && IsMatrix(B, k, c) && IsMatrix(C, k, c)
    ensures Mul(A, Sub(B, C)) == Sub(Mul(A, B), Mul(A, C))
  {
    var D := Sub(B, C);
    forall i, j | 0 <= i < r && 0 <= j < c
      ensures Mul(A, D)[i][j] == Mul(A, B)[i][j] - Mul(A, C)[i][j]
    {
      DotComm(A[i], Col(D, j));
      DotComm(A[i], Col(B, j));
      DotComm(A[i], Col(C, j));
      DotCombine(Col(D, j), Col(C, j), Col(B, j), A[i], -1.0);
    }
    Ext(Mul(A, D), Sub(Mul(A, B), Mul(A, C)), r, c);
  }

  /** Sums and differences of symmetric matrices are symmetric. */
  lemma AddSubSymmetric(A: Matrix, B: Matrix)
    requires Symmetric(A) && Symmetric(B) && |A| == |B|
    ensures Symmetric(Add(A, B)) && Symmetric(Sub(A, B))
  {
  }

  /** X Y X^T is symmetric when Y is, for any r-by-k matrix X. */
  lemma SandwichSymmetric(X: Matrix, Y: Matrix, r: nat, k: nat)
    requires 1 <= r && 1 <= k && IsMatrix(X, r, k) && IsMatrix(Y, k, k) && Symmetric(Y)
    ensures Symmetric(Mul(Mul(X, Y), Transpose(X)))
  {
    var XY := Mul(X, Y);
    var A := Mul(XY, Transpose(X));
    SymmetricIffTransposeFixed(Y);
    calc {
      Transpose(A);
      { TransposeMul(XY, Transpose(X), r, k, r); }
      Mul(Transpose(Transpose(X)), Transpose(XY));
      { TransposeTwice(X, r, k); TransposeMul(X, Y, r, k, k); }
      Mul(X, Mul(Transpose(Y), Transpose(X)));
      Mul(X, Mul(Y, Transpose(X)));
      { MulAssoc(X, Y, Transpose(X), r, k, k, r); }
      A;
    }
    SymmetricIffTransposeFixed(A);
  }

  /** A two-sided inverse is unique. */
  lemma InverseUnique(S: Matrix, T1: Matrix, T2: Matrix, k: nat)
    requires 1 <= k && IsMatrix(S, k, k) && IsMatrix(T1, k, k) && IsMatrix(T2, k, k)
    requires Mul(T1, S) == Eye(k) && Mul(S, T2) == Eye(k)
    ensures T1 == T2
  {
    calc {
      T1;
      { MulEyeRight(T1, k, k); }
      Mul(T1, Eye(k));
      Mul(T1, Mul(S, T2));
      { MulAssoc(T1, S, T2, k, k, k, k); }
      Mul(Mul(T1, S), T2);
      Mul(Eye(k), T2);
      { MulEyeLeft(T2, k, k); }
      T2;
    }
  }

  /** Any two routines meeting the inversion contract agree, so the model of
      `invert` determines its result. */
  lemma InvertersAgree(inv1: Matrix -> Matrix, inv2: Matrix -> Matrix, S: Matrix)
    requires IsInverter(inv1) && IsInverter(inv2) && Invertible(S)
    ensures inv1(S) == inv2(S)
  {
    InverseUnique(S, inv1(S), inv2(S), |S|);
  }

  /** The inverse of a symmetric matrix is symmetric: its transpose is a
      left inverse, hence the inverse itself. */
  lemma InverseSymmetric(S: Matrix, T: Matrix)
    requires 1 <= |S| && IsSquare(S) && Symmetric(S) && IsInverseOf(T, S)
    ensures Symmetric(T)
  {
    var k := |S|;
    SymmetricIffTransposeFixed(S);
    calc {
      Mul(Transpose(T), S);
      Mul(Transpose(T), Transpose(S));
      { TransposeMul(S, T, k, k, k); }
      Transpose(Mul(S, T));
      { TransposeEye(k); }
      Eye(k);
    }
    InverseUnique(S, Transpose(T), T, k);
    SymmetricIffTransposeFixed(T);
  }

  /** Reading back an entry just written gives the value written, and every
      other entry reads as before. */
  lemma GetAfterSetEntry(A: Matrix, i: int, j: int, v: real, p: int, q: int)
    requires Rect(A) && SetEntry(A, i, j, v).Some?
    ensures GetEntry(SetEntry(A, i, j, v).value, i, j) == Some(v)
    ensures Index(p, |A|) != Index(i, |A|) || Index(q, Cols(A)) != Index(j, Cols(A)) ==>
              GetEntry(SetEntry(A, i, j, v).value, p, q) == GetEntry(A, p, q)
  {
  }

  /** Writing one entry of a copy: the copy holds the new value at the written
      cell and the source's values everywhere else. */
  lemma SetEntryOnCopy(A: Matrix, i: int, j: int, v: real)
    requires Rect(A) && SetEntry(Copy(A), i, j, v).Some?
    ensures GetEntry(SetEntry(Copy(A), i, j, v).value, i, j) == Some(v)
    ensures forall p, q ::
              (0 <= p < |A| && 0 <= q < Cols(A) && (p != Index(i, |A|).value || q != Index(j, Cols(A)).value)) ==>
              SetEntry(Copy(A), i, j, v).value[p][q] == A[p][q]
  {
    GetAfterSetEntry(Copy(A), i, j, v, i, j);
  }

  /** `asarray` undoes `fromTuple`. */
  lemma AsArrayColumn(t: seq<real>)
    ensures AsArray(Column(t)) == t
  {
  }

  /** `fromTuple` undoes `asarray` on an n-by-1 vector. */
  lemma ColumnAsArray(A: Matrix, n: nat)
    requires IsMatrix(A, n, 1)
    ensures Column(AsArray(A)) == A
  {
    forall i | 0 <= i < n ensures Column(AsArray(A))[i] == A[i] {
      assert |A[i]| == 1;
    }
  }

  /** Applying a product to v applies its factors in turn. */
  lemma MatVecMul(A: Matrix, B: Matrix, v: seq<real>, r: nat, k: nat, c: nat)
    requires 1 <= r && 1 <= k && IsMatrix(A, r, k) && IsMatrix(B, k, c) && |v| == c
    ensures MatVec(Mul(A, B), v) == MatVec(A, MatVec(B, v))
  {
    var AB := Mul(A, B);
    forall i | 0 <= i < r ensures MatVec(AB, v)[i] == MatVec(A, MatVec(B, v))[i] {
      assert AB[i] == RowTimes(A[i], B, c);
      Bilinear(A[i], B, c, v);
    }
  }

  /** v . (X u) == (X^T v) . u. */
  lemma DotMatVecTranspose(X: Matrix, v: seq<real>, u: seq<real>, r: nat, k: nat)
    requires 1 <= r && 1 <= k && IsMatrix(X, r, k) && |v| == r && |u| == k
    ensures Dot(v, MatVec(X, u)) == Dot(MatVec(Transpose(X), v), u)
  {
    forall j | 0 <= j < k ensures MatVec(Transpose(X), v)[j] == RowTimes(v, X, k)[j] {
      assert Transpose(X)[j] == Col(X, j);
      DotComm(Col(X, j), v);
    }
    assert MatVec(Transpose(X), v) == RowTimes(v, X, k);
    Bilinear(v, X, k, u);
  }

  lemma {:induction false} DotSelfNonneg(v: seq<real>)
    ensures Dot(v, v) >= 0.0
  {
    if |v| > 0 {
      DotSelfNonneg(v[1..]);
      assert v[0] * v[0] >= 0.0;
    }
  }

  /** A is symmetric positive-semidefinite: v . (A v) >= 0 for every v. */
  ghost predicate PSD(A: Matrix)
  {
    Symmetric(A) && forall v :: |v| == |A| ==> Dot(v, MatVec(A, v)) >= 0.0
  }

  /** X Y X^T is positive-semidefinite when Y is, for any r-by-k X. */
  lemma SandwichPSD(X: Matrix, Y: Matrix, r: nat, k: nat)
    requires 1 <= r && 1 <= k && IsMatrix(X, r, k) && IsMatrix(Y, k, k) && PSD(Y)
    ensures PSD(Mul(Mul(X, Y), Transpose(X)))
  {
    var Xt := Transpose(X);
    var XY := Mul(X, Y);
    var A := Mul(XY, Xt);
    SandwichSymmetric(X, Y, r, k);
    forall v | |v| == r ensures Dot(v, MatVec(A, v)) >= 0.0 {
      var w := MatVec(Xt, v);
      MatVecMul(XY, Xt, v, r, k, r);
      MatVecMul(X, Y, w, r, k, k);
      DotMatVecTranspose(X, v, MatVec(Y, w), r, k);
      assert Dot(w, MatVec(Y, w)) >= 0.0;
    }
  }

  /** Dot is additive in its first argument. */
  lemma {:induction false} DotAdd(z: seq<real>, x: seq<real>, y: seq<real>, w: seq<real>)
    requires |z| == |x| == |y| == |w|
    requires forall l :: 0 <= l < |z| ==> z[l] == x[l] + y[l]
    ensures Dot(z, w) == Dot(x, w) + Dot(y, w)
  {
    if |z| > 0 {
      DotAdd(z[1..], x[1..], y[1..], w[1..]);
      assert z[0] * w[0] == x[0] * w[0] + y[0] * w[0];
    }
  }

  /** (A + B) v == A v + B v, entry by entry. */
  lemma MatVecAdd(A: Matrix, B: Matrix, v: seq<real>)
    requires IsSquare(A) && IsMatrix(B, |A|, |A|) && |v| == |A|
    ensures |MatVec(Add(A, B), v)| == |A|
    ensures forall i :: 0 <= i < |A| ==> MatVec(Add(A, B), v)[i] == MatVec(A, v)[i] + MatVec(B, v)[i]
  {
    forall i | 0 <= i < |A| ensures MatVec(Add(A, B), v)[i] == MatVec(A, v)[i] + MatVec(B, v)[i] {
      DotAdd(Add(A, B)[i], A[i], B[i], v);
    }
  }

  /** The quadratic form of a sum is the sum of the quadratic forms. */
  lemma QuadAdd(A: Matrix, B: Matrix, v: seq<real>)
    requires IsSquare(A) && IsMatrix(B, |A|, |A|) && |v| == |A|
    ensures Dot(v, MatVec(Add(A, B), v)) == Dot(v, MatVec(A, v)) + Dot(v, MatVec(B, v))
  {
    var a, b, c := MatVec(A, v), MatVec(B, v), MatVec(Add(A, B), v);
    MatVecAdd(A, B, v);
    DotComm(v, a);
    DotComm(v, b);
    DotComm(v, c);
    DotAdd(c, a, b, v);
  }

  /** The sum of two positive-semidefinite matrices is positive-semidefinite. */
  lemma AddPSD(A: Matrix, B: Matrix)
    requires PSD(A) && PSD(B) && |A| == |B|
    ensures PSD(Add(A, B))
  {
    AddSubSymmetric(A, B);
    forall v | |v| == |A| ensures Dot(v, MatVec(Add(A, B), v)) >= 0.0 {
      QuadAdd(A, B, v);
    }
  }

  /** eye(n) * s is positive-semidefinite for s >= 0. */
  lemma ScaledEyePSD(n: nat, s: real)
    requires 0.0 <= s
    ensures PSD(Scale(Eye(n), s))
  {
    var D := Scale(Eye(n), s);
    ScaledEyeSymmetric(n, s);
    forall v | |v| == n ensures Dot(v, MatVec(D, v)) >= 0.0 {
      var d := MatVec(D, v);
      forall i | 0 <= i < n ensures d[i] == s * v[i] + 0.0 {
        DotSpike(D[i], v, i, s);
      }
      var zero := seq(n, l => 0.0);
      DotComm(v, d);
      DotCombine(d, v, zero, v, s);
      DotZeroLeft(zero, v);
      DotSelfNonneg(v);
      assert s * Dot(v, v) >= 0.0;
    }
  }
}
