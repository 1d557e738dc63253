# TinyEKF in Dafny

A model of the Python TinyEKF package (`python/tinyekf/__init__.py`), a generic
Extended Kalman Filter. The package has two layers, and so does the model:

- **Matrix substrate** (`matrices.dfy`, module `Matrices`; laws in
  `matrix_laws.dfy`, module `MatrixLaws`). This models `_Matrix` and `_Vector`.
  A matrix is its `data` array taken as a value, a `seq<seq<real>>`. Its
  shape is stated with `IsMatrix(A, r, c)`. A `_Vector` is an n-by-1 matrix.
  A data array that the source leaves `None` is `Option.None`, and so is an
  index outside the array.
  Each operation is a function. Its contract gives its shape rule and the
  meaning of each entry. The laws file relates the operations to each other:
  - identity and scaled identity under product, and associativity;
  - transpose of a sum and of a product, and transposing twice;
  - add and subtract undo each other;
  - uniqueness of inverses, and get-after-set.
  `_Vector.fromTuple` fills its buffer with a loop, so it is the method
  `FromTuple`, proved against the function `Column`.
- **Filter** (`ekf.dfy`, module `TinyEKF`; laws in `ekf_laws.dfy`, module
  `TinyEKFLaws`). This models class `EKF`. It has the same fields `x`, `P_pre`,
  `P_post`, `F`, `H`, `Q`, `R` and `I`.
  - A `Callbacks` value carries the four functions an implementing class
    supplies (`f`, `getF`, `h`, `getH`). `WellShaped` gives their shapes.
  - `np.linalg.inv` is a routine `inv` meeting `IsInverter`: on every
    invertible matrix it returns a two-sided inverse.
  - The constructor states every field's initial value.
  - `Step` runs the source's assignments in the source's order. It is proved
    to produce `StepSpec` of the old state.
  - `Step` keeps the shape invariant `Valid()`, and it leaves `F`, `H`, `Q`,
    `R` and `I` unchanged.
  The laws prove these things about `StepSpec`:
  - a step keeps both covariances symmetric, so every belief a filter reaches
    from construction through any run of measurements has symmetric
    `P_pre` and `P_post`;
  - with pval, qval, rval >= 0, every such belief also has
    positive-semidefinite covariances. The proof rewrites the corrected
    covariance in Joseph form, (I - G H) P_pre (I - G H)ᵀ + G R Gᵀ;
  - the gain solves `G S = P_pre Hᵀ`;
  - the result does not depend on which correct inverter is used;
  - a measurement equal to the predicted observation leaves the predicted
    state as it is;
  - for a scalar filter with F = H = 1 and Q = 0, one step from a variance
    p >= 0 with measurement noise r > 0 never increases the variance.
  `Feed` drives a filter through a sequence of measurements with `Step`, and
  `ReplayAgrees` shows that two filters built alike and fed alike return the
  same state, the state of the run `Run`.

Entries are Dafny `real`s, so every equation holds exactly. Nothing here
speaks about floating-point rounding.

Two points of the code's behaviour matter for the model:
- The code has no `DimensionMismatch` or `SingularMatrix` checks. For a
  measurement z whose length is neither 1 nor m (with m > 1), the
  subtraction on line 73 raises, because numpy cannot broadcast (|z|, 1)
  against (m, 1). An empty z raises too, because `fromTuple` leaves its data
  `None`. A 1-element z is broadcast over all m rows. A singular innovation
  covariance makes the code print and `exit(0)`. The model gives the code's
  shape and invertibility demands as preconditions.
- A step that raises on line 73 leaves the filter half-updated. By then,
  lines 60-65 have already set `x` to f(x), `P_pre` to F P_post Fᵀ + Q and
  `P_post` to a copy of `P_pre`. The model has no such failed step.
- `step` returns `np.asarray(self.data[:,0])`, a numpy view of column 0 of
  the state. The model returns a value.

## Model

| member | source | states |
|---|---|---|
| `Matrices.NewMatrix` | python/tinyekf/__init__.py:114-116 | `_Matrix(r, c)` has data exactly when r > 0 and c > 0; the data is then an r-by-c matrix of zeros |
| `Matrices.NewVector` | python/tinyekf/__init__.py:204-206 | `_Vector(n)` has data exactly when n > 0; the data is then an n-by-1 column of zeros |
| `Matrices.Eye` | python/tinyekf/__init__.py:181-191 | `eye(n, m)` is n-by-m, or n-by-n when m == 0; entry (i, j) is 1 when i == j and 0 otherwise |
| `Matrices.Mul` | python/tinyekf/__init__.py:122-132 | the product of an r-by-k and a k-by-c matrix is r-by-c; entry (i, j) is the inner product of row i of A and column j of B |
| `Matrices.Scale` | python/tinyekf/__init__.py:122-132 | multiplying by a scalar keeps every row length; each entry becomes A[i][j] * s |
| `Matrices.Add` | python/tinyekf/__init__.py:134-138 | the sum of two equal-shaped matrices has that shape, with entry A[i][j] + B[i][j] |
| `Matrices.Sub` | python/tinyekf/__init__.py:140-144 | the difference of two equal-shaped matrices has that shape, with entry A[i][j] - B[i][j] |
| `Matrices.Transpose` | python/tinyekf/__init__.py:164-168 | an r-by-c matrix becomes c-by-r, with T[j][i] == A[i][j] |
| `Matrices.Copy` | python/tinyekf/__init__.py:158-162 | a copy is equal to its source |
| `Matrices.Index` | python/tinyekf/__init__.py:146-152 | a numpy index is valid exactly when -len <= key < len; a valid key stands for key itself when key >= 0 and for len + key when key < 0 |
| `Matrices.GetEntry` | python/tinyekf/__init__.py:150-152 | `A[i, j]` is defined exactly when both indices are valid, and it is then the entry at the positions they stand for |
| `Matrices.GetRow` | python/tinyekf/__init__.py:150-152 | `A[i]` is defined exactly when i is valid, and it is then that row |
| `Matrices.SetEntry` | python/tinyekf/__init__.py:146-148 | `A[i, j] = v` succeeds exactly when both indices are valid; the shape is kept, the addressed entry becomes v and every other entry keeps its value |
| `Matrices.SetRow` | python/tinyekf/__init__.py:146-148 | `A[i] = v` succeeds exactly when i is valid; the shape is kept, every entry of row i becomes v and the other rows keep their values |
| `Matrices.AsArray` | python/tinyekf/__init__.py:154-156 | `asarray` has one element per row, element i being A[i][0] |
| `Matrices.Column` | python/tinyekf/__init__.py:208-216 | the column built from t is len(t)-by-1 with entry k equal to t[k] |
| `Matrices.FromTuple` | python/tinyekf/__init__.py:208-216 | the loop over k builds a column exactly when t is non-empty; that column is len(t)-by-1, holds t[k] at row k and equals `Column(t)` |
| `MatrixLaws.MulAssoc` | python/tinyekf/__init__.py:122-132 | the matrix product is associative, so a left-to-right chain such as `F * P * F.transpose()` means one matrix |
| `MatrixLaws.MulEyeLeft` | python/tinyekf/__init__.py:181-191 | eye(r) * A == A |
| `MatrixLaws.MulEyeRight` | python/tinyekf/__init__.py:181-191 | A * eye(c) == A |
| `MatrixLaws.MulScaledEye` | python/tinyekf/__init__.py:126-128 | (eye(r) * s) * A equals A scaled by s, as for `P_post`, `Q` and `R` |
| `MatrixLaws.ScaledEyeSymmetric` | python/tinyekf/__init__.py:38-46 | eye(n) * s is symmetric |
| `MatrixLaws.MulZeros` | python/tinyekf/__init__.py:122-132 | a product with a zero matrix is the zero matrix of the product's shape |
| `MatrixLaws.AddZeros` | python/tinyekf/__init__.py:134-138 | adding the zero matrix changes nothing |
| `MatrixLaws.SubSelf` | python/tinyekf/__init__.py:140-144 | A - A is the zero matrix |
| `MatrixLaws.AddSubCancel` | python/tinyekf/__init__.py:134-144 | (A + B) - B == A |
| `MatrixLaws.SubAddCancel` | python/tinyekf/__init__.py:134-144 | (A - B) + B == A |
| `MatrixLaws.TransposeTwice` | python/tinyekf/__init__.py:164-168 | transposing twice gives back the original |
| `MatrixLaws.TransposeAdd` | python/tinyekf/__init__.py:134-138 | (A + B)ᵀ == Aᵀ + Bᵀ |
| `MatrixLaws.TransposeMul` | python/tinyekf/__init__.py:164-168 | (A B)ᵀ == Bᵀ Aᵀ |
| `MatrixLaws.TransposeEye` | python/tinyekf/__init__.py:181-191 | the identity is its own transpose |
| `MatrixLaws.MulSubDistrib` | python/tinyekf/__init__.py:122-144 | (A - B) C == A C - B C, as used for `(I - G H) P_pre` |
| `MatrixLaws.SandwichSymmetric` | python/tinyekf/__init__.py:122-132 | X Y Xᵀ is symmetric for every r-by-k X and symmetric Y |
| `MatrixLaws.InverseSymmetric` | python/tinyekf/__init__.py:170-179 | the inverse of a symmetric matrix is symmetric |
| `MatrixLaws.TransposeSub` | python/tinyekf/__init__.py:140-144 | (A - B)ᵀ == Aᵀ - Bᵀ |
| `MatrixLaws.SubSub` | python/tinyekf/__init__.py:140-144 | A - (A - B) == B |
| `MatrixLaws.MulSubDistribLeft` | python/tinyekf/__init__.py:122-144 | A (B - C) == A B - A C |
| `MatrixLaws.MatVecMul` | python/tinyekf/__init__.py:122-132 | (A B) v == A (B v) |
| `MatrixLaws.DotMatVecTranspose` | python/tinyekf/__init__.py:164-168 | v · (X u) == (Xᵀ v) · u |
| `MatrixLaws.QuadAdd` | python/tinyekf/__init__.py:134-138 | the quadratic form v · ((A + B) v) is the sum of those of A and B |
| `MatrixLaws.SandwichPSD` | python/tinyekf/__init__.py:122-132 | X Y Xᵀ is positive-semidefinite for every r-by-k X and positive-semidefinite Y |
| `MatrixLaws.AddPSD` | python/tinyekf/__init__.py:134-138 | a sum of two positive-semidefinite matrices is positive-semidefinite |
| `MatrixLaws.ScaledEyePSD` | python/tinyekf/__init__.py:38-46 | eye(n) * s is positive-semidefinite for s >= 0 |
| `MatrixLaws.SymmetricIffTransposeFixed` | python/tinyekf/__init__.py:164-168 | a square matrix is symmetric exactly when it equals its transpose |
| `MatrixLaws.InverseUnique` | python/tinyekf/__init__.py:170-179 | a left inverse and a right inverse of a square matrix are equal |
| `MatrixLaws.InvertersAgree` | python/tinyekf/__init__.py:170-179 | any two routines meeting the inversion contract return the same matrix for an invertible input |
| `MatrixLaws.GetAfterSetEntry` | python/tinyekf/__init__.py:146-152 | after `A[i, j] = v`, `A[i, j]` reads v; an entry at another position reads as before |
| `MatrixLaws.SetEntryOnCopy` | python/tinyekf/__init__.py:146-162 | writing one entry of a copy puts v there, and every other entry of the copy equals the source's |
| `MatrixLaws.AsArrayColumn` | python/tinyekf/__init__.py:154-156 | `asarray(fromTuple(t)) == t` |
| `MatrixLaws.ColumnAsArray` | python/tinyekf/__init__.py:154-156 | building a column from `asarray(v)` gives back the n-by-1 vector v |
| `TinyEKF.PredictCov` | python/tinyekf/__init__.py:62-63 | F P_post Fᵀ + Q is n-by-n for n-by-n operands |
| `TinyEKF.Innovation` | python/tinyekf/__init__.py:69-70 | H P_pre Hᵀ + R is m-by-m for an m-by-n H, an n-by-n P_pre and an m-by-m R |
| `TinyEKF.Gain` | python/tinyekf/__init__.py:69-70 | P_pre Hᵀ S⁻¹ is n-by-m |
| `TinyEKF.CorrectState` | python/tinyekf/__init__.py:72-73 | x + G (z - h) is n-by-1 |
| `TinyEKF.CorrectCov` | python/tinyekf/__init__.py:75-76 | (I - G H) P_pre is n-by-n; its symmetry is `TinyEKFLaws.CorrectCovSymmetric` |
| `TinyEKF.StepSpec` | python/tinyekf/__init__.py:51-78 | when the step is defined, it keeps `x` n-by-1, sets `P_pre` to an n-by-n matrix and keeps `P_post` n-by-n |
| `TinyEKF.EKF.constructor` | python/tinyekf/__init__.py:26-49 | after construction `P_pre` is absent, `x` is the n-by-1 zero vector, `P_post = pval I`, `F` and `H` are getF and getH at the zero state, `Q = qval I`, `R = rval I` (m-by-m), `I` is the n-by-n identity, which together are `InitialModel` and `InitialBelief`; the defaults are pval 0.1, qval 0.0001, rval 0.1 |
| `TinyEKF.EKF.Step` | python/tinyekf/__init__.py:51-78 | with \|z\| == m and an invertible innovation covariance, the shape invariant is kept, `F`, `H`, `Q`, `R`, `I` and the dimensions and callbacks are unchanged, the new `x`, `P_pre` and `P_post` are those of `StepSpec` (predict x' = f(x), P_pre = F P_post Fᵀ + Q, gain, x = x' + G (z - h(x')), P_post = (I - G H) P_pre), and the result is the n entries of the new `x` |
| `TinyEKFLaws.PredictCovSymmetric` | python/tinyekf/__init__.py:62-63 | F P Fᵀ + Q is symmetric when P and Q are |
| `TinyEKFLaws.InnovationSymmetric` | python/tinyekf/__init__.py:69-70 | H P Hᵀ + R is symmetric when P and R are |
| `TinyEKFLaws.CorrectCovSymmetric` | python/tinyekf/__init__.py:69-76 | (I - G H) P_pre, with the gain G = P_pre Hᵀ S⁻¹, is symmetric when P_pre and R are |
| `TinyEKFLaws.StepKeepsSymmetry` | python/tinyekf/__init__.py:59-76 | a step from symmetric covariances with symmetric Q and R gives a symmetric `P_pre` and a symmetric `P_post` |
| `TinyEKFLaws.InitialSymmetric` | python/tinyekf/__init__.py:36-46 | a freshly built filter has symmetric `P_post`, `Q` and `R` |
| `TinyEKFLaws.RunKeepsSymmetry` | python/tinyekf/__init__.py:51-78 | symmetric covariances stay symmetric through any sequence of steps |
| `TinyEKFLaws.FilterStaysSymmetric` | python/tinyekf/__init__.py:26-78 | every belief reached from construction through a run of measurements has symmetric covariances |
| `TinyEKFLaws.GainResidual` | python/tinyekf/__init__.py:69-76 | with K = I - G H, K P_pre Hᵀ == G R |
| `TinyEKFLaws.JosephForm` | python/tinyekf/__init__.py:69-76 | (I - G H) P_pre == K P_pre Kᵀ + G R Gᵀ for K = I - G H |
| `TinyEKFLaws.CorrectCovPSD` | python/tinyekf/__init__.py:69-76 | (I - G H) P_pre is positive-semidefinite when P_pre and R are |
| `TinyEKFLaws.StepKeepsPSD` | python/tinyekf/__init__.py:59-76 | a step from positive-semidefinite covariances with positive-semidefinite Q and R gives a positive-semidefinite `P_pre` and `P_post` |
| `TinyEKFLaws.InitialPSD` | python/tinyekf/__init__.py:36-46 | with pval, qval, rval >= 0 a freshly built filter has positive-semidefinite `P_post`, `Q` and `R` |
| `TinyEKFLaws.RunKeepsPSD` | python/tinyekf/__init__.py:51-78 | positive semi-definiteness holds through any sequence of steps |
| `TinyEKFLaws.FilterStaysPSD` | python/tinyekf/__init__.py:26-78 | with pval, qval, rval >= 0, every belief reached from construction through a run of measurements has positive-semidefinite covariances |
| `TinyEKFLaws.Feed` | python/tinyekf/__init__.py:51-78 | calling `step` on each measurement in order keeps `Valid()` and the fixed model, leaves the filter in the belief `Run` gives, and returns its state |
| `TinyEKFLaws.GainEquation` | python/tinyekf/__init__.py:69-70 | the gain G satisfies G S == P_pre Hᵀ for the innovation covariance S |
| `TinyEKFLaws.StepIndependentOfInverter` | python/tinyekf/__init__.py:69-70 | replacing the inversion routine by another one meeting the contract gives the same step |
| `TinyEKFLaws.ZeroInnovation` | python/tinyekf/__init__.py:72-73 | when z equals `asarray(h(f(x)))`, the new state is exactly the predicted state f(x) |
| `TinyEKFLaws.ScalarVarianceShrinks` | python/tinyekf/__init__.py:59-76 | for n = m = 1, F = H = 1, Q = 0, R = r > 0 and P_post = p >= 0, the step is defined, P_pre = p and the new P_post is p r / (p + r), which lies between 0 and p |
| `TinyEKFLaws.ReplayAgrees` | python/tinyekf/__init__.py:26-78 | two filters built from the same model functions and parameters and fed the same sequence of measurements return the same state, the n entries of the state of the run |

## Left out

- Floating point: entries are exact reals. Nothing is said about numpy's rounding or numerical stability (`np.zeros`, `np.dot`, `np.eye`, `np.linalg.inv`).
- Inversion: `np.linalg.inv` is a routine passed in at construction. Its contract `IsInverter` says it returns a two-sided inverse of every invertible matrix. On a singular matrix the source prints and calls `exit(0)`. That path is not modelled: `EKF.Step` requires the innovation covariance to be invertible.
- Shape errors and broadcasting: numpy raises on a product with mismatched inner dimensions and broadcasts in `+`/`-`. The model requires matching shapes instead.
- `EKF.Step` requires |z| == m. The code does not check this. A 1-element z is broadcast over all m rows. Any other length makes line 73 raise, after lines 60-65 have already replaced `x`, `P_pre` and `P_post`. Neither the broadcast nor the half-finished step is modelled.
- `FilterStaysPSD` requires pval, qval, rval >= 0. Lines 26-46 accept any sign, and with negative scales the covariances need not be positive-semidefinite. The symmetry results (`FilterStaysSymmetric`) hold for every sign.
- Zero-size matrices: `_Matrix(r, c)` and `_Vector(n)` with a size of 0 or less are modelled (data `None`). The filter and the algebraic laws require sizes of at least 1, because a `seq<seq<real>>` with no rows does not record its column count. `Eye` takes `nat` sizes: `np.eye` with a negative size raises `ValueError`, and that path is not modelled.
- Aliasing: `transpose` returns a view, `fromData` wraps without copying, and `asarray` returns a view of column 0. The filter never writes through these results, so the model treats them as values. Update in place through shared arrays is not captured.
- `_Matrix.fromData` and `_Vector.fromData`: they wrap a raw array as is, which on values is the identity. The model uses the callback results directly.
- `__mul__` dispatches on the Python type name of its operand (`float` or `int` means scalar). The model has two functions instead, `Scale` and `Mul`.
- numpy keys other than an int (a row) and an (int, int) pair (an entry), such as slices and index arrays, are not modelled.
- `__str__`: display only.
- The abstract-method machinery (`ABCMeta`, `abstractmethod`, the `NotImplementedError` bodies): the four callbacks are total functions with the shape contract `WellShaped`. The source passes the `_Vector` object to `getF`/`getH` and its data to `f`/`h`. These are the same value here.
- Limit behaviour: convergence of the state to z as R tends to 0, to f(x) as R grows without bound, and of the scalar variance to 0 over many steps. These are limits, which are not stated. The one-step decrease of the scalar variance is (`ScalarVarianceShrinks`).
