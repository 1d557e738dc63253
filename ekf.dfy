/**
  The filter core: class `EKF` of python/tinyekf/__init__.py.  A filter is
  built once from its dimensions and noise scales and then advanced by `Step`,
  one call per measurement.  The four model functions an implementing class
  supplies (`f`, `getF`, `h`, `getH`) are a `Callbacks` value, and
  `np.linalg.inv` is a routine `inv` meeting `IsInverter`; both are fixed at
  construction.
*/
module TinyEKF {
  import opened Wrappers
  import opened Matrices

  /** The state transition f, its Jacobian getF, the observation h and its
      Jacobian getH, as supplied by the implementing class. */
  datatype Callbacks = Callbacks(
    f: Matrix -> Matrix,
    getF: Matrix -> Matrix,
    h: Matrix -> Matrix,
    getH: Matrix -> Matrix)

  /** On every n-by-1 state: f gives an n-by-1 state, getF an n-by-n matrix,
      h an m-by-1 observation and getH an m-by-n matrix. */
  ghost predicate WellShaped(cb: Callbacks, n: nat, m: nat)
  {
    (forall x {:trigger cb.f(x)} :: IsMatrix(x, n, 1) ==> IsMatrix(cb.f(x), n, 1)) &&
    (forall x {:trigger cb.getF(x)} :: IsMatrix(x, n, 1) ==> IsMatrix(cb.getF(x), n, n)) &&
    (forall x {:trigger cb.h(x)} :: IsMatrix(x, n, 1) ==> IsMatrix(cb.h(x), m, 1)) &&
    (forall x {:trigger cb.getH(x)} :: IsMatrix(x, n, 1) ==> IsMatrix(cb.getH(x), m, n))
  }

  /** What a filter holds fixed once it is built. */
  datatype Model = Model(
    n: nat, m: nat,
    cb: Callbacks, inv: Matrix -> Matrix,
    F: Matrix, H: Matrix, Q: Matrix, R: Matrix, I: Matrix)

  ghost predicate ModelValid(md: Model)
  {
    1 <= md.n && 1 <= md.m &&
    WellShaped(md.cb, md.n, md.m) && IsInverter(md.inv) &&
    IsMatrix(md.F, md.n, md.n) && IsMatrix(md.H, md.m, md.n) &&
    IsMatrix(md.Q, md.n, md.n) && IsMatrix(md.R, md.m, md.m) &&
    md.I == Eye(md.n)
  }

  /** What a step changes: the state and the two covariances (`P_pre` is
      `None` until the first step). */
  datatype Belief = Belief(x: Matrix, P_pre: Option<Matrix>, P_post: Matrix)

  ghost predicate BeliefValid(md: Model, b: Belief)
  {
    IsMatrix(b.x, md.n, 1) &&
    (b.P_pre.Some? ==> IsMatrix(b.P_pre.value, md.n, md.n)) &&
    IsMatrix(b.P_post, md.n, md.n)
  }

  /** The predicted covariance F P F^T + Q. */
  function PredictCov(F: Matrix, P: Matrix, Q: Matrix): (Ppre: Matrix)
    requires 1 <= |F| && IsSquare(F) && IsMatrix(P, |F|, |F|) && IsMatrix(Q, |F|, |F|)
    ensures IsMatrix(Ppre, |F|, |F|)
  {
    Add(Mul(Mul(F, P), Transpose(F)), Q)
  }

  /** The innovation covariance H P_pre H^T + R. */
  function Innovation(H: Matrix, Ppre: Matrix, R: Matrix): (S: Matrix)
    requires 1 <= |H| && 1 <= |Ppre| && IsSquare(Ppre)
    requires IsMatrix(H, |H|, |Ppre|) && IsMatrix(R, |H|, |H|)
    ensures IsMatrix(S, |H|, |H|)
  {
    Add(Mul(Mul(H, Ppre), Transpose(H)), R)
  }

  /** The Kalman gain P_pre H^T S^-1, given the inverse Sinv of the innovation
      covariance. */
  function Gain(Ppre: Matrix, H: Matrix, Sinv: Matrix): (G: Matrix)
    requires 1 <= |H| && 1 <= |Ppre| && IsSquare(Ppre)
    requires IsMatrix(H, |H|, |Ppre|) && IsMatrix(Sinv, |H|, |H|)
    ensures IsMatrix(G, |Ppre|, |H|)
  {
    Mul(Mul(Ppre, Transpose(H)), Sinv)
  }

  /** The corrected state xp + G (z - hx), for the predicted state xp, the
      measurement column z and the predicted observation hx. */
  function CorrectState(xp: Matrix, G: Matrix, z: Matrix, hx: Matrix): (x: Matrix)
    requires 1 <= |xp| && 1 <= |z|
    requires IsMatrix(xp, |xp|, 1) && IsMatrix(G, |xp|, |z|)
    requires IsMatrix(z, |z|, 1) && IsMatrix(hx, |z|, 1)
    ensures IsMatrix(x, |xp|, 1)
  {
    Add(xp, Mul(G, Sub(z, hx)))
  }

  /** The corrected covariance (I - G H) P_pre. */
  function CorrectCov(I: Matrix, G: Matrix, H: Matrix, Ppre: Matrix): (P: Matrix)
    requires 1 <= |H| && 1 <= |Ppre| && IsSquare(Ppre) && I == Eye(|Ppre|)
    requires IsMatrix(H, |H|, |Ppre|) && IsMatrix(G, |Ppre|, |H|)
    ensures IsMatrix(P, |Ppre|, |Ppre|)
  {
    Mul(Sub(I, Mul(G, H)), Ppre)
  }

  /** A step from belief b on measurement z is defined: the shapes agree,
      |z| == m and the innovation covariance can be inverted. */
  ghost predicate CanStep(md: Model, b: Belief, z: seq<real>)
  {
    ModelValid(md) && BeliefValid(md, b) && |z| == md.m &&
    Invertible(Innovation(md.H, PredictCov(md.F, b.P_post, md.Q), md.R))
  }

  /** One predict and update of the filter, as a function of the belief
      before it.  The observation is taken at the predicted state. */
  function StepSpec(md: Model, b: Belief, z: seq<real>): (b': Belief)
    requires CanStep(md, b, z)
    ensures BeliefValid(md, b') && b'.P_pre.Some?
  {
    var xp := md.cb.f(b.x);
    var Ppre := PredictCov(md.F, b.P_post, md.Q);
    var G := Gain(Ppre, md.H, md.inv(Innovation(md.H, Ppre, md.R)));
    Belief(CorrectState(xp, G, Column(z), md.cb.h(xp)), Some(Ppre), CorrectCov(md.I, G, md.H, Ppre))
  }

  /** The model a freshly built filter holds: the Jacobians taken at the zero
      state, Q = qval I, R = rval I and the identity. */
  function InitialModel(cb: Callbacks, inv: Matrix -> Matrix, n: nat, m: nat, qval: real, rval: real): (md: Model)
  {
    Model(n, m, cb, inv, cb.getF(Zeros(n, 1)), cb.getH(Zeros(n, 1)),
          Scale(Eye(n), qval), Scale(Eye(m), rval), Eye(n))
  }

  /** The belief of a freshly built filter: zero state, no prior covariance,
      P_post = pval I. */
  function InitialBelief(n: nat, pval: real): (b: Belief)
  {
    Belief(Zeros(n, 1), None, Scale(Eye(n), pval))
  }

  class EKF {
    const n: nat
    const m: nat
    const cb: Callbacks
    const inv: Matrix -> Matrix

    var x: Matrix
    var P_pre: Option<Matrix>
    var P_post: Matrix
    var F: Matrix
    var H: Matrix
    var Q: Matrix
    var R: Matrix
    var I: Matrix

    ghost function Fixed(): (md: Model)
      reads this
    {
      Model(n, m, cb, inv, F, H, Q, R, I)
    }

    ghost function Current(): (b: Belief)
      reads this
    {
      Belief(x, P_pre, P_post)
    }

    ghost predicate Valid()
      reads this
    {
      ModelValid(Fixed()) && BeliefValid(Fixed(), Current())
    }

    /** `EKF(n, m, pval, qval, rval)`: zero state, no prior covariance yet,
        P_post = pval I, the Jacobians taken at the zero state, Q = qval I,
        R = rval I (m-by-m) and the identity I. */
    constructor (cb: Callbacks, inv: Matrix -> Matrix, n: nat, m: nat,
                 pval: real := 0.1, qval: real := 0.0001, rval: real := 0.1)
      requires 1 <= n && 1 <= m && WellShaped(cb, n, m) && IsInverter(inv)
      ensures Valid()
      ensures this.n == n && this.m == m && this.cb == cb && this.inv == inv
      ensures P_pre == None
      ensures x == Zeros(n, 1)
      ensures P_post == Scale(Eye(n), pval)
      ensures F == cb.getF(Zeros(n, 1)) && H == cb.getH(Zeros(n, 1))
      ensures Q == Scale(Eye(n), qval) && R == Scale(Eye(m), rval)
      ensures I == Eye(n)
      ensures Fixed() == InitialModel(cb, inv, n, m, qval, rval) && Current() == InitialBelief(n, pval)
    {
      this.n, this.m, this.cb, this.inv := n, m, cb, inv;
      P_pre := None;
      var x0 := NewVector(n).value;
      x := x0;
      P_post := Scale(Eye(n), pval);
      F := cb.getF(x0);
      H := cb.getH(x0);
      Q := Scale(Eye(n), qval);
      R := Scale(Eye(m), rval);
      I := Eye(n);
    }

    /** `step(z)`: predict the state and covariance, compute the gain, correct
        the state with the measurement and then the covariance; return the new
        state as a flat sequence.  F, H, Q, R and I are left as they were. */
    method Step(z: seq<real>) returns (r: seq<real>)
      requires Valid() && |z| == m
      requires Invertible(Innovation(H, PredictCov(F, P_post, Q), R))
      modifies this
      ensures Valid()
      ensures Fixed() == old(Fixed())
      ensures Current() == StepSpec(old(Fixed()), old(Current()), z)
      ensures |r| == n && r == AsArray(x)
    {
      x := cb.f(x);
      P_pre := Some(PredictCov(F, P_post, Q));
      P_post := Copy(P_pre.value);
      var G := Gain(P_pre.value, H, inv(Innovation(H, P_pre.value, R)));
      var zv := FromTuple(z);
      x := CorrectState(x, G, zv.value, cb.h(x));
      P_post := CorrectCov(I, G, H, P_pre.value);
      r := AsArray(x);
    }
  }
}
