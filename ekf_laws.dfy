/**
  Properties of one filter step, stated on the step function `StepSpec` that
  `EKF.Step` is proved to follow.
*/
module TinyEKFLaws {
  import opened Wrappers
  import opened Matrices
  import opened MatrixLaws
  import opened TinyEKF

  /** F P F^T + Q is symmetric when P and Q are. */
  lemma PredictCovSymmetric(F: Matrix, P: Matrix, Q: Matrix)
    requires 1 <= |F| && IsSquare(F) && IsMatrix(P, |F|, |F|) && IsMatrix(Q, |F|, |F|)
    requires Symmetric(P) && Symmetric(Q)
    ensures Symmetric(PredictCov(F, P, Q))
  {
    SandwichSymmetric(F, P, |F|, |F|);
    AddSubSymmetric(Mul(Mul(F, P), Transpose(F)), Q);
  }

  /** The innovation covariance H P H^T + R is symmetric when P and R are. */
  lemma InnovationSymmetric(H: Matrix, P: Matrix, R: Matrix)
    requires 1 <= |H| && 1 <= |P| && IsSquare(P)
    requires IsMatrix(H, |H|, |P|) && IsMatrix(R, |H|, |H|)
    requires Symmetric(P) && Symmetric(R)
    ensures Symmetric(Innovation(H, P, R))
  {
    SandwichSymmetric(H, P, |H|, |P|);
    AddSubSymmetric(Mul(Mul(H, P), Transpose(H)), R);
  }

  /** The corrected covariance (I - G H) P_pre is symmetric when P_pre and R
      are: it equals P_pre - X S^-1 X^T for X = P_pre H^T, and the inverse of
      the symmetric S is symmetric. */
  lemma CorrectCovSymmetric(P: Matrix, H: Matrix, R: Matrix, inv: Matrix -> Matrix)
    requires 1 <= |H| && 1 <= |P| && IsSquare(P)
    requires IsMatrix(H, |H|, |P|) && IsMatrix(R, |H|, |H|)
    requires Symmetric(P) && Symmetric(R)
    requires IsInverter(inv) && Invertible(Innovation(H, P, R))
    ensures Symmetric(CorrectCov(Eye(|P|), Gain(P, H, inv(Innovation(H, P, R))), H, P))
  {
    var n, m := |P|, |H|;
    var S := Innovation(H, P, R);
    var Sinv := inv(S);
    var X := Mul(P, Transpose(H));
    var G := Gain(P, H, Sinv);
    InnovationSymmetric(H, P, R);
    assert IsInverseOf(Sinv, S);
    InverseSymmetric(S, Sinv);
    SymmetricIffTransposeFixed(P);
    calc {
      Transpose(X);
      { TransposeMul(P, Transpose(H), n, n, m); }
      Mul(Transpose(Transpose(H)), Transpose(P));
      { TransposeTwice(H, m, n); }
      Mul(H, P);
    }
    calc {
      Mul(Mul(G, H), P);
      { MulAssoc(G, H, P, n, m, n, n); }
      Mul(G, Mul(H, P));
      Mul(Mul(X, Sinv), Transpose(X));
    }
    SandwichSymmetric(X, Sinv, n, m);
    calc {
      CorrectCov(Eye(n), G, H, P);
      { MulSubDistrib(Eye(n), Mul(G, H), P, n, n, n); }
      Sub(Mul(Eye(n), P), Mul(Mul(G, H), P));
      { MulEyeLeft(P, n, n); }
      Sub(P, Mul(Mul(X, Sinv), Transpose(X)));
    }
    AddSubSymmetric(P, Mul(Mul(X, Sinv), Transpose(X)));
  }

  /** With K = I - G H, the gain makes K P_pre H^T equal to G R: the step
      behind the Joseph form of the corrected covariance. */
  lemma GainResidual(P: Matrix, H: Matrix, R: Matrix, inv: Matrix -> Matrix)
    requires 1 <= |H| && 1 <= |P| && IsSquare(P)
    requires IsMatrix(H, |H|, |P|) && IsMatrix(R, |H|, |H|)
    requires IsInverter(inv) && Invertible(Innovation(H, P, R))
    ensures var G := Gain(P, H, inv(Innovation(H, P, R)));
            Mul(Mul(Sub(Eye(|P|), Mul(G, H)), P), Transpose(H)) == Mul(G, R)
  {
    var n, m := |P|, |H|;
    var S := Innovation(H, P, R);
    var G := Gain(P, H, inv(S));
    var Ht := Transpose(H);
    var PHt := Mul(P, Ht);
    var HPHt := Mul(Mul(H, P), Ht);
    var K := Sub(Eye(n), Mul(G, H));
    GainEquation(P, H, R, inv);
    AddSubCancel(HPHt, R, m, m);
    calc {
      Mul(Mul(G, H), PHt);
      { MulAssoc(G, H, PHt, n, m, n, m); }
      Mul(G, Mul(H, PHt));
      { MulAssoc(H, P, Ht, m, n, n, m); }
      Mul(G, HPHt);
      Mul(G, Sub(S, R));
      { MulSubDistribLeft(G, S, R, n, m, m); }
      Sub(Mul(G, S), Mul(G, R));
      Sub(PHt, Mul(G, R));
    }
    calc {
      Mul(Mul(K, P), Ht);
      { MulAssoc(K, P, Ht, n, n, n, m); }
      Mul(K, PHt);
      { MulSubDistrib(Eye(n), Mul(G, H), PHt, n, n, m); }
      Sub(Mul(Eye(n), PHt), Mul(Mul(G, H), PHt));
      { MulEyeLeft(PHt, n, m); }
      Sub(PHt, Sub(PHt, Mul(G, R)));
      { SubSub(PHt, Mul(G, R), n, m); }
      Mul(G, R);
    }
  }

  /** Joseph form: the corrected covariance (I - G H) P_pre equals
      K P_pre K^T + G R G^T for K = I - G H. */
  lemma JosephForm(P: Matrix, H: Matrix, R: Matrix, inv: Matrix -> Matrix)
    requires 1 <= |H| && 1 <= |P| && IsSquare(P)
    requires IsMatrix(H, |H|, |P|) && IsMatrix(R, |H|, |H|)
    requires IsInverter(inv) && Invertible(Innovation(H, P, R))
    ensures var G := Gain(P, H, inv(Innovation(H, P, R)));
            var K := Sub(Eye(|P|), Mul(G, H));
            CorrectCov(Eye(|P|), G, H, P) ==
              Add(Mul(Mul(K, P), Transpose(K)), Mul(Mul(G, R), Transpose(G)))
  {
    var n, m := |P|, |H|;
    var G := Gain(P, H, inv(Innovation(H, P, R)));
    var Ht, Gt := Transpose(H), Transpose(G);
    var K := Sub(Eye(n), Mul(G, H));
    var KP := Mul(K, P);
    var GRGt := Mul(Mul(G, R), Gt);
    GainResidual(P, H, R, inv);
    calc {
      Transpose(K);
      { TransposeSub(Eye(n), Mul(G, H), n, n); TransposeEye(n); }
      Sub(Eye(n), Transpose(Mul(G, H)));
      { TransposeMul(G, H, n, m, n); }
      Sub(Eye(n), Mul(Ht, Gt));
    }
    calc {
      Mul(KP, Transpose(K));
      Mul(KP, Sub(Eye(n), Mul(Ht, Gt)));
      { MulSubDistribLeft(KP, Eye(n), Mul(Ht, Gt), n, n, n); }
      Sub(Mul(KP, Eye(n)), Mul(KP, Mul(Ht, Gt)));
      { MulEyeRight(KP, n, n); MulAssoc(KP, Ht, Gt, n, n, m, n); }
      Sub(KP, Mul(Mul(KP, Ht), Gt));
      Sub(KP, GRGt);
    }
    SubAddCancel(KP, GRGt, n, n);
  }

  /** The corrected covariance is positive-semidefinite when P_pre and R are. */
  lemma CorrectCovPSD(P: Matrix, H: Matrix, R: Matrix, inv: Matrix -> Matrix)
    requires 1 <= |H| && 1 <= |P| && IsSquare(P)
    requires IsMatrix(H, |H|, |P|) && IsMatrix(R, |H|, |H|)
    requires PSD(P) && PSD(R)
    requires IsInverter(inv) && Invertible(Innovation(H, P, R))
    ensures PSD(CorrectCov(Eye(|P|), Gain(P, H, inv(Innovation(H, P, R))), H, P))
  {
    var n, m := |P|, |H|;
    var G := Gain(P, H, inv(Innovation(H, P, R)));
    var K := Sub(Eye(n), Mul(G, H));
    JosephForm(P, H, R, inv);
    SandwichPSD(K, P, n, n);
    SandwichPSD(G, R, n, m);
    AddPSD(Mul(Mul(K, P), Transpose(K)), Mul(Mul(G, R), Transpose(G)));
  }

  /** Both covariances are symmetric, and so are the noise matrices. */
  ghost predicate CovSymmetric(md: Model, b: Belief)
  {
    Symmetric(md.Q) && Symmetric(md.R) && Symmetric(b.P_post) &&
    (b.P_pre.Some? ==> Symmetric(b.P_pre.value))
  }

  /** A step keeps both covariances symmetric. */
  lemma StepKeepsSymmetry(md: Model, b: Belief, z: seq<real>)
    requires CanStep(md, b, z) && CovSymmetric(md, b)
    ensures CovSymmetric(md, StepSpec(md, b, z))
  {
    var Ppre := PredictCov(md.F, b.P_post, md.Q);
    PredictCovSymmetric(md.F, b.P_post, md.Q);
    CorrectCovSymmetric(Ppre, md.H, md.R, md.inv);
  }

  /** The gain G = P_pre H^T S^-1 solves G S == P_pre H^T for the innovation
      covariance S. */
  lemma GainEquation(Ppre: Matrix, H: Matrix, R: Matrix, inv: Matrix -> Matrix)
    requires 1 <= |H| && 1 <= |Ppre| && IsSquare(Ppre)
    requires IsMatrix(H, |H|, |Ppre|) && IsMatrix(R, |H|, |H|)
    requires IsInverter(inv) && Invertible(Innovation(H, Ppre, R))
    ensures Mul(Gain(Ppre, H, inv(Innovation(H, Ppre, R))), Innovation(H, Ppre, R)) == Mul(Ppre, Transpose(H))
  {
    var n, m := |Ppre|, |H|;
    var S := Innovation(H, Ppre, R);
    var Sinv := inv(S);
    assert IsInverseOf(Sinv, S);
    var PHt := Mul(Ppre, Transpose(H));
    calc {
      Mul(Gain(Ppre, H, Sinv), S);
      Mul(Mul(PHt, Sinv), S);
      { MulAssoc(PHt, Sinv, S, n, m, m, m); }
      Mul(PHt, Mul(Sinv, S));
      Mul(PHt, Eye(m));
      { MulEyeRight(PHt, n, m); }
      PHt;
    }
  }

  /** Which routine computes the inverse does not matter: any two meeting
      the inversion contract give the same step. */
  lemma StepIndependentOfInverter(md: Model, b: Belief, z: seq<real>, inv2: Matrix -> Matrix)
    requires CanStep(md, b, z) && IsInverter(inv2)
    ensures CanStep(md.(inv := inv2), b, z)
    ensures StepSpec(md.(inv := inv2), b, z) == StepSpec(md, b, z)
  {
    var Ppre := PredictCov(md.F, b.P_post, md.Q);
    InvertersAgree(md.inv, inv2, Innovation(md.H, Ppre, md.R));
  }

  /** A measurement equal to the predicted observation h(f(x)) leaves the
      predicted state f(x) uncorrected. */
  lemma ZeroInnovation(md: Model, b: Belief, z: seq<real>)
    requires CanStep(md, b, z)
    requires z == AsArray(md.cb.h(md.cb.f(b.x)))
    ensures StepSpec(md, b, z).x == md.cb.f(b.x)
  {
    var n, m := md.n, md.m;
    var xp := md.cb.f(b.x);
    var hx := md.cb.h(xp);
    var Ppre := PredictCov(md.F, b.P_post, md.Q);
    var G := Gain(Ppre, md.H, md.inv(Innovation(md.H, Ppre, md.R)));
    ColumnAsArray(hx, m);
    SubSelf(hx, m, 1);
    MulZeros(G, n, m, 1);
    AddZeros(xp, n, 1);
  }

  lemma Mul11(a: real, b: real, c: real)
    requires c == a * b
    ensures Mul([[a]], [[b]]) == [[c]]
  {
    assert Col([[b]], 0) == [b];
    assert Dot([a], [b]) == a * b + Dot([], []);
    Ext(Mul([[a]], [[b]]), [[c]], 1, 1);
  }

  lemma Add11(a: real, b: real, c: real)
    requires c == a + b
    ensures Add([[a]], [[b]]) == [[c]]
  {
    Ext(Add([[a]], [[b]]), [[c]], 1, 1);
  }

  lemma Sub11(a: real, b: real, c: real)
    requires c == a - b
    ensures Sub([[a]], [[b]]) == [[c]]
  {
    Ext(Sub([[a]], [[b]]), [[c]], 1, 1);
  }

  lemma Transpose11(a: real)
    ensures Transpose([[a]]) == [[a]] && Eye(1) == [[1.0]]
  {
    Ext(Transpose([[a]]), [[a]], 1, 1);
    Ext(Eye(1), [[1.0]], 1, 1);
  }

  lemma ScalarPredictCov(p: real)
    ensures PredictCov([[1.0]], [[p]], [[0.0]]) == [[p]]
  {
    Mul11(1.0, p, p);
    Transpose11(1.0);
    Mul11(p, 1.0, p);
    Add11(p, 0.0, p);
  }

  lemma ScalarInnovation(p: real, r: real)
    ensures Innovation([[1.0]], [[p]], [[r]]) == [[p + r]]
  {
    Mul11(1.0, p, p);
    Transpose11(1.0);
    Mul11(p, 1.0, p);
    Add11(p, r, p + r);
  }

  lemma ScalarCorrectCov(p: real, t: real, c: real)
    requires c == (1.0 - p * t) * p
    ensures CorrectCov(Eye(1), Gain([[p]], [[1.0]], [[t]]), [[1.0]], [[p]]) == [[c]]
  {
    Transpose11(1.0);
    Mul11(p, 1.0, p);
    Mul11(p, t, p * t);
    assert Gain([[p]], [[1.0]], [[t]]) == [[p * t]];
    Mul11(p * t, 1.0, p * t);
    Sub11(1.0, p * t, 1.0 - p * t);
    Mul11(1.0 - p * t, p, c);
  }

  /** Any correct inverter inverts the 1-by-1 matrix [[s]], s != 0, to [[1 / s]]. */
  lemma ScalarInverse(inv: Matrix -> Matrix, s: real)
    requires IsInverter(inv) && s != 0.0
    ensures Invertible([[s]]) && inv([[s]]) == [[1.0 / s]]
  {
    var S, T := [[s]], [[1.0 / s]];
    Transpose11(s);
    Mul11(s, 1.0 / s, 1.0);
    Mul11(1.0 / s, s, 1.0);
    assert IsInverseOf(T, S);
    assert IsInverseOf(inv(S), S);
    InverseUnique(S, inv(S), T, 1);
  }

  lemma ScalarVarianceArith(p: real, r: real)
    requires 0.0 <= p && 0.0 < r
    ensures (1.0 - p * (1.0 / (p + r))) * p == p * r / (p + r)
    ensures 0.0 <= p * r / (p + r) <= p
  {
  }

  /** For a scalar filter with F = H = 1 and Q = 0, a step from variance
      p >= 0 with noise r > 0 is defined and yields the variance p r / (p + r),
      which lies between 0 and p: the variance never grows. */
  lemma ScalarVarianceShrinks(md: Model, b: Belief, z: seq<real>, p: real, r: real)
    requires ModelValid(md) && BeliefValid(md, b) && |z| == md.m
    requires md.n == 1 && md.m == 1
    requires md.F == [[1.0]] && md.H == [[1.0]] && md.Q == [[0.0]] && md.R == [[r]]
    requires b.P_post == [[p]] && 0.0 <= p && 0.0 < r
    ensures CanStep(md, b, z)
    ensures StepSpec(md, b, z).P_pre == Some([[p]])
    ensures StepSpec(md, b, z).P_post == [[p * r / (p + r)]]
    ensures 0.0 <= p * r / (p + r) <= p
  {
    Transpose11(1.0);
    ScalarPredictCov(p);
    ScalarInnovation(p, r);
    ScalarInverse(md.inv, p + r);
    ScalarVarianceArith(p, r);
    var t := 1.0 / (p + r);
    ScalarCorrectCov(p, t, p * r / (p + r));
    assert Gain([[p]], md.H, md.inv([[p + r]])) == Gain([[p]], [[1.0]], [[t]]);
  }

  /** A freshly built filter has symmetric covariances. */
  lemma InitialSymmetric(cb: Callbacks, inv: Matrix -> Matrix, n: nat, m: nat,
                         pval: real, qval: real, rval: real)
    ensures CovSymmetric(InitialModel(cb, inv, n, m, qval, rval), InitialBelief(n, pval))
  {
    ScaledEyeSymmetric(n, pval);
    ScaledEyeSymmetric(n, qval);
    ScaledEyeSymmetric(m, rval);
  }

  /** Every step of the run of measurements zs from b is defined. */
  ghost predicate CanRun(md: Model, b: Belief, zs: seq<seq<real>>)
    decreases |zs|
  {
    |zs| == 0 || (CanStep(md, b, zs[0]) && CanRun(md, StepSpec(md, b, zs[0]), zs[1..]))
  }

  /** The belief after stepping through zs in order. */
  ghost function Run(md: Model, b: Belief, zs: seq<seq<real>>): (b': Belief)
    requires CanRun(md, b, zs)
    ensures BeliefValid(md, b) ==> BeliefValid(md, b')
    decreases |zs|
  {
    if |zs| == 0 then b else Run(md, StepSpec(md, b, zs[0]), zs[1..])
  }

  /** Symmetry of the covariances holds throughout a run. */
  lemma {:induction false} RunKeepsSymmetry(md: Model, b: Belief, zs: seq<seq<real>>)
    requires CanRun(md, b, zs) && CovSymmetric(md, b)
    ensures CovSymmetric(md, Run(md, b, zs))
    decreases |zs|
  {
    if |zs| > 0 {
      StepKeepsSymmetry(md, b, zs[0]);
      RunKeepsSymmetry(md, StepSpec(md, b, zs[0]), zs[1..]);
    }
  }

  /** Both covariances are positive-semidefinite, and so are the noise
      matrices. */
  ghost predicate CovPSD(md: Model, b: Belief)
  {
    PSD(md.Q) && PSD(md.R) && PSD(b.P_post) &&
    (b.P_pre.Some? ==> PSD(b.P_pre.value))
  }

  /** A step keeps both covariances positive-semidefinite. */
  lemma StepKeepsPSD(md: Model, b: Belief, z: seq<real>)
    requires CanStep(md, b, z) && CovPSD(md, b)
    ensures CovPSD(md, StepSpec(md, b, z))
  {
    var n := md.n;
    var Ppre := PredictCov(md.F, b.P_post, md.Q);
    SandwichPSD(md.F, b.P_post, n, n);
    AddPSD(Mul(Mul(md.F, b.P_post), Transpose(md.F)), md.Q);
    CorrectCovPSD(Ppre, md.H, md.R, md.inv);
  }

  /** A filter built with pval, qval, rval >= 0 starts with
      positive-semidefinite covariances. */
  lemma InitialPSD(cb: Callbacks, inv: Matrix -> Matrix, n: nat, m: nat,
                   pval: real, qval: real, rval: real)
    requires 0.0 <= pval && 0.0 <= qval && 0.0 <= rval
    ensures CovPSD(InitialModel(cb, inv, n, m, qval, rval), InitialBelief(n, pval))
  {
    ScaledEyePSD(n, pval);
    ScaledEyePSD(n, qval);
    ScaledEyePSD(m, rval);
  }

  /** Positive semi-definiteness holds throughout a run. */
  lemma {:induction false} RunKeepsPSD(md: Model, b: Belief, zs: seq<seq<real>>)
    requires CanRun(md, b, zs) && CovPSD(md, b)
    ensures CovPSD(md, Run(md, b, zs))
    decreases |zs|
  {
    if |zs| > 0 {
      StepKeepsPSD(md, b, zs[0]);
      RunKeepsPSD(md, StepSpec(md, b, zs[0]), zs[1..]);
    }
  }

  /** With non-negative noise scales, every belief a filter reaches from its
      construction has positive-semidefinite covariances. */
  lemma FilterStaysPSD(cb: Callbacks, inv: Matrix -> Matrix, n: nat, m: nat,
                       pval: real, qval: real, rval: real, zs: seq<seq<real>>)
    requires 0.0 <= pval && 0.0 <= qval && 0.0 <= rval
    requires CanRun(InitialModel(cb, inv, n, m, qval, rval), InitialBelief(n, pval), zs)
    ensures CovPSD(InitialModel(cb, inv, n, m, qval, rval),
                   Run(InitialModel(cb, inv, n, m, qval, rval), InitialBelief(n, pval), zs))
  {
    InitialPSD(cb, inv, n, m, pval, qval, rval);
    RunKeepsPSD(InitialModel(cb, inv, n, m, qval, rval), InitialBelief(n, pval), zs);
  }

  /** Every belief a filter reaches from its construction through a run of
      measurements has symmetric covariances. */
  lemma FilterStaysSymmetric(cb: Callbacks, inv: Matrix -> Matrix, n: nat, m: nat,
                             pval: real, qval: real, rval: real, zs: seq<seq<real>>)
    requires CanRun(InitialModel(cb, inv, n, m, qval, rval), InitialBelief(n, pval), zs)
    ensures CovSymmetric(InitialModel(cb, inv, n, m, qval, rval),
                         Run(InitialModel(cb, inv, n, m, qval, rval), InitialBelief(n, pval), zs))
  {
    InitialSymmetric(cb, inv, n, m, pval, qval, rval);
    RunKeepsSymmetry(InitialModel(cb, inv, n, m, qval, rval), InitialBelief(n, pval), zs);
  }

  /** Feeds the measurements zs to the filter e one `Step` at a time; the
      filter ends in the belief of the run and returns its state. */
  method Feed(e: EKF, zs: seq<seq<real>>) returns (r: seq<real>)
    requires e.Valid() && CanRun(e.Fixed(), e.Current(), zs)
    modifies e
    ensures e.Valid() && e.Fixed() == old(e.Fixed())
    ensures e.Current() == Run(old(e.Fixed()), old(e.Current()), zs)
    ensures |r| == e.n && r == AsArray(e.x)
  {
    ghost var md, b0 := e.Fixed(), e.Current();
    r := AsArray(e.x);
    var k := 0;
    while k < |zs|
      invariant 0 <= k <= |zs|
      invariant e.Valid() && e.Fixed() == md
      invariant CanRun(md, e.Current(), zs[k..])
      invariant Run(md, e.Current(), zs[k..]) == Run(md, b0, zs)
      invariant |r| == e.n && r == AsArray(e.x)
    {
      assert zs[k..][0] == zs[k] && zs[k..][1..] == zs[k + 1..];
      r := e.Step(zs[k]);
      k := k + 1;
    }
  }

  /** Deterministic replay: two filters built from the same model functions
      and parameters and fed the same measurements return the same state,
      the state of the run. */
  method ReplayAgrees(cb: Callbacks, inv: Matrix -> Matrix, n: nat, m: nat,
                      pval: real, qval: real, rval: real, zs: seq<seq<real>>)
    returns (r1: seq<real>, r2: seq<real>)
    requires 1 <= n && 1 <= m && WellShaped(cb, n, m) && IsInverter(inv)
    requires CanRun(InitialModel(cb, inv, n, m, qval, rval), InitialBelief(n, pval), zs)
    ensures |r1| == n && r1 == r2
    ensures r1 == AsArray(Run(InitialModel(cb, inv, n, m, qval, rval), InitialBelief(n, pval), zs).x)
  {
    var e1 := new EKF(cb, inv, n, m, pval, qval, rval);
    r1 := Feed(e1, zs);
    var e2 := new EKF(cb, inv, n, m, pval, qval, rval);
    r2 := Feed(e2, zs);
  }
}
