/** Training over exact reals: the one-feature least-squares line and the choice of useful features
    (include/sindex/sindex_model.h). */
module SIndexModel {
  import opened StrKey
  import opened FeatureSlice

  /** The product, named so that the proofs can keep it folded and compute with its laws. */
  function Mul(x: real, y: real): real {
    x * y
  }

  lemma Distribute(k: real, a: real, c: real)
    ensures Mul(k, a + c) == Mul(k, a) + Mul(k, c) && Mul(k, a - c) == Mul(k, a) - Mul(k, c)
    ensures Mul(a + c, k) == Mul(a, k) + Mul(c, k) && Mul(a - c, k) == Mul(a, k) - Mul(c, k)
  {
  }

  lemma Commute(a: real, b: real)
    ensures Mul(a, b) == Mul(b, a)
  {
  }

  lemma Associate(a: real, b: real, c: real)
    ensures Mul(a, Mul(b, c)) == Mul(Mul(a, b), c)
  {
  }

  lemma Unit(a: real)
    ensures Mul(a, 1.0) == a == Mul(1.0, a) && Mul(a, 0.0) == 0.0 == Mul(0.0, a)
  {
  }

  lemma SquareSign(x: real)
    ensures Mul(x, x) >= 0.0 && (Mul(x, x) == 0.0 <==> x == 0.0)
  {
    if x < 0.0 {
      assert x * x == (-x) * (-x);
    }
    if x != 0.0 && Mul(x, x) == 0.0 {
      NonzeroFactor(x, x);
    }
  }

  lemma NonzeroFactor(a: real, c: real)
    requires c != 0.0 && Mul(a, c) == 0.0
    ensures a == 0.0
  {
  }

  // ---------- sums over the first n samples ----------

  function Sum(xs: seq<real>, n: nat): real
    requires n <= |xs|
  {
    if n == 0 then 0.0 else Sum(xs, n - 1) + xs[n - 1]
  }

  function Dot(xs: seq<real>, ys: seq<real>, n: nat): real
    requires n <= |xs| && n <= |ys|
  {
    if n == 0 then 0.0 else Dot(xs, ys, n - 1) + Mul(xs[n - 1], ys[n - 1])
  }

  /** What is left of sample i after predicting it with w * x + b. */
  function Residual(xs: seq<real>, ys: seq<real>, w: real, b: real, i: nat): real
    requires i < |xs| && i < |ys|
  {
    ys[i] - (Mul(w, xs[i]) + b)
  }

  function ResidualSum(xs: seq<real>, ys: seq<real>, w: real, b: real, n: nat): real
    requires n <= |xs| && n <= |ys|
  {
    if n == 0 then 0.0 else ResidualSum(xs, ys, w, b, n - 1) + Residual(xs, ys, w, b, n - 1)
  }

  function ResidualDot(xs: seq<real>, ys: seq<real>, w: real, b: real, n: nat): real
    requires n <= |xs| && n <= |ys|
  {
    if n == 0 then 0.0 else ResidualDot(xs, ys, w, b, n - 1) + Mul(Residual(xs, ys, w, b, n - 1), xs[n - 1])
  }

  /** Sum of squared residuals. */
  function Sse(xs: seq<real>, ys: seq<real>, w: real, b: real, n: nat): real
    requires n <= |xs| && n <= |ys|
  {
    if n == 0 then 0.0
    else Sse(xs, ys, w, b, n - 1) + Mul(Residual(xs, ys, w, b, n - 1), Residual(xs, ys, w, b, n - 1))
  }

  lemma {:induction false} ResidualSums(xs: seq<real>, ys: seq<real>, w: real, b: real, n: nat)
    requires n <= |xs| && n <= |ys|
    ensures ResidualSum(xs, ys, w, b, n) == Sum(ys, n) - Mul(w, Sum(xs, n)) - Mul(b, n as real)
    ensures ResidualDot(xs, ys, w, b, n) == Dot(xs, ys, n) - Mul(w, Dot(xs, xs, n)) - Mul(b, Sum(xs, n))
  {
    hide Mul;
    if n == 0 {
      Unit(w);
      Unit(b);
    } else {
      ResidualSums(xs, ys, w, b, n - 1);
      var x, y := xs[n - 1], ys[n - 1];
      Distribute(w, Sum(xs, n - 1), x);
      Distribute(w, Dot(xs, xs, n - 1), Mul(x, x));
      Distribute(b, Sum(xs, n - 1), x);
      Distribute(b, (n - 1) as real, 1.0);
      Unit(b);
      Distribute(x, y, Mul(w, x) + b);
      Distribute(x, Mul(w, x), b);
      Associate(w, x, x);
      Commute(x, y);
    }
  }

  // ---------- the denominator ----------

  /** Sum of squared distances from c. */
  function SpreadFrom(xs: seq<real>, c: real, n: nat): real
    requires n <= |xs|
  {
    if n == 0 then 0.0 else SpreadFrom(xs, c, n - 1) + Mul(xs[n - 1] - c, xs[n - 1] - c)
  }

  lemma {:induction false} SpreadFromSums(xs: seq<real>, c: real, n: nat)
    requires n <= |xs|
    ensures SpreadFrom(xs, c, n) == Dot(xs, xs, n) - 2.0 * Mul(c, Sum(xs, n)) + Mul(n as real, Mul(c, c))
  {
    hide Mul;
    if n == 0 {
      Unit(c);
      Unit(Mul(c, c));
    } else {
      SpreadFromSums(xs, c, n - 1);
      var x := xs[n - 1];
      Distribute(c, Sum(xs, n - 1), x);
      Distribute(Mul(c, c), (n - 1) as real, 1.0);
      Unit(Mul(c, c));
      Distribute(x - c, x, c);
      Distribute(x, x, c);
      Distribute(c, x, c);
      Commute(x, c);
    }
  }

  /** The spread is never negative, and zero exactly when every sample sits at c. */
  lemma {:induction false} SpreadFromZeroIff(xs: seq<real>, c: real, n: nat)
    requires n <= |xs|
    ensures SpreadFrom(xs, c, n) >= 0.0
    ensures SpreadFrom(xs, c, n) == 0.0 <==> forall i :: 0 <= i < n ==> xs[i] == c
  {
    hide Mul;
    if n > 0 {
      SpreadFromZeroIff(xs, c, n - 1);
      SquareSign(xs[n - 1] - c);
    }
  }

  /** n times the sum of squares, minus the square of the sum. */
  function Scatter(xs: seq<real>, n: nat): real
    requires n <= |xs|
  {
    Mul(n as real, Dot(xs, xs, n)) - Mul(Sum(xs, n), Sum(xs, n))
  }

  lemma ScatterStep(xs: seq<real>, n: nat)
    requires 0 < n <= |xs|
    ensures Scatter(xs, n) == Scatter(xs, n - 1) + SpreadFrom(xs, xs[n - 1], n - 1)
  {
    hide Mul;
    var x, s, q, m := xs[n - 1], Sum(xs, n - 1), Dot(xs, xs, n - 1), (n - 1) as real;
    SpreadFromSums(xs, x, n - 1);
    Distribute(q + Mul(x, x), m, 1.0);
    Unit(q + Mul(x, x));
    Distribute(m, q, Mul(x, x));
    Distribute(s + x, s, x);
    Distribute(s, s, x);
    Distribute(x, s, x);
    Commute(x, s);
  }

  predicate AllEqual(xs: seq<real>, n: nat)
    requires n <= |xs|
  {
    forall i :: 0 <= i < n ==> xs[i] == xs[0]
  }

  /** The scatter vanishes exactly when all samples share one x. */
  lemma {:induction false} ScatterZeroIff(xs: seq<real>, n: nat)
    requires n <= |xs|
    ensures Scatter(xs, n) >= 0.0
    ensures Scatter(xs, n) == 0.0 <==> AllEqual(xs, n)
  {
    hide Mul;
    if n == 0 {
      Unit(0.0);
    } else {
      ScatterZeroIff(xs, n - 1);
      ScatterStep(xs, n);
      hide Scatter;
      SpreadFromZeroIff(xs, xs[n - 1], n - 1);
      assert n > 1 && AllEqual(xs, n) ==> xs[n - 1] == xs[0];
    }
  }

  // ---------- the least-squares line ----------

  ghost predicate NormalEquations(xs: seq<real>, ys: seq<real>, w: real, b: real)
    requires |xs| == |ys|
  {
    ResidualSum(xs, ys, w, b, |xs|) == 0.0 && ResidualDot(xs, ys, w, b, |xs|) == 0.0
  }

  ghost predicate LeastSquares(xs: seq<real>, ys: seq<real>, w: real, b: real)
    requires |xs| == |ys|
  {
    forall w', b' :: Sse(xs, ys, w, b, |xs|) <= Sse(xs, ys, w', b', |xs|)
  }

  function MoveCost(xs: seq<real>, dw: real, db: real, n: nat): real
    requires n <= |xs|
  {
    if n == 0 then 0.0
    else MoveCost(xs, dw, db, n - 1) + Mul(Mul(dw, xs[n - 1]) + db, Mul(dw, xs[n - 1]) + db)
  }

  /** Moving a line changes the squared error by a linear part, made of the residual sums, and a
      part that is never negative. */
  lemma {:induction false} SseMove(xs: seq<real>, ys: seq<real>, w: real, b: real, w': real, b': real, n: nat)
    requires n <= |xs| && n <= |ys|
    ensures MoveCost(xs, w' - w, b' - b, n) >= 0.0
    ensures Sse(xs, ys, w', b', n) ==
            Sse(xs, ys, w, b, n) - 2.0 * Mul(w' - w, ResidualDot(xs, ys, w, b, n))
            - 2.0 * Mul(b' - b, ResidualSum(xs, ys, w, b, n)) + MoveCost(xs, w' - w, b' - b, n)
  {
    hide Mul;
    var dw, db := w' - w, b' - b;
    if n == 0 {
      Unit(dw);
      Unit(db);
    } else {
      SseMove(xs, ys, w, b, w', b', n - 1);
      var x, r := xs[n - 1], Residual(xs, ys, w, b, n - 1);
      var d := Mul(dw, x) + db;
      SquareSign(d);
      Distribute(x, w', w);
      assert Residual(xs, ys, w', b', n - 1) == r - d;
      Distribute(r - d, r, d);
      Distribute(r, r, d);
      Distribute(d, r, d);
      Distribute(r, Mul(dw, x), db);
      Commute(r, d);
      Commute(r, db);
      Associate(dw, x, r);
      Commute(r, Mul(dw, x));
      Commute(x, r);
      Distribute(dw, ResidualDot(xs, ys, w, b, n - 1), Mul(r, x));
      Distribute(db, ResidualSum(xs, ys, w, b, n - 1), r);
    }
  }

  lemma NormalEquationsMinimise(xs: seq<real>, ys: seq<real>, w: real, b: real)
    requires |xs| == |ys| && NormalEquations(xs, ys, w, b)
    ensures LeastSquares(xs, ys, w, b)
  {
    hide Mul;
    forall w', b' ensures Sse(xs, ys, w, b, |xs|) <= Sse(xs, ys, w', b', |xs|) {
      SseMove(xs, ys, w, b, w', b', |xs|);
      Unit(w' - w);
      Unit(b' - b);
    }
  }

  lemma {:induction false} MoveCostZero(xs: seq<real>, dw: real, db: real, n: nat)
    requires n <= |xs|
    ensures MoveCost(xs, dw, db, n) >= 0.0
    ensures MoveCost(xs, dw, db, n) == 0.0 ==> forall i :: 0 <= i < n ==> Mul(dw, xs[i]) + db == 0.0
  {
    hide Mul;
    if n > 0 {
      MoveCostZero(xs, dw, db, n - 1);
      SquareSign(Mul(dw, xs[n - 1]) + db);
    }
  }

  /** There is only one such line, unless all samples share one x. */
  lemma {:induction false} LineUnique(xs: seq<real>, ys: seq<real>, w: real, b: real, w': real, b': real)
    requires |xs| == |ys| && !AllEqual(xs, |xs|)
    requires NormalEquations(xs, ys, w, b) && NormalEquations(xs, ys, w', b')
    ensures w == w' && b == b'
  {
    hide Mul;
    var n, dw, db := |xs|, w' - w, b' - b;
    NormalEquationsMinimise(xs, ys, w, b);
    NormalEquationsMinimise(xs, ys, w', b');
    SseMove(xs, ys, w, b, w', b', n);
    Unit(dw);
    Unit(db);
    MoveCostZero(xs, dw, db, n);
    var i :| 0 <= i < n && xs[i] != xs[0];
    Distribute(dw, xs[i], xs[0]);
    NonzeroFactor(dw, xs[i] - xs[0]);
    Unit(xs[0]);
  }

  /** The closed form over the four means solves both normal equations. */
  lemma {:induction false} ClosedForm(xs: seq<real>, ys: seq<real>, mx: real, my: real, mxx: real, mxy: real,
                                      w: real, b: real)
    requires |xs| == |ys| >= 1
    requires var n := |xs| as real;
             Mul(n, mx) == Sum(xs, |xs|) && Mul(n, my) == Sum(ys, |xs|)
             && Mul(n, mxx) == Dot(xs, xs, |xs|) && Mul(n, mxy) == Dot(xs, ys, |xs|)
    requires var den := mxx - Mul(mx, mx);
             den != 0.0 && Mul(w, den) == mxy - Mul(mx, my) && Mul(b, den) == Mul(mxx, my) - Mul(mx, mxy)
    ensures NormalEquations(xs, ys, w, b)
  {
    var n := |xs| as real;
    ResidualSums(xs, ys, w, b, |xs|);
    MeansSolve(mx, my, mxx, mxy, w, b);
    hide Mul;
    ScaleLine(n, mx, my, w, b, 1.0);
    Unit(n);
    ScaleLine(n, mxx, mxy, w, b, mx);
  }

  lemma MeansSolve(mx: real, my: real, mxx: real, mxy: real, w: real, b: real)
    requires var den := mxx - Mul(mx, mx);
             den != 0.0 && Mul(w, den) == mxy - Mul(mx, my) && Mul(b, den) == Mul(mxx, my) - Mul(mx, mxy)
    ensures my - Mul(w, mx) - Mul(b, 1.0) == 0.0 && mxy - Mul(w, mxx) - Mul(b, mx) == 0.0
  {
    var den := mxx - Mul(mx, mx);
    MeansPolynomials(mx, my, mxx, mxy, w * den, b * den);
    assert (my - w * mx - b) * den == my * den - (w * den) * mx - b * den;
    assert (mxy - w * mxx - b * mx) * den == mxy * den - (w * den) * mxx - (b * den) * mx;
    NonzeroFactor(my - w * mx - b, den);
    NonzeroFactor(mxy - w * mxx - b * mx, den);
  }

  lemma MeansPolynomials(mx: real, my: real, mxx: real, mxy: real, wd: real, bd: real)
    requires wd == mxy - mx * my && bd == mxx * my - mx * mxy
    ensures my * (mxx - Mul(mx, mx)) - wd * mx - bd == 0.0
    ensures mxy * (mxx - Mul(mx, mx)) - wd * mxx - bd * mx == 0.0
  {
  }

  lemma ScaleLine(n: real, x: real, y: real, w: real, b: real, k: real)
    requires y - Mul(w, x) - Mul(b, k) == 0.0
    ensures Mul(n, y) - Mul(w, Mul(n, x)) - Mul(b, Mul(n, k)) == 0.0
  {
    hide Mul;
    Distribute(n, y - Mul(w, x), Mul(b, k));
    Distribute(n, y, Mul(w, x));
    Unit(n);
    Associate(n, w, x);
    Associate(w, n, x);
    Commute(n, w);
    Associate(n, b, k);
    Associate(b, n, k);
    Commute(n, b);
  }

  /** The closed form's denominator vanishes exactly when all samples share one x. */
  lemma {:induction false} DenominatorZeroIff(xs: seq<real>, mx: real, mxx: real)
    requires |xs| >= 1
    requires Mul(|xs| as real, mx) == Sum(xs, |xs|) && Mul(|xs| as real, mxx) == Dot(xs, xs, |xs|)
    ensures mxx - Mul(mx, mx) == 0.0 <==> AllEqual(xs, |xs|)
  {
    var n := |xs| as real;
    ScatterZeroIff(xs, |xs|);
    ScaleDenominator(n, mx, mxx);
    SquareSign(n);
    if Mul(Mul(n, n), mxx - Mul(mx, mx)) == 0.0 {
      Commute(Mul(n, n), mxx - Mul(mx, mx));
      NonzeroFactor(mxx - Mul(mx, mx), Mul(n, n));
    }
  }

  lemma ScaleDenominator(n: real, mx: real, mxx: real)
    ensures Mul(n, Mul(n, mxx)) - Mul(Mul(n, mx), Mul(n, mx)) == Mul(Mul(n, n), mxx - Mul(mx, mx))
  {
  }

  /** How training ends. `Degenerate` is the division by a zero denominator, `Abort` the exit with
      "all feats are the same". */
  datatype Fit = Weights(weights: seq<real>) | Degenerate | Abort

  /** The `feature_len == 1` branch. */
  method FitLine(xs: seq<real>, ys: seq<real>) returns (fit: Fit)
    requires |xs| == |ys| >= 1
    ensures fit == Degenerate <==> AllEqual(xs, |xs|)
    ensures !AllEqual(xs, |xs|) ==>
              && fit.Weights? && |fit.weights| == 2
              && NormalEquations(xs, ys, fit.weights[0], fit.weights[1])
              && LeastSquares(xs, ys, fit.weights[0], fit.weights[1])
  {
    hide Mul;
    var x, y, xy, xx := 0.0, 0.0, 0.0, 0.0;
    for i := 0 to |xs|
      invariant x == Sum(xs, i) && y == Sum(ys, i) && xy == Dot(xs, ys, i) && xx == Dot(xs, xs, i)
    {
      var key := xs[i];
      x := x + key;
      y := y + ys[i];
      xx := xx + Mul(key, key);
      xy := xy + Mul(key, ys[i]);
    }
    fit := LineFromSums(xs, ys, x, y, xx, xy);
  }

  method LineFromSums(xs: seq<real>, ys: seq<real>, sx: real, sy: real, sxx: real, sxy: real) returns (fit: Fit)
    requires |xs| == |ys| >= 1
    requires sx == Sum(xs, |xs|) && sy == Sum(ys, |xs|) && sxx == Dot(xs, xs, |xs|) && sxy == Dot(xs, ys, |xs|)
    ensures fit == Degenerate <==> AllEqual(xs, |xs|)
    ensures !AllEqual(xs, |xs|) ==>
              && fit.Weights? && |fit.weights| == 2
              && NormalEquations(xs, ys, fit.weights[0], fit.weights[1])
              && LeastSquares(xs, ys, fit.weights[0], fit.weights[1])
  {
    var n := |xs| as real;
    var x, y, xx, xy := sx / n, sy / n, sxx / n, sxy / n;
    Divide(sx, n);
    Divide(sy, n);
    Divide(sxx, n);
    Divide(sxy, n);
    hide Mul, Sum, Dot, AllEqual, NormalEquations, LeastSquares;
    DenominatorZeroIff(xs, x, xx);
    var den := xx - Mul(x, x);
    if den == 0.0 {
      return Degenerate;
    }
    var w, b := (xy - Mul(x, y)) / den, (Mul(xx, y) - Mul(x, xy)) / den;
    Divide(xy - Mul(x, y), den);
    Divide(Mul(xx, y) - Mul(x, xy), den);
    ClosedForm(xs, ys, x, y, xx, xy, w, b);
    NormalEquationsMinimise(xs, ys, w, b);
    fit := Weights([w, b]);
  }

  lemma Divide(a: real, n: real)
    requires n != 0.0
    ensures Mul(n, a / n) == a && Mul(a / n, n) == a
  {
  }

  // ---------- several features ----------

  const DESIRED_TRAINING_KEY_N := 10_000_000

  predicate Rectangular(keys: seq<seq<real>>, f: nat) {
    forall i :: 0 <= i < |keys| ==> |keys[i]| == f
  }

  /** Sample k, taken every `step` keys, differs from key 0 in feature j. */
  predicate Differs(keys: seq<seq<real>>, f: nat, step: nat, j: nat, k: nat)
    requires Rectangular(keys, f) && j < f && keys != []
  {
    k * step < |keys| && keys[k * step][j] != keys[0][j]
  }

  /** The features in which some sample differs from the first key, in order. */
  method UsefulFeatures(keys: seq<seq<real>>, f: nat, step: nat) returns (useful: seq<nat>)
    requires Rectangular(keys, f) && keys != [] && step >= 1
    ensures forall j :: j in useful ==> j < f
    ensures forall j: nat :: j < f ==> (j in useful <==> exists k: nat :: Differs(keys, f, step, j, k))
    ensures forall i, j :: 0 <= i < j < |useful| ==> useful[i] < useful[j]
  {
    useful := [];
    for j := 0 to f
      invariant forall i :: 0 <= i < |useful| ==> useful[i] < j
      invariant forall x: nat :: x < j ==> (x in useful <==> exists k: nat :: Differs(keys, f, step, x, k))
      invariant forall i, j :: 0 <= i < j < |useful| ==> useful[i] < useful[j]
    {
      var first := keys[0][j];
      var i, found := 0, false;
      ghost var k: nat := 0;
      while i < |keys| && !found
        invariant i == k * step && (found ==> Differs(keys, f, step, j, k))
        invariant forall k': nat :: k' < k ==> !Differs(keys, f, step, j, k')
        decreases |keys| - i, !found
      {
        if keys[i][j] != first {
          found := true;
        } else {
          MulStep(k, step);
          i, k := i + step, k + 1;
        }
      }
      if found {
        useful := useful + [j];
      } else {
        forall k': nat ensures !Differs(keys, f, step, j, k') {
          if k' >= k {
            MulMonotone(k, k', step);
          }
        }
      }
    }
  }

  lemma MulStep(k: nat, step: nat)
    ensures (k + 1) * step == k * step + step
  {
  }

  lemma MulMonotone(k: nat, k': nat, step: nat)
    requires k <= k'
    ensures k * step <= k' * step
  {
  }

  predicate PairwiseDistinct(keys: seq<seq<real>>) {
    forall i, j :: 0 <= i < j < |keys| ==> keys[i] != keys[j]
  }

  function SampleStep(n: nat): (step: nat)
    ensures step >= 1 && (n >= 2 ==> step < n)
  {
    if n > DESIRED_TRAINING_KEY_N then n / DESIRED_TRAINING_KEY_N else 1
  }

  /** Up to the desired number all keys are samples; of more keys, less than twice that number. */
  lemma SampleBound(n: nat)
    ensures n <= 10_000_000 ==> n / SampleStep(n) == n
    ensures n > 10_000_000 ==> 10_000_000 <= n / SampleStep(n) < 20_000_000
  {
    if n > DESIRED_TRAINING_KEY_N {
      var step := SampleStep(n);
      var m := n / step;
      assert step * DESIRED_TRAINING_KEY_N <= n < (step + 1) * DESIRED_TRAINING_KEY_N;
      assert m * step <= n < (m + 1) * step;
      SampleQuotient(n, step, m);
    }
  }

  lemma SampleQuotient(n: nat, step: nat, m: nat)
    requires step >= 1 && step * 10_000_000 <= n < (step + 1) * 10_000_000 && m * step <= n < (m + 1) * step
    ensures 10_000_000 <= m < 20_000_000
  {
    if m < 10_000_000 { MulMonotone(m + 1, 10_000_000, step); }
    if m >= 20_000_000 { MulMonotone(20_000_000, m, step); }
  }

  /** Some sample differs from the first key in feature j. */
  ghost predicate Varies(keys: seq<seq<real>>, f: nat, j: nat)
    requires Rectangular(keys, f) && j < f && keys != []
  {
    exists k: nat :: Differs(keys, f, SampleStep(|keys|), j, k)
  }

  /** Pairwise distinct feature vectors leave a useful feature among the samples, however coarse. */
  lemma SomeFeatureVaries(keys: seq<seq<real>>, f: nat)
    requires Rectangular(keys, f) && PairwiseDistinct(keys) && |keys| >= 2
    ensures exists j: nat :: j < f && Varies(keys, f, j)
  {
    var step := SampleStep(|keys|);
    assert keys[0] != keys[step];
    var j :| 0 <= j < f && keys[0][j] != keys[step][j];
    assert 1 * step == step;
    assert Differs(keys, f, step, j, 1);
    assert Varies(keys, f, j);
  }

  lemma SampleIndexAt(n: nat, step: nat, i: nat)
    requires step >= 1 && i < n / step
    ensures i * step < n
  {
    assert (i + 1) * step <= (n / step) * step <= n;
  }

  // ---------- what the solved system means ----------

  /** Squared error of x over the first n rows of a system a * x = b. */
  function SystemCost(a: seq<seq<real>>, b: seq<real>, x: seq<real>, n: nat): real
    requires n <= |a| == |b| && Rectangular(a, |x|)
  {
    if n == 0 then 0.0
    else var e := b[n - 1] - Dot(x, a[n - 1], |x|); SystemCost(a, b, x, n - 1) + Mul(e, e)
  }

  /** What weights v predict for a feature row; the last weight is the bias. */
  function Predicted(v: seq<real>, row: seq<real>): real
    requires |v| == |row| + 1
  {
    Dot(v, row, |row|) + v[|row|]
  }

  /** Squared error of weights v over the first n samples, taken every `step` keys. */
  function SampleCost(keys: seq<seq<real>>, positions: seq<real>, v: seq<real>, step: nat, n: nat): real
    requires |v| >= 1 && Rectangular(keys, |v| - 1) && |positions| == |keys|
    requires step >= 1 && n <= |keys| / step
  {
    if n == 0 then 0.0
    else
      SampleIndexAt(|keys|, step, n - 1);
      var e := positions[(n - 1) * step] - Predicted(v, keys[(n - 1) * step]);
      SampleCost(keys, positions, v, step, n - 1) + Mul(e, e)
  }

  /** No other weights have a smaller squared error over the sampled keys. */
  ghost predicate BestWeights(keys: seq<seq<real>>, positions: seq<real>, w: seq<real>)
    requires |w| >= 1 && Rectangular(keys, |w| - 1) && |positions| == |keys|
  {
    var step := SampleStep(|keys|);
    forall v :: |v| == |w| ==>
      SampleCost(keys, positions, w, step, |keys| / step) <= SampleCost(keys, positions, v, step, |keys| / step)
  }

  /** The first n coefficients that a solver returned. */
  function Solution(x: nat -> real, n: nat): (s: seq<real>)
    ensures |s| == n && forall i :: 0 <= i < n ==> s[i] == x(i)
  {
    seq(n, (i: nat) => x(i))
  }

  /** The solver returns a least-squares solution of every system that it gets. */
  ghost predicate SolvesLeastSquares(solve: (seq<seq<real>>, seq<real>) -> (nat -> real)) {
    forall a, b, x :: |a| == |b| && Rectangular(a, |x|) ==>
      SystemCost(a, b, Solution(solve(a, b), |x|), |a|) <= SystemCost(a, b, x, |a|)
  }

  predicate Increasing(u: seq<nat>, f: nat) {
    && (forall i :: 0 <= i < |u| ==> u[i] < f)
    && (forall i, j :: 0 <= i < j < |u| ==> u[i] < u[j])
  }

  function Pick(v: seq<real>, u: seq<nat>): (s: seq<real>)
    requires Increasing(u, |v|)
    ensures |s| == |u| && forall i :: 0 <= i < |u| ==> s[i] == v[u[i]]
  {
    seq(|u|, i requires 0 <= i < |u| => v[u[i]])
  }

  /** The system for the features u: one row per sample with those features and 1, and its position. */
  predicate IsSystem(keys: seq<seq<real>>, positions: seq<real>, f: nat, u: seq<nat>,
                     a: seq<seq<real>>, b: seq<real>)
    requires Rectangular(keys, f) && |positions| == |keys| && Increasing(u, f)
  {
    var step := SampleStep(|keys|);
    && |a| == |b| == |keys| / step
    && forall i :: 0 <= i < |a| ==>
         i * step < |keys| && a[i] == Pick(keys[i * step], u) + [1.0] && b[i] == positions[i * step]
  }

  /** Coefficient r of the solution belongs to feature u[r], the last one to the bias; all other
      features weigh nothing. */
  predicate IsPlaced(w: seq<real>, f: nat, u: seq<nat>, x: nat -> real)
    requires Increasing(u, f)
  {
    && |w| == f + 1 && w[f] == x(|u|)
    && (forall r :: 0 <= r < |u| ==> w[u[r]] == x(r))
    && (forall j :: 0 <= j < f && j !in u ==> w[j] == 0.0)
  }

  /** What the features outside u contribute, if they are those of row0. */
  function FixedPart(v: seq<real>, row0: seq<real>, u: seq<nat>, n: nat): real
    requires n <= |v| && n <= |row0|
  {
    if n == 0 then 0.0
    else FixedPart(v, row0, u, n - 1) + if n - 1 in u then 0.0 else Mul(v[n - 1], row0[n - 1])
  }

  lemma {:induction false} FixedNothing(v: seq<real>, row0: seq<real>, u: seq<nat>, n: nat)
    requires n <= |v| && n <= |row0| && forall j :: 0 <= j < n && j !in u ==> v[j] == 0.0
    ensures FixedPart(v, row0, u, n) == 0.0
  {
    if n > 0 {
      FixedNothing(v, row0, u, n - 1);
      Unit(row0[n - 1]);
    }
  }

  lemma {:induction false} DotPrefix(x: seq<real>, y: seq<real>, c: real, d: real, n: nat)
    requires n <= |x| && n <= |y|
    ensures Dot(x + [c], y + [d], n) == Dot(x, y, n)
  {
    if n > 0 {
      DotPrefix(x, y, c, d, n - 1);
    }
  }

  lemma {:induction false} DotAppend(x: seq<real>, y: seq<real>, c: real, d: real)
    requires |x| == |y|
    ensures Dot(x + [c], y + [d], |x| + 1) == Dot(x, y, |x|) + Mul(c, d)
  {
    hide Mul;
    DotPrefix(x, y, c, d, |x|);
  }

  /** A sum over all features is one over u, plus the fixed part. */
  lemma {:induction false} FoldDot(v: seq<real>, row: seq<real>, row0: seq<real>, f: nat, u: seq<nat>, n: nat, k: nat)
    requires f <= |v| && |row| == |row0| == f && n <= f && k <= |u| && Increasing(u, f) && Increasing(u, |v|)
    requires (forall r :: 0 <= r < k ==> u[r] < n) && (forall r :: k <= r < |u| ==> u[r] >= n)
    requires forall j :: 0 <= j < f && j !in u ==> row[j] == row0[j]
    ensures Dot(v, row, n) == Dot(Pick(v, u), Pick(row, u), k) + FixedPart(v, row0, u, n)
  {
    hide Mul;
    if n > 0 {
      if k > 0 && u[k - 1] == n - 1 {
        assert n - 1 in u;
        FoldDot(v, row, row0, f, u, n - 1, k - 1);
      } else {
        assert n - 1 !in u;
        FoldDot(v, row, row0, f, u, n - 1, k);
      }
    }
  }

  /** Weights v for all features, folded to the features u and the bias. */
  function Folded(v: seq<real>, row0: seq<real>, f: nat, u: seq<nat>): (x: seq<real>)
    requires |v| == f + 1 && |row0| == f && Increasing(u, f)
    ensures |x| == |u| + 1
  {
    Pick(v, u) + [v[f] + FixedPart(v, row0, u, f)]
  }

  lemma {:induction false} FoldPredicts(v: seq<real>, row: seq<real>, row0: seq<real>, f: nat, u: seq<nat>)
    requires |v| == f + 1 && |row| == |row0| == f && Increasing(u, f)
    requires forall j :: 0 <= j < f && j !in u ==> row[j] == row0[j]
    ensures Predicted(v, row) == Dot(Folded(v, row0, f, u), Pick(row, u) + [1.0], |u| + 1)
  {
    hide Mul, FixedPart, Dot, Pick;
    FoldDot(v, row, row0, f, u, f, |u|);
    var c := v[f] + FixedPart(v, row0, u, f);
    DotAppend(Pick(v, u), Pick(row, u), c, 1.0);
    Unit(c);
  }

  /** Features outside u are those of the first key, in every sample. */
  ghost predicate OthersFixed(keys: seq<seq<real>>, f: nat, u: seq<nat>)
    requires Rectangular(keys, f) && keys != []
  {
    forall j: nat :: j < f && j !in u ==> !Varies(keys, f, j)
  }

  lemma {:induction false} FoldCost(keys: seq<seq<real>>, positions: seq<real>, v: seq<real>, f: nat, u: seq<nat>,
                                    a: seq<seq<real>>, b: seq<real>, n: nat)
    requires Rectangular(keys, f) && |positions| == |keys| >= 1 && Increasing(u, f) && |v| == f + 1
    requires IsSystem(keys, positions, f, u, a, b) && OthersFixed(keys, f, u) && n <= |a|
    ensures Rectangular(a, |u| + 1)
    ensures SampleCost(keys, positions, v, SampleStep(|keys|), n) == SystemCost(a, b, Folded(v, keys[0], f, u), n)
  {
    hide Mul, Predicted, Folded, Varies, OthersFixed;
    if n > 0 {
      FoldCost(keys, positions, v, f, u, a, b, n - 1);
      var step := SampleStep(|keys|);
      SampleIndexAt(|keys|, step, n - 1);
      SampleFixed(keys, f, u, n - 1);
      FoldPredicts(v, keys[(n - 1) * step], keys[0], f, u);
    }
  }

  lemma SampleFixed(keys: seq<seq<real>>, f: nat, u: seq<nat>, i: nat)
    requires Rectangular(keys, f) && keys != [] && OthersFixed(keys, f, u) && i * SampleStep(|keys|) < |keys|
    ensures forall j :: 0 <= j < f && j !in u ==> keys[i * SampleStep(|keys|)][j] == keys[0][j]
  {
    forall j | 0 <= j < f && j !in u ensures keys[i * SampleStep(|keys|)][j] == keys[0][j] {
      assert !Varies(keys, f, j);
      assert !Differs(keys, f, SampleStep(|keys|), j, i);
    }
  }

  lemma {:induction false} PlacedFolds(w: seq<real>, row0: seq<real>, f: nat, u: seq<nat>, x: nat -> real)
    requires Increasing(u, f) && IsPlaced(w, f, u, x) && |row0| == f
    ensures Folded(w, row0, f, u) == Solution(x, |u| + 1)
  {
    FixedNothing(w, row0, u, f);
  }

  lemma {:induction false} SolverIsBest(solve: (seq<seq<real>>, seq<real>) -> (nat -> real),
                                        a: seq<seq<real>>, b: seq<real>, x: seq<real>)
    requires SolvesLeastSquares(solve) && |a| == |b| && Rectangular(a, |x|)
    ensures SystemCost(a, b, Solution(solve(a, b), |x|), |a|) <= SystemCost(a, b, x, |a|)
  {
  }

  /** If the solver does its part, the placed weights are best of all. */
  lemma PlacedIsBest(keys: seq<seq<real>>, positions: seq<real>, w: seq<real>, f: nat, u: seq<nat>,
                     a: seq<seq<real>>, b: seq<real>, solve: (seq<seq<real>>, seq<real>) -> (nat -> real))
    requires Rectangular(keys, f) && |positions| == |keys| >= 1 && Increasing(u, f) && OthersFixed(keys, f, u)
    requires IsSystem(keys, positions, f, u, a, b) && IsPlaced(w, f, u, solve(a, b)) && SolvesLeastSquares(solve)
    ensures BestWeights(keys, positions, w)
  {
    hide SampleCost, SystemCost, OthersFixed, SolvesLeastSquares, Folded, Solution, FixedPart;
    PlacedFolds(w, keys[0], f, u, solve(a, b));
    hide IsPlaced;
    forall v | |v| == |w|
      ensures SampleCost(keys, positions, w, SampleStep(|keys|), |a|)
              <= SampleCost(keys, positions, v, SampleStep(|keys|), |a|)
    {
      FoldCost(keys, positions, w, f, u, a, b, |a|);
      FoldCost(keys, positions, v, f, u, a, b, |a|);
      SolverIsBest(solve, a, b, Folded(v, keys[0], f, u));
    }
  }

  /** The weights are those of the solved system over exactly the varying features. */
  ghost predicate IsFitted(keys: seq<seq<real>>, positions: seq<real>, f: nat, w: seq<real>,
                           solve: (seq<seq<real>>, seq<real>) -> (nat -> real))
    requires Rectangular(keys, f) && |positions| == |keys| >= 1
  {
    exists u, a, b ::
      && Increasing(u, f) && (forall j: nat :: j < f ==> (j in u <==> Varies(keys, f, j)))
      && IsSystem(keys, positions, f, u, a, b) && IsPlaced(w, f, u, solve(a, b))
  }

  /** The branch for several features. The LAPACK solver is an arbitrary function from the sampled
      system to the coefficients. */
  method FitFeatures(keys: seq<seq<real>>, positions: seq<real>, f: nat,
                     solve: (seq<seq<real>>, seq<real>) -> (nat -> real)) returns (fit: Fit)
    requires Rectangular(keys, f) && |positions| == |keys| >= 2
    ensures fit == Abort || (fit.Weights? && |fit.weights| == f + 1)
    ensures fit == Abort <==> forall j: nat :: j < f ==> !Varies(keys, f, j)
    ensures fit.Weights? ==> forall j: nat :: j < f && fit.weights[j] != 0.0 ==> Varies(keys, f, j)
    ensures fit.Weights? ==> IsFitted(keys, positions, f, fit.weights, solve)
    ensures fit.Weights? && SolvesLeastSquares(solve) ==> BestWeights(keys, positions, fit.weights)
  {
    var step := SampleStep(|keys|);
    var useful := UsefulFeatures(keys, f, step);
    assert forall j: nat :: j < f ==> (j in useful <==> Varies(keys, f, j));
    hide Varies, SolvesLeastSquares, BestWeights;
    forall i | 0 <= i < |useful| ensures useful[i] < f { assert useful[i] in useful; }
    if |useful| == 0 {
      return Abort;
    }
    assert useful[0] in useful;
    var a, b := SampledSystem(keys, positions, f, useful);
    var solution := solve(a, b);
    var weights := PlaceWeights(f, useful, solution);
    fit := Weights(weights);
    if SolvesLeastSquares(solve) {
      PlacedIsBest(keys, positions, weights, f, useful, a, b, solve);
    }
  }

  /** The loop that fills the matrix and the right side. */
  method SampledSystem(keys: seq<seq<real>>, positions: seq<real>, f: nat, useful: seq<nat>)
    returns (a: seq<seq<real>>, b: seq<real>)
    requires Rectangular(keys, f) && |positions| == |keys| && Increasing(useful, f)
    ensures IsSystem(keys, positions, f, useful, a, b)
  {
    var step := SampleStep(|keys|);
    var m := |keys| / step;
    a, b := [], [];
    for i := 0 to m
      invariant |a| == |b| == i
      invariant forall k :: 0 <= k < i ==>
                  k * step < |keys| && a[k] == Pick(keys[k * step], useful) + [1.0] && b[k] == positions[k * step]
    {
      SampleIndexAt(|keys|, step, i);
      a := a + [Pick(keys[i * step], useful) + [1.0]];
      b := b + [positions[i * step]];
    }
  }

  /** The loop that copies the coefficients. */
  method PlaceWeights(f: nat, useful: seq<nat>, solution: nat -> real) returns (weights: seq<real>)
    requires Increasing(useful, f)
    ensures IsPlaced(weights, f, useful, solution)
  {
    weights := seq(f + 1, _ => 0.0);
    for i := 0 to |useful|
      invariant |weights| == f + 1
      invariant forall r :: 0 <= r < i ==> weights[useful[r]] == solution(r)
      invariant forall j :: 0 <= j < f && j !in useful ==> weights[j] == 0.0
    {
      weights := weights[useful[i] := solution(i)];
    }
    weights := weights[f := solution(|useful|)];
  }

  /** `model_prepare`. */
  method ModelPrepare(keys: seq<seq<real>>, positions: seq<real>, f: nat,
                      solve: (seq<seq<real>>, seq<real>) -> (nat -> real)) returns (fit: Fit)
    requires Rectangular(keys, f) && |positions| == |keys|
    ensures fit.Weights? ==> |fit.weights| == f + 1
    ensures |keys| == 0 ==> fit == Weights(seq(f + 1, _ => 0.0))
    ensures |keys| == 1 ==> fit == Weights(seq(f, _ => 0.0) + [positions[0]])
    ensures |keys| >= 2 && f == 1 ==>
              && (fit == Degenerate <==> AllEqual(FirstFeatures(keys), |keys|))
              && (fit != Degenerate ==>
                    fit.Weights? && LeastSquares(FirstFeatures(keys), positions, fit.weights[0], fit.weights[1]))
    ensures |keys| >= 2 && f != 1 ==>
              && (fit == Abort <==> forall j: nat :: j < f ==> !Varies(keys, f, j))
              && (fit != Abort ==>
                    && fit.Weights? && |fit.weights| == f + 1
                    && (forall j: nat :: j < f && fit.weights[j] != 0.0 ==> Varies(keys, f, j))
                    && IsFitted(keys, positions, f, fit.weights, solve)
                    && (SolvesLeastSquares(solve) ==> BestWeights(keys, positions, fit.weights)))
    ensures PairwiseDistinct(keys) ==> fit.Weights?
  {
    hide LeastSquares, NormalEquations, Varies, IsFitted, SolvesLeastSquares, BestWeights;
    if |keys| == 0 {
      return Weights(seq(f + 1, _ => 0.0));
    }
    if |keys| == 1 {
      return Weights(seq(f + 1, _ => 0.0)[f := positions[0]]);
    }
    if f == 1 {
      fit := FitLine(FirstFeatures(keys), positions);
      if PairwiseDistinct(keys) {
        assert keys[0] == [keys[0][0]] && keys[1] == [keys[1][0]];
        assert FirstFeatures(keys)[0] != FirstFeatures(keys)[1];
      }
    } else {
      fit := FitFeatures(keys, positions, f, solve);
      if PairwiseDistinct(keys) {
        SomeFeatureVaries(keys, f);
      }
    }
  }

  function FirstFeatures(keys: seq<seq<real>>): (xs: seq<real>)
    requires Rectangular(keys, 1)
    ensures |xs| == |keys|
  {
    seq(|keys|, i requires 0 <= i < |keys| => keys[i][0])
  }

  // ---------- the features of a group ----------

  /** A buffer byte read as a signed C char and widened to a double. */
  function CharValue(b: Byte): real {
    if b < 128 then b as real else b as real - 256.0
  }

  /** A char of the host is signed: the value in [-128, 127] that is the byte modulo 256. */
  lemma CharValueIs(b: Byte)
    ensures var x := CharValue(b).Floor; -128 <= x <= 127 && CharValue(b) == x as real && (x - b) % 256 == 0
  {
    assert (b as real).Floor == b;
  }

  /** `get_model_key`. */
  function ModelKey(k: Key, p: nat, f: nat): (row: seq<real>)
    requires p + f <= KEY_LEN
    ensures |row| == f
  {
    seq(f, i requires 0 <= i < f => CharValue(k[p + i]))
  }

  function ModelKeys(names: seq<Key>, lo: nat, hi: nat, p: nat, f: nat): (rows: seq<seq<real>>)
    requires lo <= hi <= |names| && p + f <= KEY_LEN
    ensures |rows| == hi - lo
  {
    seq(hi - lo, i requires 0 <= i < hi - lo => ModelKey(names[lo + i], p, f))
  }

  /** The recorded slice gives the keys of a group pairwise distinct feature vectors, signed bytes
      included: training a group of sorted keys never divides by zero and never aborts. */
  lemma {:induction false} GroupFeaturesDistinct(names: seq<Key>, lo: nat, hi: nat)
    requires Sorted(names) && lo + 2 <= hi <= |names|
    ensures var p, f := PrefixLen(names, lo, hi), FeatureLen(names, lo, hi);
            p + f <= KEY_LEN && Rectangular(ModelKeys(names, lo, hi, p, f), f)
            && PairwiseDistinct(ModelKeys(names, lo, hi, p, f))
  {
    hide PrefixLen, FeatureLen, SliceLess, Sorted, ModelKey, SliceTells;
    var p, f := PrefixLen(names, lo, hi), FeatureLen(names, lo, hi);
    SliceDiscriminates(names, lo, hi);
    var rows := ModelKeys(names, lo, hi, p, f);
    forall i | 0 <= i < hi - lo ensures |rows[i]| == f {
      assert rows[i] == ModelKey(names[lo + i], p, f);
    }
    forall i, j | 0 <= i < j < hi - lo ensures rows[i] != rows[j] {
      assert SliceTells(names[lo + i], names[lo + j], p, f);
      assert rows[i] == ModelKey(names[lo + i], p, f) && rows[j] == ModelKey(names[lo + j], p, f);
      SliceGivesFeature(names[lo + i], names[lo + j], p, f);
    }
  }

  lemma SliceGivesFeature(a: Key, b: Key, p: nat, f: nat)
    requires SliceTells(a, b, p, f)
    ensures ModelKey(a, p, f) != ModelKey(b, p, f)
  {
    var i :| 0 <= i < f && a[p..p + f][i] != b[p..p + f][i];
    assert a[p + i] != b[p + i];
    CharValueInjective(a[p + i], b[p + i]);
    assert ModelKey(a, p, f)[i] != ModelKey(b, p, f)[i];
  }

  lemma CharValueInjective(a: Byte, b: Byte)
    requires a != b
    ensures CharValue(a) != CharValue(b)
  {
    assert (a as real).Floor == a && (b as real).Floor == b;
  }
}
