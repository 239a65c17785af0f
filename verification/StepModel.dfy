/**
 What a step of the fit is (tools/src/lm.c:202-230): the one point where the
 linear model of the residuals, damped by the curvature of each parameter, is
 smallest.
 */
module StepModel {
  import opened Linear
  import opened Gauss
  import opened LevMar
  import Decimal

  /** The slope of every residual along d. */
  function Slopes(j: Matrix, d: Vector): (s: Vector)
    requires IsMatrix(j, |j|, |d|)
    ensures |s| == |j| && forall i :: 0 <= i < |j| ==> s[i] == Dot(j[i], d)
  {
    seq(|j|, i requires 0 <= i < |j| => Dot(j[i], d))
  }

  /** The residuals behind a step d, as far as the Jacobian tells. */
  function Predicted(j: Matrix, r: Vector, d: Vector): (u: Vector)
    requires IsMatrix(j, |j|, |d|) && |r| == |j|
    ensures |u| == |j|
  {
    AddScaled(r, 1.0, Slopes(j, d))
  }

  /** The sum of squares a step promises, plus the damped size of the step. */
  function ModelCost(j: Matrix, r: Vector, mu: real, d: Vector): real
    requires IsMatrix(j, |j|, |d|) && |r| == |j|
  {
    SumSquares(Predicted(j, r, d), |j|) + Mul(mu, Damping(j, d, |d|))
  }

  // ------------------------------------------------------------- sums of squares

  lemma {:induction false} SquaresOfSum(u: Vector, s: Vector, k: nat)
    requires |u| == |s| && k <= |u|
    ensures SumSquares(AddScaled(u, 1.0, s), k) == SumSquares(u, k) + 2.0 * Dot(u[..k], s[..k]) + SumSquares(s, k)
    decreases k
  {
    hide Dot;
    if k == 0 {
      DotNone(u, s);
    } else {
      SquaresOfSum(u, s, k - 1);
      NextTerm(u, s, k - 1);
      SquareOfSum(u[k - 1], s[k - 1]);
    }
  }

  lemma SquareOfSum(a: real, b: real)
    ensures (a + 1.0 * b) * (a + 1.0 * b) == a * a + 2.0 * (a * b) + b * b
  {}

  lemma {:induction false} SquaresAreCurvature(j: Matrix, h: Vector, k: nat)
    requires IsMatrix(j, |j|, |h|) && k <= |j|
    ensures SumSquares(Slopes(j, h), k) == Curvature(j, h, k)
    decreases k
  {
    hide Dot, Slopes;
    if k == 0 {
    } else {
      SquaresAreCurvature(j, h, k - 1);
    }
  }

  // ------------------------------------------------------------------ gradients

  function GradFor(j: Matrix, u: Vector, m: nat, k: nat): (g: Vector)
    requires IsMatrix(j, |j|, m) && |u| == |j| && k <= |j|
    ensures |g| == m && forall a :: 0 <= a < m ==> g[a] == GradAt(j, u, m, a, k)
  {
    seq(m, a requires 0 <= a < m => GradAt(j, u, m, a, k))
  }

  lemma GradForStep(j: Matrix, u: Vector, m: nat, k: nat)
    requires IsMatrix(j, |j|, m) && |u| == |j| && 0 < k <= |j|
    ensures GradFor(j, u, m, k) == AddScaled(GradFor(j, u, m, k - 1), u[k - 1], j[k - 1])
  {
    var a, b := GradFor(j, u, m, k), AddScaled(GradFor(j, u, m, k - 1), u[k - 1], j[k - 1]);
    forall i | 0 <= i < m
      ensures a[i] == b[i]
    {
      assert GradAt(j, u, m, i, k) == GradAt(j, u, m, i, k - 1) + j[k - 1][i] * u[k - 1];
    }
  }

  /** The slopes weighed with u are the gradient for u along h. */
  lemma {:induction false} SlopesAreGradient(j: Matrix, u: Vector, h: Vector, k: nat)
    requires IsMatrix(j, |j|, |h|) && |u| == |j| && k <= |j|
    ensures Dot(u[..k], Slopes(j, h)[..k]) == Dot(GradFor(j, u, |h|, k), h)
    decreases k
  {
    hide Dot, GradFor, AddScaled;
    if k == 0 {
      DotNone(u, Slopes(j, h));
      NoGradient(j, u, h);
    } else {
      SlopesAreGradient(j, u, h, k - 1);
      NextTerm(u, Slopes(j, h), k - 1);
      GradForStep(j, u, |h|, k);
      DotAddScaled(GradFor(j, u, |h|, k - 1), u[k - 1], j[k - 1], h);
    }
  }

  lemma NoGradient(j: Matrix, u: Vector, h: Vector)
    requires IsMatrix(j, |j|, |h|) && |u| == |j|
    ensures Dot(GradFor(j, u, |h|, 0), h) == 0.0
  {
    DotZero(GradFor(j, u, |h|, 0), h);
  }

  /** The gradient is half the derivative of the sum of squares: for residuals
      that are linear it gives their sum exactly. */
  lemma GradientMeans(j: Matrix, r: Vector, h: Vector)
    requires IsMatrix(j, |j|, |h|) && |r| == |j|
    ensures SumSquares(Predicted(j, r, h), |j|) ==
            SumSquares(r, |j|) + 2.0 * Dot(Gradient(j, r, |h|), h) + Curvature(j, h, |j|)
  {
    var s := Slopes(j, h);
    SquaresOfSum(r, s, |j|);
    SquaresAreCurvature(j, h, |j|);
    SlopesAreGradient(j, r, h, |j|);
    assert r[..|j|] == r && s[..|j|] == s;
    assert GradFor(j, r, |h|, |j|) == Gradient(j, r, |h|);
  }

  // --------------------------------------------------------- behind a solved step

  /** Behind a step the gradient has changed by the Gram matrix times it. */
  lemma {:induction false} GradBehind(j: Matrix, r: Vector, d: Vector, a: nat, k: nat)
    requires IsMatrix(j, |j|, |d|) && |r| == |j| && a < |d| && k <= |j|
    ensures GradAt(j, Predicted(j, r, d), |d|, a, k) == GradAt(j, r, |d|, a, k) + Dot(GramRow(j, |d|, a, k), d)
    decreases k
  {
    hide Dot, GramRow;
    if k == 0 {
      NoGram(j, d, a);
    } else {
      GradBehind(j, r, d, a, k - 1);
      GramRowStep(j, |d|, a, k);
      hide AddScaled;
      DotAddScaled(GramRow(j, |d|, a, k - 1), j[k - 1][a], j[k - 1], d);
      PredictedAt(j, r, d, k - 1);
      Spread(j[k - 1][a], r[k - 1], Dot(j[k - 1], d));
    }
  }

  lemma NoGram(j: Matrix, d: Vector, a: nat)
    requires IsMatrix(j, |j|, |d|) && a < |d|
    ensures Dot(GramRow(j, |d|, a, 0), d) == 0.0
  {
    DotZero(GramRow(j, |d|, a, 0), d);
  }

  lemma PredictedAt(j: Matrix, r: Vector, d: Vector, i: nat)
    requires IsMatrix(j, |j|, |d|) && |r| == |j| && i < |j|
    ensures Predicted(j, r, d)[i] == r[i] + Dot(j[i], d)
  {
    hide Dot;
  }

  lemma Spread(a: real, b: real, c: real)
    ensures a * (b + c) == a * b + a * c
  {}

  /** Two steps weighed with the damping, entry by entry. */
  function Weighed(j: Matrix, d: Vector, h: Vector, k: nat): real
    requires IsMatrix(j, |j|, |d|) && |h| == |d| && k <= |d|
  {
    if k == 0 then 0.0 else Weighed(j, d, h, k - 1) + Mul(Weight(j, |d|, k - 1), d[k - 1]) * h[k - 1]
  }

  lemma {:induction false} DampingOfSum(j: Matrix, d: Vector, h: Vector, k: nat)
    requires IsMatrix(j, |j|, |d|) && |h| == |d| && k <= |d|
    ensures Damping(j, AddScaled(d, 1.0, h), k) == Damping(j, d, k) + 2.0 * Weighed(j, d, h, k) + Damping(j, h, k)
    decreases k
  {
    hide *;
    var e := AddScaled(d, 1.0, h);
    if k == 0 {
      NothingDamped(j, d, h);
    } else {
      DampingOfSum(j, d, h, k - 1);
      SumAt(d, h, k - 1);
      var w, a, b := Weight(j, |d|, k - 1), d[k - 1], h[k - 1];
      DampingStep(j, d, k);
      DampingStep(j, h, k);
      DampingStep(j, e, k);
      WeighedStep(j, d, h, k);
      WeighSquare(w, a, b, e[k - 1]);
      AddUp(Damping(j, e, k - 1), Damping(j, d, k - 1), Weighed(j, d, h, k - 1), Damping(j, h, k - 1),
            Mul(w, Sq(e[k - 1])), Mul(w, Sq(a)), Mul(w, a) * b, Mul(w, Sq(b)));
    }
  }

  lemma DampingStep(j: Matrix, d: Vector, k: nat)
    requires IsMatrix(j, |j|, |d|) && 0 < k <= |d|
    ensures Damping(j, d, k) == Damping(j, d, k - 1) + Mul(Weight(j, |d|, k - 1), Sq(d[k - 1]))
  {
    hide *;
    SumsStep(j, d, k);
  }

  lemma AddUp(e: real, d: real, w: real, h: real, e': real, d': real, w': real, h': real)
    requires e == d + 2.0 * w + h && e' == d' + 2.0 * w' + h'
    ensures e + e' == (d + d') + 2.0 * (w + w') + (h + h')
  {}

  lemma NothingDamped(j: Matrix, d: Vector, h: Vector)
    requires IsMatrix(j, |j|, |d|) && |h| == |d|
    ensures Damping(j, AddScaled(d, 1.0, h), 0) == Damping(j, d, 0) == Damping(j, h, 0) == Weighed(j, d, h, 0) == 0.0
  {}

  lemma SumAt(d: Vector, h: Vector, i: nat)
    requires |h| == |d| && i < |d|
    ensures AddScaled(d, 1.0, h)[i] == d[i] + h[i]
  {}

  lemma WeighSquare(w: real, a: real, b: real, c: real)
    requires c == a + b
    ensures Mul(w, Sq(c)) == Mul(w, Sq(a)) + 2.0 * (Mul(w, a) * b) + Mul(w, Sq(b))
  {
    assert Sq(a) == a * a && Sq(b) == b * b && Sq(c) == (a + b) * (a + b);
    assert (a + b) * (a + b) == a * a + 2.0 * (a * b) + b * b;
    assert w * ((a + b) * (a + b)) == w * (a * a) + 2.0 * (w * (a * b)) + w * (b * b);
    assert w * (a * b) == (w * a) * b;
  }

  /** Behind a solved step the gradient is the damping of the step, negated:
      along any h the two cancel. */
  lemma {:induction false} Balanced(j: Matrix, r: Vector, mu: real, d: Vector, h: Vector, k: nat)
    requires IsMatrix(j, |j|, |d|) && |r| == |j| && |h| == |d| && k <= |d|
    requires Solves(StepSystem(j, r, |d|, mu), d)
    ensures Dot(Gradient(j, Predicted(j, r, d), |d|)[..k], h[..k]) + Mul(mu, Weighed(j, d, h, k)) == 0.0
    decreases k
  {
    hide *;
    var g := Gradient(j, Predicted(j, r, d), |d|);
    if k == 0 {
      DotNone(g, h);
      NothingWeighed(j, mu, d, h);
    } else {
      var a := k - 1;
      Balanced(j, r, mu, d, h, a);
      NextTerm(g, h, a);
      WeighedStep(j, d, h, k);
      StepEquation(j, r, mu, d, a);
      GradBehind(j, r, d, a, |j|);
      GradientAt(j, Predicted(j, r, d), |d|, a);
      GradientAt(j, r, |d|, a);
      Cancels(Dot(g[..a], h[..a]), Weighed(j, d, h, a), mu, g[a], Weight(j, |d|, a), d[a], h[a],
              Dot(g[..a + 1], h[..a + 1]), Weighed(j, d, h, k));
    }
  }

  lemma NothingWeighed(j: Matrix, mu: real, d: Vector, h: Vector)
    requires IsMatrix(j, |j|, |d|) && |h| == |d|
    ensures Mul(mu, Weighed(j, d, h, 0)) == 0.0
  {}

  lemma WeighedStep(j: Matrix, d: Vector, h: Vector, k: nat)
    requires IsMatrix(j, |j|, |d|) && |h| == |d| && 0 < k <= |d|
    ensures Weighed(j, d, h, k) == Weighed(j, d, h, k - 1) + Mul(Weight(j, |d|, k - 1), d[k - 1]) * h[k - 1]
  {
    hide Weight, Mul;
  }

  lemma GradientAt(j: Matrix, r: Vector, m: nat, a: nat)
    requires IsMatrix(j, |j|, m) && |r| == |j| && a < m
    ensures Gradient(j, r, m)[a] == GradAt(j, r, m, a, |j|)
  {
    hide GradAt;
  }

  lemma Cancels(sum: real, weighed: real, mu: real, g: real, w: real, d: real, h: real, sum': real, weighed': real)
    requires sum + Mul(mu, weighed) == 0.0 && g + Mul(mu, w) * d == 0.0
    requires sum' == sum + g * h && weighed' == weighed + Mul(w, d) * h
    ensures sum' + Mul(mu, weighed') == 0.0
  {
    assert Mul(mu, weighed') == mu * weighed + mu * (w * d * h);
    assert (g + mu * w * d) * h == g * h + mu * (w * d * h);
  }

  // ------------------------------------------------------------------ the minimum

  lemma SlopesOfSum(j: Matrix, r: Vector, d: Vector, h: Vector)
    requires IsMatrix(j, |j|, |d|) && |r| == |j| && |h| == |d|
    ensures Predicted(j, r, AddScaled(d, 1.0, h)) == AddScaled(Predicted(j, r, d), 1.0, Slopes(j, h))
  {
    var e := AddScaled(d, 1.0, h);
    var a, b := Predicted(j, r, e), AddScaled(Predicted(j, r, d), 1.0, Slopes(j, h));
    forall i | 0 <= i < |j|
      ensures a[i] == b[i]
    {
      DotCommutes(j[i], e);
      DotCommutes(j[i], d);
      DotCommutes(j[i], h);
      DotAddScaled(d, 1.0, h, j[i]);
      PredictedAt(j, r, e, i);
      PredictedAt(j, r, d, i);
      hide Dot;
    }
  }

  /** Moving on by h from a solved step costs exactly the curvature and the
      damping of h. */
  lemma StepAndMore(j: Matrix, r: Vector, mu: real, d: Vector, h: Vector)
    requires IsMatrix(j, |j|, |d|) && |r| == |j| && |h| == |d|
    requires Solves(StepSystem(j, r, |d|, mu), d)
    ensures ModelCost(j, r, mu, AddScaled(d, 1.0, h)) ==
            ModelCost(j, r, mu, d) + Curvature(j, h, |j|) + Mul(mu, Damping(j, h, |d|))
  {
    hide *;
    var u, s := Predicted(j, r, d), Slopes(j, h);
    SlopesOfSum(j, r, d, h);
    SquaresOfSum(u, s, |j|);
    SquaresAreCurvature(j, h, |j|);
    SlopesAreGradient(j, u, h, |j|);
    GradForAll(j, u, |h|);
    DampingOfSum(j, d, h, |d|);
    Balanced(j, r, mu, d, h, |d|);
    var g := Gradient(j, u, |d|);
    assert u[..|j|] == u && s[..|j|] == s && g[..|d|] == g && h[..|d|] == h;
    CostIs(j, r, mu, d);
    CostIs(j, r, mu, AddScaled(d, 1.0, h));
    Total(mu, Damping(j, d, |d|), Weighed(j, d, h, |d|), Damping(j, h, |d|), Dot(g, h));
  }

  lemma GradForAll(j: Matrix, u: Vector, m: nat)
    requires IsMatrix(j, |j|, m) && |u| == |j|
    ensures GradFor(j, u, m, |j|) == Gradient(j, u, m)
  {
    hide GradAt;
  }

  lemma CostIs(j: Matrix, r: Vector, mu: real, d: Vector)
    requires IsMatrix(j, |j|, |d|) && |r| == |j|
    ensures ModelCost(j, r, mu, d) == SumSquares(Predicted(j, r, d), |j|) + Mul(mu, Damping(j, d, |d|))
  {}

  lemma Total(mu: real, a: real, w: real, b: real, g: real)
    requires g + Mul(mu, w) == 0.0
    ensures 2.0 * g + Mul(mu, a + 2.0 * w + b) == Mul(mu, a) + Mul(mu, b)
  {}

  /** A solved step is where the damped model of the residuals is smallest, and
      it is the only such step. */
  lemma StepMinimizes(j: Matrix, r: Vector, mu: real, d: Vector, e: Vector)
    requires IsMatrix(j, |j|, |d|) && |r| == |j| && |e| == |d| && mu > 0.0
    requires Solves(StepSystem(j, r, |d|, mu), d)
    ensures ModelCost(j, r, mu, d) <= ModelCost(j, r, mu, e)
    ensures ModelCost(j, r, mu, d) == ModelCost(j, r, mu, e) ==> e == d
  {
    hide *;
    var h := AddScaled(e, -1.0, d);
    Rejoined(d, e);
    StepAndMore(j, r, mu, d, h);
    MulSign(mu, Damping(j, h, |h|));
    NonZero(h);
    if i :| 0 <= i < |h| && h[i] != 0.0 {
      DampingPositive(j, h, |h|, i);
    }
  }

  lemma Rejoined(d: Vector, e: Vector)
    requires |e| == |d|
    ensures AddScaled(d, 1.0, AddScaled(e, -1.0, d)) == e
    ensures AddScaled(e, -1.0, d) == Zero(|d|) ==> e == d
  {
    var h := AddScaled(e, -1.0, d);
    assert forall i :: 0 <= i < |d| ==> AddScaled(d, 1.0, h)[i] == e[i];
    assert forall i :: 0 <= i < |d| ==> e[i] == d[i] + h[i];
  }

  // ------------------------------------------------------------------- the limits

  /** The damping starts at a thousandth and grows tenfold with every try. */
  lemma {:induction false} DampingGrows(t: nat)
    ensures 1000.0 * Lambda(t) == Decimal.Pow10(t) as real
  {
    if t == 0 {
    } else {
      DampingGrows(t - 1);
    }
  }

  /** A run ends after 100 accepted steps, where ten dampings come to nothing, or
      with an improvement below 1e-10. */
  lemma RunEnds(p: Problem, path: seq<Vector>)
    requires p.Ok() && p.n > 0 && Run(p, path) && Finished(p, path)
    ensures var k := |path| - 1;
            || k == 100
            || (forall t: nat :: t < 10 ==> Rejected(p, path[k], t))
            || (k > 0 && Cost(p, path[k - 1]) - Cost(p, path[k]) < 0.0000000001)
  {
    hide Run, Rejected, Cost;
  }
}
