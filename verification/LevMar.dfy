/**
 The Levenberg-Marquardt loop (tools/src/lm.c:97-106, 158-262).  Residuals
 and Jacobian are given functions; everything the loop itself does is here:
 normal equations, damping, retries, acceptance and termination.
 */
module LevMar {
  import opened Linear
  import opened Gauss

  type Vector = seq<real>
  type Matrix = seq<seq<real>>

  predicate IsMatrix(j: Matrix, n: nat, m: nat) {
    |j| == n && forall i :: 0 <= i < n ==> |j[i]| == m
  }

  // --------------------------------------------------------- normal equations

  /** Entry (a, b) of the product of j's transpose with j, over k samples. */
  function GramAt(j: Matrix, m: nat, a: nat, b: nat, k: nat): real
    requires IsMatrix(j, |j|, m) && a < m && b < m && k <= |j|
  {
    if k == 0 then 0.0 else GramAt(j, m, a, b, k - 1) + j[k - 1][a] * j[k - 1][b]
  }

  /** Entry a of the gradient, over k samples. */
  function GradAt(j: Matrix, r: Vector, m: nat, a: nat, k: nat): real
    requires IsMatrix(j, |j|, m) && |r| == |j| && a < m && k <= |j|
  {
    if k == 0 then 0.0 else GradAt(j, r, m, a, k - 1) + j[k - 1][a] * r[k - 1]
  }

  function Gradient(j: Matrix, r: Vector, m: nat): (g: Vector)
    requires IsMatrix(j, |j|, m) && |r| == |j|
    ensures |g| == m
  {
    seq(m, a requires 0 <= a < m => GradAt(j, r, m, a, |j|))
  }

  function GramRow(j: Matrix, m: nat, a: nat, k: nat): (row: Vector)
    requires IsMatrix(j, |j|, m) && a < m && k <= |j|
    ensures |row| == m
  {
    seq(m, b requires 0 <= b < m => GramAt(j, m, a, b, k))
  }

  /** The damping weight of parameter a: its own curvature, or 1. */
  function Weight(j: Matrix, m: nat, a: nat): (w: real)
    requires IsMatrix(j, |j|, m) && a < m
    ensures w > 0.0
  {
    var d := GramAt(j, m, a, a, |j|);
    if d > 0.0 then d else 1.0
  }

  function DampedRow(j: Matrix, m: nat, mu: real, a: nat): (row: Vector)
    requires IsMatrix(j, |j|, m) && a < m
    ensures |row| == m
  {
    GramRow(j, m, a, |j|)[a := GramAt(j, m, a, a, |j|) + Mul(mu, Weight(j, m, a))]
  }

  /** The equations of a damped step, as rows with their right side. */
  function StepSystem(j: Matrix, r: Vector, m: nat, mu: real): (s: Rows)
    requires IsMatrix(j, |j|, m) && |r| == |j|
    ensures Shape(s, m)
  {
    seq(m, a requires 0 <= a < m => DampedRow(j, m, mu, a) + [-GradAt(j, r, m, a, |j|)])
  }

  // -------------------------------------------------------- descent directions

  /** The squared length of j d over k samples. */
  function Curvature(j: Matrix, d: Vector, k: nat): (c: real)
    requires IsMatrix(j, |j|, |d|) && k <= |j|
    ensures c >= 0.0
  {
    if k == 0 then 0.0
    else
      Curvature(j, d, k - 1) + Sq(Dot(j[k - 1], d))
  }

  /** The weighted squared length of the first k entries of d. */
  function Damping(j: Matrix, d: Vector, k: nat): (c: real)
    requires IsMatrix(j, |j|, |d|) && k <= |d|
    ensures c >= 0.0
  {
    if k == 0 then 0.0
    else
      MulSign(Weight(j, |d|, k - 1), Sq(d[k - 1]));
      Damping(j, d, k - 1) + Mul(Weight(j, |d|, k - 1), Sq(d[k - 1]))
  }

  lemma {:induction false} DampingPositive(j: Matrix, d: Vector, k: nat, i: nat)
    requires IsMatrix(j, |j|, |d|) && i < k <= |d| && d[i] != 0.0
    ensures Damping(j, d, k) > 0.0
    decreases k
  {
    hide Weight, Sq, Mul;
    MulSign(Weight(j, |d|, k - 1), Sq(d[k - 1]));
    if i == k - 1 {
    } else {
      DampingPositive(j, d, k - 1, i);
    }
  }

  /** d applied to the first k rows of the Gram matrix over n samples. */
  function Quad(j: Matrix, d: Vector, k: nat, n: nat): real
    requires IsMatrix(j, |j|, |d|) && k <= |d| && n <= |j|
  {
    if k == 0 then 0.0 else Quad(j, d, k - 1, n) + d[k - 1] * Dot(GramRow(j, |d|, k - 1, n), d)
  }

  lemma GramRowStep(j: Matrix, m: nat, a: nat, k: nat)
    requires IsMatrix(j, |j|, m) && a < m && 0 < k <= |j|
    ensures GramRow(j, m, a, k) == AddScaled(GramRow(j, m, a, k - 1), j[k - 1][a], j[k - 1])
  {
    var u, v := GramRow(j, m, a, k), AddScaled(GramRow(j, m, a, k - 1), j[k - 1][a], j[k - 1]);
    forall b | 0 <= b < m
      ensures u[b] == v[b]
    {
      assert u[b] == GramAt(j, m, a, b, k) == GramAt(j, m, a, b, k - 1) + j[k - 1][a] * j[k - 1][b];
    }
  }

  lemma {:induction false} QuadNothing(j: Matrix, d: Vector, k: nat)
    requires IsMatrix(j, |j|, |d|) && k <= |d|
    ensures Quad(j, d, k, 0) == 0.0
  {
    if k == 0 {
    } else {
      QuadNothing(j, d, k - 1);
      DotZero(GramRow(j, |d|, k - 1, 0), d);
    }
  }

  /** One more sample adds the square of its slope along d. */
  lemma {:induction false} QuadStep(j: Matrix, d: Vector, k: nat, n: nat)
    requires IsMatrix(j, |j|, |d|) && k <= |d| && 0 < n <= |j|
    ensures Quad(j, d, k, n) == Quad(j, d, k, n - 1) + Dot(j[n - 1][..k], d[..k]) * Dot(j[n - 1], d)
    decreases k
  {
    hide Dot, GramRow, AddScaled;
    if k == 0 {
      DotNone(j[n - 1], d);
    } else {
      var row, a := j[n - 1], k - 1;
      QuadStep(j, d, a, n);
      GramRowStep(j, |d|, a, n);
      DotAddScaled(GramRow(j, |d|, a, n - 1), row[a], row, d);
      assert row[..k] == row[..a] + [row[a]] && d[..k] == d[..a] + [d[a]];
      DotSnoc(row[..a], row[a], d[..a], d[a]);
      QuadAlgebra(d[a], Dot(GramRow(j, |d|, a, n - 1), d), row[a], Dot(row, d), Dot(row[..a], d[..a]));
    }
  }

  lemma DotNone(u: Vector, v: Vector)
    ensures Dot(u[..0], v[..0]) == 0.0
  {}

  lemma QuadAlgebra(d: real, g: real, r: real, p: real, q: real)
    ensures d * (g + r * p) + q * p == d * g + (q + r * d) * p
  {}

  /** d' (J' J) d is the squared length of J d. */
  lemma {:induction false} QuadIsCurvature(j: Matrix, d: Vector, n: nat)
    requires IsMatrix(j, |j|, |d|) && n <= |j|
    ensures Quad(j, d, |d|, n) == Curvature(j, d, n)
    decreases n
  {
    if n == 0 {
      QuadNothing(j, d, |d|);
    } else {
      QuadIsCurvature(j, d, n - 1);
      QuadStep(j, d, |d|, n);
      assert j[n - 1][..|d|] == j[n - 1] && d[..|d|] == d;
    }
  }

  /** Replacing one entry of a vector changes its product by that entry. */
  lemma DotUpdate(u: Vector, a: nat, e: real, d: Vector)
    requires |u| == |d| && a < |u|
    ensures Dot(u[a := u[a] + e], d) == Dot(u, d) + e * d[a]
  {
    var w := u[a := u[a] + e];
    assert u == u[..a] + ([u[a]] + u[a + 1..]) && d == d[..a] + ([d[a]] + d[a + 1..]);
    assert w == u[..a] + ([u[a] + e] + u[a + 1..]);
    DotOne(u[a], d[a]);
    DotOne(u[a] + e, d[a]);
    hide Dot;
    DotConcat(u[..a], [u[a]] + u[a + 1..], d[..a], [d[a]] + d[a + 1..]);
    DotConcat(u[..a], [u[a] + e] + u[a + 1..], d[..a], [d[a]] + d[a + 1..]);
    DotConcat([u[a]], u[a + 1..], [d[a]], d[a + 1..]);
    DotConcat([u[a] + e], u[a + 1..], [d[a]], d[a + 1..]);
  }

  /** The equations multiplied by d and added up. */
  lemma {:induction false} WeighedSum(j: Matrix, r: Vector, mu: real, d: Vector, k: nat)
    requires IsMatrix(j, |j|, |d|) && |r| == |j| && k <= |d|
    requires Solves(StepSystem(j, r, |d|, mu), d)
    ensures Quad(j, d, k, |j|) + Mul(mu, Damping(j, d, k)) == -Dot(Gradient(j, r, |d|)[..k], d[..k])
    decreases k
  {
    hide *;
    var m, g := |d|, Gradient(j, r, |d|);
    if k == 0 {
      DotNone(g, d);
      SumsStart(j, d);
      MulZero(mu, Damping(j, d, 0));
    } else {
      var a := k - 1;
      WeighedSum(j, r, mu, d, a);
      StepEquation(j, r, mu, d, a);
      SumsStep(j, d, k);
      NextTerm(g, d, a);
      WeighAlgebra(d[a], Dot(GramRow(j, m, a, |j|), d), mu, Weight(j, m, a), g[a],
                   Quad(j, d, a, |j|), Damping(j, d, a), Dot(g[..a], d[..a]));
    }
  }

  lemma NextTerm(g: Vector, d: Vector, a: nat)
    requires |g| == |d| && a < |d|
    ensures Dot(g[..a + 1], d[..a + 1]) == Dot(g[..a], d[..a]) + g[a] * d[a]
  {
    assert g[..a + 1] == g[..a] + [g[a]] && d[..a + 1] == d[..a] + [d[a]];
    hide Dot;
    DotSnoc(g[..a], g[a], d[..a], d[a]);
  }

  lemma SumsStart(j: Matrix, d: Vector)
    requires IsMatrix(j, |j|, |d|)
    ensures Quad(j, d, 0, |j|) == 0.0 && Damping(j, d, 0) == 0.0
  {}

  lemma SumsStep(j: Matrix, d: Vector, k: nat)
    requires IsMatrix(j, |j|, |d|) && 0 < k <= |d|
    ensures Quad(j, d, k, |j|) == Quad(j, d, k - 1, |j|) + d[k - 1] * Dot(GramRow(j, |d|, k - 1, |j|), d)
    ensures Damping(j, d, k) == Damping(j, d, k - 1) + Mul(Weight(j, |d|, k - 1), Sq(d[k - 1]))
  {
    hide Dot, GramRow, Weight;
  }

  lemma StepEquation(j: Matrix, r: Vector, mu: real, d: Vector, a: nat)
    requires IsMatrix(j, |j|, |d|) && |r| == |j| && a < |d|
    requires Solves(StepSystem(j, r, |d|, mu), d)
    ensures Dot(GramRow(j, |d|, a, |j|), d) + Mul(mu, Weight(j, |d|, a)) * d[a] == -Gradient(j, r, |d|)[a]
  {
    hide *;
    var gram, w, e := GramRow(j, |d|, a, |j|), Weight(j, |d|, a), -GradAt(j, r, |d|, a, |j|);
    StepRow(j, r, mu, d, a);
    DotUpdate(gram, a, Mul(mu, w), d);
  }

  /** What one equation of the step system says. */
  lemma StepRow(j: Matrix, r: Vector, mu: real, d: Vector, a: nat)
    requires IsMatrix(j, |j|, |d|) && |r| == |j| && a < |d|
    requires Solves(StepSystem(j, r, |d|, mu), d)
    ensures var gram := GramRow(j, |d|, a, |j|);
            Dot(gram[a := gram[a] + Mul(mu, Weight(j, |d|, a))], d) == -GradAt(j, r, |d|, a, |j|)
    ensures Gradient(j, r, |d|)[a] == GradAt(j, r, |d|, a, |j|)
  {
    hide *;
    StepSystemRow(j, r, |d|, mu, a);
    RowOfSolution(StepSystem(j, r, |d|, mu), d, a);
    DampedRowIs(j, |d|, mu, a);
    RowSplit(DampedRow(j, |d|, mu, a), -GradAt(j, r, |d|, a, |j|), d);
  }

  lemma RowOfSolution(s: Rows, x: Vector, a: nat)
    requires Shape(s, |x|) && Solves(s, x) && a < |x|
    ensures |s[a]| == |x| + 1 && RowHolds(s[a], x)
  {
    hide RowHolds;
  }

  lemma RowSplit(left: Vector, right: real, x: Vector)
    requires |left| == |x| && RowHolds(left + [right], x)
    ensures Dot(left, x) == right
  {
    assert (left + [right])[..|x|] == left;
  }

  lemma DampedRowIs(j: Matrix, m: nat, mu: real, a: nat)
    requires IsMatrix(j, |j|, m) && a < m
    ensures var gram := GramRow(j, m, a, |j|);
            DampedRow(j, m, mu, a) == gram[a := gram[a] + Mul(mu, Weight(j, m, a))]
  {
    hide GramAt, Weight, Mul;
  }

  lemma StepSystemRow(j: Matrix, r: Vector, m: nat, mu: real, a: nat)
    requires IsMatrix(j, |j|, m) && |r| == |j| && a < m
    ensures StepSystem(j, r, m, mu)[a] == DampedRow(j, m, mu, a) + [-GradAt(j, r, m, a, |j|)]
    ensures Gradient(j, r, m)[a] == GradAt(j, r, m, a, |j|)
  {
    hide DampedRow, GradAt;
  }

  lemma WeighAlgebra(d: real, q: real, mu: real, w: real, g: real, sumQ: real, sumD: real, sumG: real)
    requires q + Mul(mu, w) * d == -g
    requires sumQ + Mul(mu, sumD) == -sumG
    ensures (sumQ + d * q) + Mul(mu, sumD + Mul(w, Sq(d))) == -(sumG + g * d)
  {
    assert Mul(mu, sumD + Mul(w, Sq(d))) == mu * sumD + mu * w * d * d by {
      assert Sq(d) == d * d;
    }
    assert d * (q + mu * w * d) == d * q + mu * w * d * d;
    assert d * (q + mu * w * d) == -(g * d);
  }

  /** Every damped step is a descent direction: along it the squared residuals
      fall to first order, unless it is the zero step. */
  lemma DescentDirection(j: Matrix, r: Vector, mu: real, d: Vector)
    requires IsMatrix(j, |j|, |d|) && |r| == |j| && mu > 0.0
    requires Solves(StepSystem(j, r, |d|, mu), d)
    ensures Dot(Gradient(j, r, |d|), d) == -(Curvature(j, d, |j|) + Mul(mu, Damping(j, d, |d|)))
    ensures Dot(Gradient(j, r, |d|), d) <= 0.0
    ensures Dot(Gradient(j, r, |d|), d) == 0.0 <==> d == Zero(|d|)
  {
    hide *;
    var g := Gradient(j, r, |d|);
    WeighedSum(j, r, mu, d, |d|);
    QuadIsCurvature(j, d, |j|);
    assert g[..|d|] == g && d[..|d|] == d;
    MulSign(mu, Damping(j, d, |d|));
    ZeroGradient(g, d);
    NonZero(d);
    if i :| 0 <= i < |d| && d[i] != 0.0 {
      DampingPositive(j, d, |d|, i);
    }
  }

  lemma ZeroGradient(g: Vector, d: Vector)
    requires |g| == |d|
    ensures d == Zero(|d|) ==> Dot(g, d) == 0.0
  {
    DotCommutes(g, d);
    if d == Zero(|d|) {
      DotZero(d, g);
    }
  }

  lemma NonZero(d: Vector)
    ensures d != Zero(|d|) ==> exists i :: 0 <= i < |d| && d[i] != 0.0
  {}

  /** The damped matrix is never exactly singular. */
  lemma DampedIsRegular(j: Matrix, mu: real, z: Vector)
    requires IsMatrix(j, |j|, |z|) && mu > 0.0
    requires forall a :: 0 <= a < |z| ==> Dot(DampedRow(j, |z|, mu, a), z) == 0.0
    ensures z == Zero(|z|)
  {
    var m, r := |z|, Zero(|j|);
    forall a | 0 <= a < m
      ensures RowHolds(StepSystem(j, r, m, mu)[a], z) && Gradient(j, r, m)[a] == 0.0
    {
      RowOfStill(j, m, mu, a, z);
    }
    hide StepSystem, Gradient, DampedRow, RowHolds, Dot;
    DescentDirection(j, r, mu, z);
    DotZero(Gradient(j, r, m), z);
  }

  /** With residuals of zero a row of the step is the damped row alone. */
  lemma RowOfStill(j: Matrix, m: nat, mu: real, a: nat, z: Vector)
    requires IsMatrix(j, |j|, m) && a < m && |z| == m && Dot(DampedRow(j, m, mu, a), z) == 0.0
    ensures RowHolds(StepSystem(j, Zero(|j|), m, mu)[a], z) && Gradient(j, Zero(|j|), m)[a] == 0.0
  {
    GradZero(j, m, a, |j|);
    hide DampedRow, Dot, GradAt;
    var row := DampedRow(j, m, mu, a);
    assert (row + [-GradAt(j, Zero(|j|), m, a, |j|)])[..m] == row;
  }

  lemma {:induction false} GradZero(j: Matrix, m: nat, a: nat, k: nat)
    requires IsMatrix(j, |j|, m) && a < m && k <= |j|
    ensures GradAt(j, Zero(|j|), m, a, k) == 0.0
    decreases k
  {
    if k == 0 {
    } else {
      GradZero(j, m, a, k - 1);
    }
  }

  // ------------------------------------------------------------------ the fit

  /** A fitting problem: n residuals of m parameters and their Jacobian. */
  datatype Problem = Problem(n: nat, m: nat, residuals: Vector -> Vector, jacobian: Vector -> Matrix) {
    ghost predicate Ok() {
      forall x: Vector :: |x| == m ==> |residuals(x)| == n && IsMatrix(jacobian(x), n, m)
    }
  }

  function SumSquares(r: Vector, k: nat): real
    requires k <= |r|
  {
    if k == 0 then 0.0 else SumSquares(r, k - 1) + r[k - 1] * r[k - 1]
  }

  /** The mean of the squared residuals. */
  function Cost(p: Problem, x: Vector): real
    requires p.n > 0 && |p.residuals(x)| == p.n
  {
    SumSquares(p.residuals(x), p.n) / (p.n as real)
  }

  const LAMBDA0: real := 0.001
  const MAX_ITER: nat := 100
  const MAX_TRIES: nat := 10
  const MIN_IMPROV: real := 0.0000000001

  /** The damping of try number t of an iteration. */
  function Lambda(t: nat): (l: real)
    ensures l > 0.0
  {
    if t == 0 then LAMBDA0 else Lambda(t - 1) * 10.0
  }

  ghost predicate TryStep(p: Problem, x: Vector, t: nat, d: Vector)
    requires p.Ok() && p.n > 0 && |x| == |d| == p.m
  {
    Solves(StepSystem(p.jacobian(x), p.residuals(x), p.m, Lambda(t)), d)
  }

  /** A try that came to nothing: the damped matrix almost kills a direction,
      or a step that solves it costs no less. */
  ghost predicate Rejected(p: Problem, x: Vector, t: nat)
    requires p.Ok() && p.n > 0 && |x| == p.m
  {
    || NearSingular(StepSystem(p.jacobian(x), p.residuals(x), p.m, Lambda(t)), p.m)
    || exists d: Vector :: |d| == p.m && TryStep(p, x, t, d) && Cost(p, AddScaled(x, 1.0, d)) >= Cost(p, x)
  }

  /** y is x plus the first damped step that lowers the cost: all tries with
      less damping came to nothing. */
  ghost predicate Accepted(p: Problem, x: Vector, y: Vector)
    requires p.Ok() && p.n > 0 && |x| == |y| == p.m
  {
    && Cost(p, y) < Cost(p, x)
    && exists t: nat, d: Vector ::
         t < MAX_TRIES && |d| == p.m && TryStep(p, x, t, d) && y == AddScaled(x, 1.0, d) && RejectedBelow(p, x, t)
  }

  ghost predicate RejectedBelow(p: Problem, x: Vector, t: nat)
    requires p.Ok() && p.n > 0 && |x| == p.m
  {
    forall u: nat :: u < t ==> Rejected(p, x, u)
  }

  ghost predicate Stuck(p: Problem, x: Vector)
    requires p.Ok() && p.n > 0 && |x| == p.m
  {
    forall t: nat :: t < MAX_TRIES ==> Rejected(p, x, t)
  }

  /** The points of a run: each is accepted from the one before. */
  ghost predicate Run(p: Problem, path: seq<Vector>)
    requires p.Ok() && p.n > 0
  {
    && path != [] && (forall i :: 0 <= i < |path| ==> |path[i]| == p.m)
    && forall i :: 0 <= i < |path| - 1 ==> Accepted(p, path[i], path[i + 1])
  }

  /** Why a run may end where it does. */
  ghost predicate Finished(p: Problem, path: seq<Vector>)
    requires p.Ok() && p.n > 0 && Run(p, path)
  {
    var k := |path| - 1;
    || k == MAX_ITER
    || Stuck(p, path[k])
    || (k > 0 && Abs(Cost(p, path[k - 1]) - Cost(p, path[k])) < MIN_IMPROV)
  }

  /** Along a run the cost only falls. */
  lemma {:induction false} RunLowersCost(p: Problem, path: seq<Vector>, i: nat, k: nat)
    requires p.Ok() && p.n > 0 && Run(p, path) && i < k < |path|
    ensures Cost(p, path[k]) < Cost(p, path[i])
    decreases k
  {
    assert Accepted(p, path[k - 1], path[k]);
    if i == k - 1 {
    } else {
      RunLowersCost(p, path, i, k - 1);
    }
  }

  /** One parameter whose residual is itself. */
  const LINE: Problem := Problem(1, 1, (x: Vector) => if |x| == 1 then [x[0]] else [0.0], (x: Vector) => [[1.0]])

  /** A run does not just end anywhere: where the residual of this problem is
      not zero, the first try already improves, so no run is stuck there. */
  lemma NotStuckOnLine(x: Vector)
    requires |x| == 1 && x[0] != 0.0
    ensures LINE.Ok() && !Stuck(LINE, x) && Run(LINE, [x]) && !Finished(LINE, [x])
  {
    hide Rejected, Accepted, Cost;
    NotRejectedOnLine(x);
  }

  lemma NotRejectedOnLine(x: Vector)
    requires |x| == 1 && x[0] != 0.0
    ensures LINE.Ok() && !Rejected(LINE, x, 0)
  {
    var rows := StepSystem(LINE.jacobian(x), LINE.residuals(x), 1, Lambda(0));
    LineSystem(x);
    if NearSingular(rows, 1) {
      var z: Vector, k: nat :| |z| == 1 && AlmostKilled(rows, z, k);
      assert Abs(Product(rows[0], z)) < TINY;
      LineProduct(1.001, -x[0], z);
      assert false;
    }
    forall d: Vector | |d| == 1 && TryStep(LINE, x, 0, d)
      ensures Cost(LINE, AddScaled(x, 1.0, d)) < Cost(LINE, x)
    {
      assert RowHolds(rows[0], d);
      LineProduct(1.001, -x[0], d);
      LineCost(x, d);
    }
  }

  lemma LineSystem(x: Vector)
    requires |x| == 1
    ensures LINE.Ok() && StepSystem(LINE.jacobian(x), LINE.residuals(x), 1, Lambda(0)) == [[1.001, -x[0]]]
  {
    var j, r := LINE.jacobian(x), LINE.residuals(x);
    assert GramAt(j, 1, 0, 0, 1) == 1.0 && GradAt(j, r, 1, 0, 1) == x[0];
    var zero: nat := 0;
    assert Lambda(zero) == LAMBDA0;
    assert DampedRow(j, 1, Lambda(0), 0) == [1.001];
    assert StepSystem(j, r, 1, Lambda(0))[0] == [1.001, -x[0]];
  }

  lemma LineProduct(p: real, q: real, z: Vector)
    requires |z| == 1
    ensures [p, q][..1] == [p] && Dot([p], z) == p * z[0]
  {
    assert [p][1..] == [] && z[1..] == [] && [p, q][..1] == [p];
  }

  lemma OneSquare(r: Vector)
    requires |r| == 1
    ensures SumSquares(r, 1) == r[0] * r[0]
  {
    assert SumSquares(r, 0) == 0.0;
  }

  lemma LineCost(x: Vector, d: Vector)
    requires |x| == |d| == 1 && x[0] != 0.0 && 1.001 * d[0] == -x[0]
    ensures LINE.Ok() && Cost(LINE, AddScaled(x, 1.0, d)) < Cost(LINE, x)
  {
    var y := AddScaled(x, 1.0, d);
    assert y[0] == x[0] + 1.0 * d[0] == -0.001 * d[0] && x[0] == -1.001 * d[0];
    OneSquare(LINE.residuals(x));
    OneSquare(LINE.residuals(y));
    LineAlgebra(x[0], y[0], d[0]);
    assert Cost(LINE, y) == y[0] * y[0] / 1.0 && Cost(LINE, x) == x[0] * x[0] / 1.0;
  }

  lemma LineAlgebra(x: real, y: real, d: real)
    requires x == -1.001 * d && y == -0.001 * d && d != 0.0
    ensures y * y < x * x
  {
    SqSign(d);
    assert y * y == 0.000001 * (d * d) && x * x == 1.002001 * (d * d);
  }

  /** Every accepted step went strictly downhill in the model as well. */
  lemma AcceptedIsDescent(p: Problem, x: Vector, y: Vector)
    requires p.Ok() && p.n > 0 && |x| == |y| == p.m && Accepted(p, x, y)
    ensures exists d: Vector :: |d| == p.m && y == AddScaled(x, 1.0, d)
              && Dot(Gradient(p.jacobian(x), p.residuals(x), p.m), d) < 0.0
  {
    var t: nat, d: Vector :| t < MAX_TRIES && |d| == p.m && TryStep(p, x, t, d) && y == AddScaled(x, 1.0, d);
    DescentDirection(p.jacobian(x), p.residuals(x), Lambda(t), d);
    ZeroStep(x);
    assert d != Zero(p.m);
  }

  lemma ZeroStep(x: Vector)
    ensures AddScaled(x, 1.0, Zero(|x|)) == x
  {
    var y := AddScaled(x, 1.0, Zero(|x|));
    assert forall i :: 0 <= i < |x| ==> y[i] == x[i] + 1.0 * 0.0;
  }

  // ------------------------------------------------------- as the program runs

  method MeanCost(r: Vector) returns (c: real)
    requires |r| > 0
    ensures c == SumSquares(r, |r|) / (|r| as real)
  {
    var s := 0.0;
    for i := 0 to |r|
      invariant s == SumSquares(r, i)
    {
      s := s + r[i] * r[i];
    }
    c := s / (|r| as real);
  }

  method NormalEquations(j: Matrix, r: Vector, m: nat, a: array2<real>, g: array<real>)
    requires IsMatrix(j, |j|, m) && |r| == |j| && a.Length0 == a.Length1 == g.Length == m
    modifies a, g
    ensures forall x, y :: 0 <= x < m && 0 <= y < m ==> a[x, y] == GramAt(j, m, x, y, |j|)
    ensures forall x :: 0 <= x < m ==> g[x] == GradAt(j, r, m, x, |j|)
  {
    for x := 0 to m
      invariant forall u, y :: 0 <= u < x && 0 <= y < m ==> a[u, y] == GramAt(j, m, u, y, |j|)
      invariant forall u :: 0 <= u < x ==> g[u] == GradAt(j, r, m, u, |j|)
    {
      GradInto(j, r, m, g, x);
      GramRowInto(j, m, a, x);
    }
  }

  method GradInto(j: Matrix, r: Vector, m: nat, g: array<real>, x: nat)
    requires IsMatrix(j, |j|, m) && |r| == |j| && g.Length == m && x < m
    modifies g
    ensures g[x] == GradAt(j, r, m, x, |j|)
    ensures forall u :: 0 <= u < m && u != x ==> g[u] == old(g[u])
  {
    g[x] := 0.0;
    for i := 0 to |j|
      invariant g[x] == GradAt(j, r, m, x, i)
      invariant forall u :: 0 <= u < m && u != x ==> g[u] == old(g[u])
    {
      g[x] := g[x] + j[i][x] * r[i];
    }
  }

  method GramRowInto(j: Matrix, m: nat, a: array2<real>, x: nat)
    requires IsMatrix(j, |j|, m) && a.Length0 == a.Length1 == m && x < m
    modifies a
    ensures forall y :: 0 <= y < m ==> a[x, y] == GramAt(j, m, x, y, |j|)
    ensures forall u, y :: 0 <= u < m && 0 <= y < m && u != x ==> a[u, y] == old(a[u, y])
  {
    for y := 0 to m
      invariant forall v :: 0 <= v < y ==> a[x, v] == GramAt(j, m, x, v, |j|)
      invariant forall u, v :: 0 <= u < m && 0 <= v < m && u != x ==> a[u, v] == old(a[u, v])
    {
      a[x, y] := 0.0;
      for i := 0 to |j|
        invariant a[x, y] == GramAt(j, m, x, y, i)
        invariant forall v :: 0 <= v < y ==> a[x, v] == GramAt(j, m, x, v, |j|)
        invariant forall u, v :: 0 <= u < m && 0 <= v < m && u != x ==> a[u, v] == old(a[u, v])
      {
        a[x, y] := a[x, y] + j[i][x] * j[i][y];
      }
    }
  }

  /** A copy of the normal equations with the damping on its diagonal. */
  method Damp(a: array2<real>, m: nat, mu: real) returns (ap: array2<real>)
    requires a.Length0 == a.Length1 == m
    ensures fresh(ap) && ap.Length0 == ap.Length1 == m
    ensures forall x, y :: 0 <= x < m && 0 <= y < m ==>
              ap[x, y] == if x == y then a[x, x] + mu * (if a[x, x] > 0.0 then a[x, x] else 1.0) else a[x, y]
  {
    ap := new real[m, m];
    for x := 0 to m
      invariant forall u, v :: 0 <= u < x && 0 <= v < m ==> ap[u, v] == a[u, v]
    {
      for y := 0 to m
        invariant forall u, v :: 0 <= u < x && 0 <= v < m ==> ap[u, v] == a[u, v]
        invariant forall v :: 0 <= v < y ==> ap[x, v] == a[x, v]
      {
        ap[x, y] := a[x, y];
      }
    }
    for x := 0 to m
      invariant forall u, v :: 0 <= u < m && 0 <= v < m && (u != v || x <= u) ==> ap[u, v] == a[u, v]
      invariant forall u :: 0 <= u < x ==> ap[u, u] == a[u, u] + mu * (if a[u, u] > 0.0 then a[u, u] else 1.0)
    {
      ap[x, x] := ap[x, x] + mu * (if a[x, x] > 0.0 then a[x, x] else 1.0);
    }
  }

  lemma SystemOfStep(j: Matrix, r: Vector, m: nat, mu: real, a: array2<real>, ap: array2<real>, ng: array<real>)
    requires IsMatrix(j, |j|, m) && |r| == |j| && a.Length0 == a.Length1 == ap.Length0 == ap.Length1 == ng.Length == m
    requires forall x, y :: 0 <= x < m && 0 <= y < m ==> a[x, y] == GramAt(j, m, x, y, |j|)
    requires forall x, y :: 0 <= x < m && 0 <= y < m ==>
               ap[x, y] == if x == y then a[x, x] + mu * (if a[x, x] > 0.0 then a[x, x] else 1.0) else a[x, y]
    requires forall x :: 0 <= x < m ==> ng[x] == -GradAt(j, r, m, x, |j|)
    ensures System(ap, ng) == StepSystem(j, r, m, mu)
  {
    hide GramAt, GradAt;
    forall x | 0 <= x < m
      ensures System(ap, ng)[x] == StepSystem(j, r, m, mu)[x]
    {
      var left, right := System(ap, ng)[x], StepSystem(j, r, m, mu)[x];
      forall y | 0 <= y < m
        ensures left[y] == right[y]
      {
        assert left[y] == ap[x, y];
      }
      assert left[m] == right[m];
    }
  }

  /** The arrays hold the normal equations at x. */
  ghost predicate Holds(p: Problem, x: Vector, a: array2<real>, ng: array<real>)
    requires p.Ok() && |x| == p.m
    reads a, ng
  {
    var j, r := p.jacobian(x), p.residuals(x);
    && a.Length0 == a.Length1 == ng.Length == p.m
    && (forall u, v :: 0 <= u < p.m && 0 <= v < p.m ==> a[u, v] == GramAt(j, p.m, u, v, |j|))
    && (forall u :: 0 <= u < p.m ==> ng[u] == -GradAt(j, r, p.m, u, |j|))
  }

  /** One try with a given damping. */
  method TryOnce(p: Problem, x: Vector, a: array2<real>, ng: array<real>, costOld: real, t: nat, mu: real)
    returns (improved: bool, y: Vector)
    requires p.Ok() && p.n > 0 && |x| == p.m && Holds(p, x, a, ng)
    requires costOld == Cost(p, x) && t < MAX_TRIES && mu == Lambda(t) && RejectedBelow(p, x, t)
    ensures |y| == p.m
    ensures improved ==> Accepted(p, x, y)
    ensures !improved ==> y == x && Rejected(p, x, t)
  {
    hide Shape, Solves, SumSquares, StepSystem, AddScaled, GramAt, GradAt, Gauss.NearSingular, Lambda,
         RejectedBelow;
    improved, y := false, x;
    var ap := Damp(a, p.m, mu);
    SystemOfStep(p.jacobian(x), p.residuals(x), p.m, mu, a, ap, ng);
    var d := new real[p.m];
    var ok := GaussSolve(ap, ng, d);
    if !ok {
      return;
    }
    assert TryStep(p, x, t, d[..]);
    var xNew := AddScaled(x, 1.0, d[..]);
    var costNew := MeanCost(p.residuals(xNew));
    if costNew < costOld {
      improved, y := true, xNew;
    }
  }

  /** One iteration: up to ten tries with growing damping.  Either a step is
      accepted or every try was rejected. */
  method Iterate(p: Problem, x: Vector) returns (improved: bool, y: Vector)
    requires p.Ok() && p.n > 0 && |x| == p.m
    ensures |y| == p.m
    ensures improved ==> Accepted(p, x, y)
    ensures !improved ==> y == x && Stuck(p, x)
  {
    hide SumSquares, Accepted, Rejected;
    var m, j, r := p.m, p.jacobian(x), p.residuals(x);
    var costOld := MeanCost(r);
    var a, g := new real[m, m], new real[m];
    NormalEquations(j, r, m, a, g);
    var ng := new real[m](i requires 0 <= i < m && g.Length == m reads g => -g[i]);
    assert Holds(p, x, a, ng);
    hide Holds;
    var mu, tries := LAMBDA0, 0;
    improved, y := false, x;
    while tries < MAX_TRIES
      modifies {}
      invariant tries <= MAX_TRIES && mu == Lambda(tries) && y == x
      invariant RejectedBelow(p, x, tries)
    {
      improved, y := TryOnce(p, x, a, ng, costOld, tries, mu);
      if improved {
        return;
      }
      mu := mu * 10.0;
      tries := tries + 1;
    }
  }

  const MIN_SAMPLES: nat := 6

  /** The fit from a starting point.  It ends after at most 100 accepted
      steps, at a point no worse than the start, for a stated reason. */
  method Fit(p: Problem, x0: Vector) returns (ok: bool, x: Vector, cost: real, ghost path: seq<Vector>)
    requires p.Ok() && |x0| == p.m
    ensures ok == (p.n >= MIN_SAMPLES)
    ensures ok ==> |x| == p.m && cost == Cost(p, x) && cost <= Cost(p, x0)
    ensures ok ==> Run(p, path) && path[0] == x0 && path[|path| - 1] == x
    ensures ok ==> |path| <= MAX_ITER + 1 && Finished(p, path)
  {
    hide SumSquares, Accepted, Stuck;
    x, cost, path := x0, 0.0, [x0];
    if p.n < MIN_SAMPLES {
      return false, x, cost, path;
    }
    var iter, converged := 0, false;
    while iter < MAX_ITER && !converged
      invariant iter <= MAX_ITER && Run(p, path) && path[0] == x0 && path[|path| - 1] == x && |x| == p.m
      invariant |path| <= iter + 1
      invariant !converged ==> |path| == iter + 1
      invariant converged ==> Finished(p, path)
      decreases MAX_ITER - iter, if converged then 0 else 1
    {
      var costOld := MeanCost(p.residuals(x));
      var improved, y := Iterate(p, x);
      if improved {
        var costNew := MeanCost(p.residuals(y));
        converged := Abs(costOld - costNew) < MIN_IMPROV;
        RunSnoc(p, path, y);
        path := path + [y];
        x := y;
      } else {
        converged := true;
      }
      iter := iter + 1;
    }
    cost := MeanCost(p.residuals(x));
    if |path| > 1 {
      RunLowersCost(p, path, 0, |path| - 1);
    }
    ok := true;
  }

  lemma RunSnoc(p: Problem, path: seq<Vector>, y: Vector)
    requires p.Ok() && p.n > 0 && Run(p, path) && |y| == p.m
    requires Accepted(p, path[|path| - 1], y)
    ensures Run(p, path + [y])
  {
    hide Accepted;
    var longer := path + [y];
    forall i | 0 <= i < |longer| - 1
      ensures Accepted(p, longer[i], longer[i + 1])
    {
      if i < |path| - 1 {
        assert longer[i] == path[i] && longer[i + 1] == path[i + 1];
      }
    }
  }
}
