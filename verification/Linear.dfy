/** Real vectors, their inner product, and its linearity. */
module Linear {

  function Abs(r: real): (a: real)
    ensures a >= 0.0 && (a == r || a == -r)
  {
    if r < 0.0 then -r else r
  }

  function Dot(u: seq<real>, v: seq<real>): real
    requires |u| == |v|
    decreases |u|
  {
    if u == [] then 0.0 else u[0] * v[0] + Dot(u[1..], v[1..])
  }

  /** u + c v */
  function AddScaled(u: seq<real>, c: real, v: seq<real>): (w: seq<real>)
    requires |u| == |v|
    ensures |w| == |u|
  {
    seq(|u|, i requires 0 <= i < |u| => u[i] + c * v[i])
  }

  function Zero(n: nat): (z: seq<real>)
    ensures |z| == n
  {
    seq(n, _ => 0.0)
  }

  lemma AddScaledTake(u: seq<real>, c: real, v: seq<real>, n: nat)
    requires |u| == |v| && n < |u|
    ensures AddScaled(u, c, v)[..n] == AddScaled(u[..n], c, v[..n])
    ensures AddScaled(u, c, v)[n] == u[n] + c * v[n]
  {
    var a, b := AddScaled(u, c, v)[..n], AddScaled(u[..n], c, v[..n]);
    assert forall i :: 0 <= i < n ==> a[i] == u[..n][i] + c * v[..n][i] == b[i];
  }

  lemma AddScaledTail(u: seq<real>, c: real, v: seq<real>)
    requires |u| == |v| && u != []
    ensures AddScaled(u, c, v)[1..] == AddScaled(u[1..], c, v[1..])
    ensures AddScaled(u, c, v)[0] == u[0] + c * v[0]
  {
    var a, b := AddScaled(u, c, v)[1..], AddScaled(u[1..], c, v[1..]);
    assert forall i :: 0 <= i < |b| ==> a[i] == u[1..][i] + c * v[1..][i] == b[i];
  }

  lemma Distribute(a: real, c: real, b: real, x: real)
    ensures (a + c * b) * x == a * x + c * (b * x)
  {}

  lemma {:induction false} DotAddScaled(u: seq<real>, c: real, v: seq<real>, x: seq<real>)
    requires |u| == |v| == |x|
    ensures Dot(AddScaled(u, c, v), x) == Dot(u, x) + c * Dot(v, x)
    decreases |u|
  {
    hide AddScaled;
    if u == [] {
    } else {
      AddScaledTail(u, c, v);
      DotAddScaled(u[1..], c, v[1..], x[1..]);
      Distribute(u[0], c, v[0], x[0]);
      SumScaled(u[0] * x[0], Dot(u[1..], x[1..]), c, v[0] * x[0], Dot(v[1..], x[1..]));
    }
  }

  /** Entries that are zero on the left drop out of an inner product. */
  lemma {:induction false} DotFrom(u: seq<real>, x: seq<real>, i: nat, p: real, q: real)
    requires |u| == |x| && i < |u| && u[i] == p && x[i] == q
    requires forall c :: 0 <= c < i ==> u[c] == 0.0
    ensures Dot(u, x) == p * q + Dot(u[i + 1..], x[i + 1..])
    decreases i
  {
    hide Dot;
    if i == 0 {
      DotStep(u, x);
    } else {
      DotSkip(u, x);
      var v, y := u[1..], x[1..];
      assert forall c :: 0 <= c < i - 1 ==> v[c] == u[c + 1];
      DotFrom(v, y, i - 1, p, q);
      assert v[i - 1 + 1..] == u[i + 1..] && y[i - 1 + 1..] == x[i + 1..];
    }
  }

  lemma DotStep(u: seq<real>, x: seq<real>)
    requires |u| == |x| && u != []
    ensures Dot(u, x) == u[0] * x[0] + Dot(u[1..], x[1..])
  {}

  lemma DotSkip(u: seq<real>, x: seq<real>)
    requires |u| == |x| && u != [] && u[0] == 0.0
    ensures Dot(u, x) == Dot(u[1..], x[1..])
  {}

  lemma SumScaled(a: real, b: real, c: real, d: real, e: real)
    ensures (a + c * d) + (b + c * e) == (a + b) + c * (d + e)
  {}

  lemma {:induction false} DotCommutes(u: seq<real>, v: seq<real>)
    requires |u| == |v|
    ensures Dot(u, v) == Dot(v, u)
    decreases |u|
  {
    if u == [] {
    } else {
      DotCommutes(u[1..], v[1..]);
    }
  }

  lemma {:induction false} DotZero(u: seq<real>, v: seq<real>)
    requires |u| == |v| && forall i :: 0 <= i < |u| ==> u[i] == 0.0
    ensures Dot(u, v) == 0.0
    decreases |u|
  {
    if u == [] {
    } else {
      DotZero(u[1..], v[1..]);
    }
  }

  lemma {:induction false} DotConcat(a: seq<real>, b: seq<real>, u: seq<real>, v: seq<real>)
    requires |a| == |u| && |b| == |v|
    ensures Dot(a + b, u + v) == Dot(a, u) + Dot(b, v)
    decreases |a|
  {
    if a == [] {
      assert a + b == b && u + v == v;
    } else {
      assert (a + b)[1..] == a[1..] + b && (u + v)[1..] == u[1..] + v;
      DotConcat(a[1..], b, u[1..], v);
    }
  }

  lemma DotOne(a: real, b: real)
    ensures Dot([a], [b]) == a * b
  {
    assert Dot([a][1..], [b][1..]) == 0.0;
  }

  lemma DotSnoc(u: seq<real>, a: real, v: seq<real>, b: real)
    requires |u| == |v|
    ensures Dot(u + [a], v + [b]) == Dot(u, v) + a * b
  {
    hide Dot;
    DotConcat(u, [a], v, [b]);
    DotOne(a, b);
  }

  // ------------------------------------------------------- signs of products

  /** The product, as a function that sign arguments can keep folded. */
  function Mul(a: real, b: real): real { a * b }

  lemma MulPositive(a: real, b: real)
    requires a > 0.0
    requires b > 0.0
    ensures Mul(a, b) > 0.0
  {}

  lemma MulNegative(a: real, b: real)
    requires a < 0.0
    requires b < 0.0
    ensures Mul(a, b) > 0.0
  {}

  lemma MulZero(a: real, b: real)
    requires a == 0.0 || b == 0.0
    ensures Mul(a, b) == 0.0
  {}

  function Sq(a: real): (s: real)
    ensures a != 0.0 ==> s > 0.0
    ensures a == 0.0 ==> s == 0.0
  {
    SqSign(a);
    Mul(a, a)
  }

  lemma SqSign(a: real)
    ensures a != 0.0 ==> Mul(a, a) > 0.0
    ensures a == 0.0 ==> Mul(a, a) == 0.0
  {
    hide Mul;
    if a > 0.0 {
      MulPositive(a, a);
    } else if a < 0.0 {
      MulNegative(a, a);
    } else {
      MulZero(a, a);
    }
  }

  /** A positive factor keeps the sign of a number that is not negative. */
  lemma MulSign(a: real, b: real)
    requires a > 0.0 && b >= 0.0
    ensures Mul(a, b) >= 0.0
    ensures Mul(a, b) > 0.0 <==> b > 0.0
  {
    hide Mul;
    if b > 0.0 {
      MulPositive(a, b);
    } else {
      MulZero(a, b);
    }
  }
}
