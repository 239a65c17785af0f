/**
 Gauss elimination with partial pivoting, in place, as `gauss_solve`
 (tools/src/lm.c:108-156), over the reals and for any dimension.  Every step
 keeps the set of solutions; back-substitution finds the only one.
 */
module Gauss {
  import opened Linear

  type Rows = seq<seq<real>>

  /** n equations in n unknowns; a row is its coefficients and its right side. */
  predicate Shape(m: Rows, n: nat) {
    |m| == n && forall i :: 0 <= i < n ==> |m[i]| == n + 1
  }

  predicate RowHolds(row: seq<real>, x: seq<real>)
    requires |row| == |x| + 1
  {
    Dot(row[..|x|], x) == row[|x|]
  }

  predicate Solves(m: Rows, x: seq<real>)
    requires Shape(m, |x|)
  {
    forall i :: 0 <= i < |m| ==> RowHolds(m[i], x)
  }

  ghost predicate SameSolutions(a: Rows, b: Rows, n: nat)
    requires Shape(a, n) && Shape(b, n)
  {
    forall x: seq<real> :: |x| == n ==> (Solves(a, x) <==> Solves(b, x))
  }

  /** The first k columns are zero below the diagonal and the first k
      diagonal entries are not zero. */
  predicate Echelon(m: Rows, n: nat, k: nat)
    requires Shape(m, n) && k <= n
  {
    && (forall r, c :: 0 <= c < k && c < r < n ==> m[r][c] == 0.0)
    && (forall r :: 0 <= r < k ==> m[r][r] != 0.0)
  }

  const TINY: real := 0.000000000000001

  /** The coefficients of a row times a vector. */
  function Product(row: seq<real>, z: seq<real>): real
    requires |row| == |z| + 1
  {
    Dot(row[..|z|], z)
  }

  /** The matrix maps z to less than 1e-15 in every component, although z has a
      one in place k and only zeros behind it: column k is that close to a
      combination of the columns before it. */
  predicate AlmostKilled(m: Rows, z: seq<real>, k: nat)
    requires Shape(m, |z|)
  {
    && k < |z| && z[k] == 1.0 && (forall j :: k < j < |z| ==> z[j] == 0.0)
    && forall i :: 0 <= i < |m| ==> Abs(Product(m[i], z)) < TINY
  }

  /** What a refusal means of the system as it was given. */
  ghost predicate NearSingular(m: Rows, n: nat)
    requires Shape(m, n)
  {
    exists z: seq<real>, k: nat :: |z| == n && AlmostKilled(m, z, k)
  }

  // ---------------------------------------------------- steps keep solutions

  lemma RowOfSum(u: seq<real>, c: real, v: seq<real>, x: seq<real>)
    requires |u| == |v| == |x| + 1 && RowHolds(v, x)
    ensures RowHolds(AddScaled(u, c, v), x) <==> RowHolds(u, x)
  {
    var n := |x|;
    hide Dot, AddScaled;
    AddScaledTake(u, c, v, n);
    DotAddScaled(u[..n], c, v[..n], x);
    SameFactor(c, v[n], Dot(v[..n], x));
  }

  lemma SameFactor(c: real, a: real, b: real)
    requires a == b
    ensures c * a == c * b
  {}

  /** Adding a multiple of one row to another. */
  lemma EliminateKeeps(m: Rows, n: nat, i: nat, k: nat, c: real)
    requires Shape(m, n) && i < n && k < n && i != k
    ensures Shape(m[i := AddScaled(m[i], c, m[k])], n)
    ensures SameSolutions(m, m[i := AddScaled(m[i], c, m[k])], n)
  {
    hide AddScaled, RowHolds;
    var e := m[i := AddScaled(m[i], c, m[k])];
    assert forall r :: 0 <= r < n && r != i ==> e[r] == m[r];
    forall x: seq<real> | |x| == n
      ensures Solves(m, x) <==> Solves(e, x)
    {
      if Solves(m, x) {
        RowOfSum(m[i], c, m[k], x);
      }
      if Solves(e, x) {
        assert RowHolds(e[k], x) && RowHolds(e[i], x);
        RowOfSum(m[i], c, m[k], x);
        assert forall r :: 0 <= r < n && r != i ==> RowHolds(e[r], x);
      }
    }
  }

  lemma SwapKeeps(m: Rows, n: nat, i: nat, k: nat)
    requires Shape(m, n) && i < n && k < n
    ensures Shape(m[i := m[k]][k := m[i]], n)
    ensures SameSolutions(m, m[i := m[k]][k := m[i]], n)
  {
    hide RowHolds;
    var s := m[i := m[k]][k := m[i]];
    forall x: seq<real> | |x| == n
      ensures Solves(m, x) <==> Solves(s, x)
    {
      assert s[i] == m[k] && s[k] == m[i];
      assert forall r :: 0 <= r < n && r != i && r != k ==> s[r] == m[r];
      if Solves(s, x) {
        assert RowHolds(s[i], x) && RowHolds(s[k], x);
        assert forall r :: 0 <= r < n && r != i && r != k ==> RowHolds(s[r], x);
      }
    }
  }

  lemma SameSelf(a: Rows, n: nat)
    requires Shape(a, n)
    ensures SameSolutions(a, a, n)
  {
    hide Solves;
  }

  lemma SameTrans(a: Rows, b: Rows, c: Rows, n: nat)
    requires Shape(a, n) && Shape(b, n) && Shape(c, n)
    requires SameSolutions(a, b, n) && SameSolutions(b, c, n)
    ensures SameSolutions(a, c, n)
  {
    hide Solves;
  }

  // ------------------------------------------------- steps keep the products

  /** The first k rows map z to zero. */
  predicate Flat(m: Rows, k: nat, z: seq<real>)
    requires Shape(m, |z|) && k <= |m|
  {
    forall r :: 0 <= r < k ==> Product(m[r], z) == 0.0
  }

  predicate IsProduct(m: Rows, z: seq<real>, p: real)
    requires Shape(m, |z|)
  {
    exists j :: 0 <= j < |m| && Product(m[j], z) == p
  }

  /** Every product of a row of a is one of a row of b. */
  predicate SameProducts(a: Rows, b: Rows, z: seq<real>)
    requires Shape(a, |z|) && Shape(b, |z|)
  {
    forall i :: 0 <= i < |a| ==> IsProduct(b, z, Product(a[i], z))
  }

  /** Where the first k rows of b vanish, b has the products of a. */
  ghost predicate Covers(a: Rows, b: Rows, n: nat, k: nat)
    requires Shape(a, n) && Shape(b, n) && k <= n
  {
    forall z: seq<real> :: |z| == n && Flat(b, k, z) ==> SameProducts(a, b, z)
  }

  lemma CoversSelf(a: Rows, n: nat, k: nat)
    requires Shape(a, n) && k <= n
    ensures Covers(a, a, n, k)
  {
    hide Product;
    forall z: seq<real> | |z| == n && Flat(a, k, z)
      ensures SameProducts(a, a, z)
    {
      forall i | 0 <= i < n
        ensures IsProduct(a, z, Product(a[i], z))
      {}
    }
  }

  /** Later steps leave the finished rows alone, so the steps compose. */
  lemma CoversThen(a: Rows, b: Rows, c: Rows, n: nat, k: nat, l: nat)
    requires Shape(a, n) && Shape(b, n) && Shape(c, n) && k <= l <= n
    requires Covers(a, b, n, k) && Covers(b, c, n, l)
    requires forall r :: 0 <= r < k ==> c[r] == b[r]
    ensures Covers(a, c, n, l)
  {
    hide Product;
    forall z: seq<real> | |z| == n && Flat(c, l, z)
      ensures SameProducts(a, c, z)
    {
      assert Flat(b, k, z);
      assert SameProducts(a, b, z) && SameProducts(b, c, z);
      forall i | 0 <= i < n
        ensures IsProduct(c, z, Product(a[i], z))
      {
        assert IsProduct(b, z, Product(a[i], z));
        var j :| 0 <= j < n && Product(b[j], z) == Product(a[i], z);
        assert IsProduct(c, z, Product(b[j], z));
      }
    }
  }

  lemma SwapCovers(m: Rows, n: nat, k: nat, piv: nat)
    requires Shape(m, n) && k < piv < n
    ensures var s := m[k := m[piv]][piv := m[k]];
            Shape(s, n) && Covers(m, s, n, k)
  {
    hide Product;
    var s := m[k := m[piv]][piv := m[k]];
    forall z: seq<real> | |z| == n && Flat(s, k, z)
      ensures SameProducts(m, s, z)
    {
      forall i | 0 <= i < n
        ensures IsProduct(s, z, Product(m[i], z))
      {
        assert s[if i == k then piv else if i == piv then k else i] == m[i];
      }
    }
  }

  lemma EliminateCovers(m: Rows, n: nat, i: nat, k: nat, c: real)
    requires Shape(m, n) && k < i < n
    ensures var e := m[i := AddScaled(m[i], c, m[k])];
            Shape(e, n) && Covers(m, e, n, k + 1)
  {
    var e := m[i := AddScaled(m[i], c, m[k])];
    hide AddScaled;
    forall z: seq<real> | |z| == n && Flat(e, k + 1, z)
      ensures SameProducts(m, e, z)
    {
      assert e[k] == m[k] && Product(m[k], z) == 0.0;
      ProductOfSum(m[i], c, m[k], z);
      hide Product;
      forall j | 0 <= j < n
        ensures IsProduct(e, z, Product(m[j], z))
      {
        assert j != i ==> e[j] == m[j];
        assert Product(e[j], z) == Product(m[j], z);
      }
    }
  }

  lemma ProductOfSum(u: seq<real>, c: real, v: seq<real>, z: seq<real>)
    requires |u| == |v| == |z| + 1 && Product(v, z) == 0.0
    ensures Product(AddScaled(u, c, v), z) == Product(u, z)
  {
    var n := |z|;
    hide Dot, AddScaled;
    AddScaledTake(u, c, v, n);
    DotAddScaled(u[..n], c, v[..n], z);
    SameFactor(c, Dot(v[..n], z), 0.0);
  }

  /** The direction a column without a pivot gives: back-substitution through
      the finished rows from a one in place k. */
  lemma {:induction false} Direction(m: Rows, n: nat, k: nat, r: nat) returns (z: seq<real>)
    requires Shape(m, n) && r <= k < n && Echelon(m, n, k)
    ensures |z| == n && z[k] == 1.0 && forall j :: k < j < n ==> z[j] == 0.0
    ensures forall i :: r <= i < k ==> Product(m[i], z) == 0.0
    decreases k - r
  {
    if r == k {
      z := Zero(n)[k := 1.0];
    } else {
      var y := Direction(m, n, k, r + 1);
      var t := Dot(m[r][r + 1..n], y[r + 1..]);
      z := y[r := -t / m[r][r]];
      assert z[r + 1..] == y[r + 1..];
      FirstRowFlat(m, n, k, r, z, t);
      forall i | r < i < k
        ensures Product(m[i], z) == 0.0
      {
        assert z[i..] == y[i..];
        LeftOfRow(m, n, k, i);
        SameTail(m[i][..n], z, y, i);
      }
    }
  }

  lemma LeftOfRow(m: Rows, n: nat, k: nat, i: nat)
    requires Shape(m, n) && k <= n && Echelon(m, n, k) && i < n
    ensures forall c :: 0 <= c < i && c < k ==> m[i][..n][c] == 0.0
  {
    assert forall c :: 0 <= c < i && c < k ==> m[i][..n][c] == m[i][c] == 0.0;
  }

  /** Where a row is zero on the left, what a vector holds there is lost. */
  lemma SameTail(u: seq<real>, x: seq<real>, y: seq<real>, i: nat)
    requires |u| == |x| == |y| && i < |u| && x[i..] == y[i..] && forall c :: 0 <= c < i ==> u[c] == 0.0
    ensures Dot(u, x) == Dot(u, y)
  {
    hide Dot;
    assert x[i] == x[i..][0] && y[i] == y[i..][0];
    assert x[i + 1..] == x[i..][1..] && y[i + 1..] == y[i..][1..];
    DotFrom(u, x, i, u[i], x[i]);
    DotFrom(u, y, i, u[i], x[i]);
  }

  lemma FirstRowFlat(m: Rows, n: nat, k: nat, r: nat, z: seq<real>, t: real)
    requires Shape(m, n) && k < n && Echelon(m, n, k) && r < k && |z| == n
    requires t == Dot(m[r][r + 1..n], z[r + 1..]) && z[r] == -t / m[r][r]
    ensures Product(m[r], z) == 0.0
  {
    LeftOfRow(m, n, k, r);
    var p := m[r][r];
    assert p != 0.0;
    hide Echelon, Dot;
    DotFrom(m[r][..n], z, r, p, z[r]);
    assert m[r][..n][r + 1..] == m[r][r + 1..n];
    Quotient(-t, p);
  }

  /** Below the finished rows only the entry of column k is left. */
  lemma LowRow(m: Rows, n: nat, k: nat, i: nat, z: seq<real>)
    requires Shape(m, n) && k <= i < n && |z| == n && Echelon(m, n, k)
    requires z[k] == 1.0 && forall j :: k < j < n ==> z[j] == 0.0
    ensures Product(m[i], z) == m[i][k]
  {
    LeftOfRow(m, n, k, i);
    hide Echelon, Dot;
    DotFrom(m[i][..n], z, k, m[i][k], 1.0);
    DotCommutes(m[i][..n][k + 1..], z[k + 1..]);
    DotZero(z[k + 1..], m[i][..n][k + 1..]);
  }

  /** A column whose candidates are all tiny shows in the system itself. */
  lemma NoPivotMeans(m: Rows, reduced: Rows, n: nat, k: nat)
    requires Shape(m, n) && Shape(reduced, n) && k < n && Covers(m, reduced, n, k) && Echelon(reduced, n, k)
    requires forall i :: k <= i < n ==> Abs(reduced[i][k]) < TINY
    ensures NearSingular(m, n)
  {
    var z := Direction(reduced, n, k, 0);
    hide Product, Echelon;
    assert Flat(reduced, k, z);
    forall i | 0 <= i < n
      ensures Abs(Product(m[i], z)) < TINY
    {
      assert IsProduct(reduced, z, Product(m[i], z));
      var j :| 0 <= j < n && Product(reduced[j], z) == Product(m[i], z);
      if j >= k {
        LowRow(reduced, n, k, j, z);
      }
    }
    assert AlmostKilled(m, z, k);
  }

  lemma TinyDiagonal(m: Rows, n: nat, z: seq<real>, k: nat)
    requires Shape(m, n) && Echelon(m, n, n) && |z| == n && AlmostKilled(m, z, k)
    ensures k < n && Abs(m[k][k]) < TINY
  {
    assert Echelon(m, n, k);
    hide Product, Echelon;
    LowRow(m, n, k, k, z);
    assert Abs(Product(m[k], z)) < TINY;
  }

  /** For a triangular system the refusal condition is exact: it is met when
      some diagonal entry is tiny, and only then. */
  lemma TriangularNearSingular(m: Rows, n: nat)
    requires Shape(m, n) && Echelon(m, n, n)
    ensures NearSingular(m, n) <==> exists r :: 0 <= r < n && Abs(m[r][r]) < TINY
  {
    if r :| 0 <= r < n && Abs(m[r][r]) < TINY {
      CoversSelf(m, n, r);
      hide Covers, NearSingular;
      NoPivotMeans(m, m, n, r);
    }
    hide Product, Covers, AlmostKilled, Echelon;
    if z: seq<real>, k: nat :| |z| == n && AlmostKilled(m, z, k) {
      TinyDiagonal(m, n, z, k);
    }
  }

  // ------------------------------------------------------- triangular systems

  /** In a triangular row only the entries from the diagonal on count. */
  lemma TriangularRow(m: Rows, n: nat, i: nat, x: seq<real>)
    requires Shape(m, n) && Echelon(m, n, n) && i < n && |x| == n
    ensures Dot(m[i][..n], x) == m[i][i] * x[i] + Dot(m[i][i + 1..n], x[i + 1..])
  {
    LeftIsZero(m, n, i);
    hide *;
    assert m[i][i + 1..n] == m[i][..n][i + 1..];
    RowFrom(m[i][..n], x, i, m[i][i], x[i], m[i][i + 1..n], x[i + 1..]);
  }

  lemma RowFrom(u: seq<real>, x: seq<real>, i: nat, p: real, q: real, tail: seq<real>, y: seq<real>)
    requires |u| == |x| && i < |u| && u[i] == p && x[i] == q && tail == u[i + 1..] && y == x[i + 1..]
    requires forall c :: 0 <= c < i ==> u[c] == 0.0
    ensures Dot(u, x) == p * q + Dot(tail, y)
  {
    hide *;
    DotFrom(u, x, i, p, q);
  }

  lemma LeftIsZero(m: Rows, n: nat, i: nat)
    requires Shape(m, n) && Echelon(m, n, n) && i < n
    ensures |m[i]| == n + 1 && forall c :: 0 <= c < i ==> m[i][..n][c] == 0.0
  {
    assert forall c :: 0 <= c < i ==> m[i][..n][c] == m[i][c] == 0.0;
  }

  lemma RowOf(m: Rows, n: nat, i: nat, x: seq<real>)
    requires Shape(m, n) && i < n && |x| == n && Solves(m, x)
    ensures |m[i]| == n + 1 && Dot(m[i][..n], x) == m[i][n]
  {
    assert RowHolds(m[i], x);
  }

  lemma SameUnknown(m: Rows, n: nat, x: seq<real>, y: seq<real>, i: nat)
    requires Shape(m, n) && Echelon(m, n, n) && i < n && |x| == n && |y| == n
    requires Solves(m, x) && Solves(m, y) && x[i + 1..] == y[i + 1..]
    ensures x[i] == y[i]
  {
    assert m[i][i] != 0.0;
    hide *;
    RowOf(m, n, i, x);
    RowOf(m, n, i, y);
    TriangularRow(m, n, i, x);
    TriangularRow(m, n, i, y);
    Cancel(m[i][i], x[i], y[i], m[i][n] - Dot(m[i][i + 1..n], x[i + 1..]));
  }

  /** Two solutions agree from the last unknown upwards. */
  lemma {:induction false} AgreeFrom(m: Rows, n: nat, x: seq<real>, y: seq<real>, i: nat)
    requires Shape(m, n) && Echelon(m, n, n) && i <= n && |x| == n && |y| == n
    requires Solves(m, x) && Solves(m, y)
    ensures x[i..] == y[i..]
    decreases n - i
  {
    hide *;
    if i == n {
    } else {
      AgreeFrom(m, n, x, y, i + 1);
      SameUnknown(m, n, x, y, i);
      assert x[i..] == [x[i]] + x[i + 1..] && y[i..] == [y[i]] + y[i + 1..];
    }
  }

  lemma Cancel(p: real, a: real, b: real, s: real)
    requires p != 0.0
    requires p * a == s
    requires p * b == s
    ensures a == b
  {
    assert a == s / p && b == s / p;
  }

  lemma OnlySolution(m: Rows, n: nat, x: seq<real>, y: seq<real>)
    requires Shape(m, n) && Echelon(m, n, n) && |x| == n && |y| == n
    requires Solves(m, x) && Solves(m, y)
    ensures x == y
  {
    AgreeFrom(m, n, x, y, 0);
    assert x[0..] == x && y[0..] == y;
  }

  /** When the unique solution exists the matrix maps only zero to zero, so
      an exactly singular matrix is always refused. */
  lemma SolvedIsRegular(m: Rows, n: nat, x: seq<real>, z: seq<real>)
    requires Shape(m, n) && |x| == n && |z| == n
    requires Solves(m, x) && forall y: seq<real> :: |y| == n && Solves(m, y) ==> y == x
    requires forall i :: 0 <= i < n ==> Dot(m[i][..n], z) == 0.0
    ensures z == Zero(n)
  {
    var y := AddScaled(x, 1.0, z);
    forall i | 0 <= i < n
      ensures RowHolds(m[i], y)
    {
      assert RowHolds(m[i], x);
      DotCommutes(m[i][..n], y);
      DotAddScaled(x, 1.0, z, m[i][..n]);
      DotCommutes(m[i][..n], x);
      DotCommutes(m[i][..n], z);
    }
    assert Solves(m, y);
    assert forall i :: 0 <= i < n ==> y[i] == x[i] + 1.0 * z[i];
  }

  // ------------------------------------------------------- as the program runs

  ghost function RowsOf(m: array2<real>): Rows
    reads m
  {
    seq(m.Length0, i requires 0 <= i < m.Length0 reads m =>
      seq(m.Length1, j requires 0 <= j < m.Length1 reads m => m[i, j]))
  }

  /** The system A x = b as rows. */
  ghost function System(a: array2<real>, b: array<real>): Rows
    requires a.Length0 == a.Length1 == b.Length
    reads a, b
  {
    seq(b.Length, i requires 0 <= i < b.Length reads a, b =>
      seq(b.Length, j requires 0 <= j < b.Length reads a, b => a[i, j]) + [b[i]])
  }

  /** The row with the largest entry of column k, the first such. */
  method FindPivot(m: array2<real>, n: nat, k: nat) returns (piv: nat, maxv: real)
    requires m.Length0 == n && m.Length1 == n + 1 && k < n
    ensures k <= piv < n && maxv == Abs(m[piv, k])
    ensures forall i :: k <= i < n ==> Abs(m[i, k]) <= maxv
  {
    piv, maxv := k, Abs(m[k, k]);
    for i := k + 1 to n
      invariant k <= piv < n && maxv == Abs(m[piv, k])
      invariant forall r :: k <= r < i ==> Abs(m[r, k]) <= maxv
    {
      if Abs(m[i, k]) > maxv {
        maxv := Abs(m[i, k]);
        piv := i;
      }
    }
  }

  /** Swap from column k on; to its left both rows are zero. */
  method SwapRows(m: array2<real>, n: nat, k: nat, piv: nat)
    requires m.Length0 == n && m.Length1 == n + 1 && k < piv < n
    requires forall c :: 0 <= c < k ==> m[k, c] == 0.0 && m[piv, c] == 0.0
    modifies m
    ensures RowsOf(m) == old(RowsOf(m))[k := old(RowsOf(m))[piv]][piv := old(RowsOf(m))[k]]
  {
    for j := k to n + 1
      invariant forall c :: k <= c < j ==> m[k, c] == old(m[piv, c]) && m[piv, c] == old(m[k, c])
      invariant forall r, c :: 0 <= r < n && 0 <= c <= n && ((r != k && r != piv) || c < k || j <= c) ==>
                  m[r, c] == old(m[r, c])
    {
      var t := m[k, j];
      m[k, j] := m[piv, j];
      m[piv, j] := t;
    }
    ghost var was, now := old(RowsOf(m)), RowsOf(m);
    assert now[k] == was[piv];
    assert now[piv] == was[k];
    assert forall r :: 0 <= r < n && r != k && r != piv ==> now[r] == was[r];
  }

  /** Subtract a multiple of the pivot row so that column k becomes zero. */
  method EliminateRow(m: array2<real>, n: nat, k: nat, i: nat)
    requires m.Length0 == n && m.Length1 == n + 1 && k < i < n && m[k, k] != 0.0
    requires forall c :: 0 <= c < k ==> m[k, c] == 0.0 && m[i, c] == 0.0
    modifies m
    ensures m[i, k] == 0.0
    ensures var c := -(old(m[i, k]) / old(m[k, k]));
            RowsOf(m) == old(RowsOf(m))[i := AddScaled(old(RowsOf(m))[i], c, old(RowsOf(m))[k])]
  {
    var f := m[i, k] / m[k, k];
    m[i, k] := 0.0;
    for j := k + 1 to n + 1
      invariant m[i, k] == 0.0
      invariant forall c :: k < c < j ==> m[i, c] == old(m[i, c]) - f * old(m[k, c])
      invariant forall r, c :: 0 <= r < n && 0 <= c <= n && (r != i || c < k || j <= c) ==> m[r, c] == old(m[r, c])
    {
      m[i, j] := m[i, j] - f * m[k, j];
    }
    ghost var was, now := old(RowsOf(m)), RowsOf(m);
    ghost var sum := AddScaled(was[i], -f, was[k]);
    Quotient(old(m[i, k]), old(m[k, k]));
    forall c | 0 <= c <= n
      ensures now[i][c] == sum[c]
    {
      Minus(was[i][c], f, was[k][c]);
    }
    assert now[i] == sum;
    assert forall r :: 0 <= r < n && r != i ==> now[r] == was[r];
  }

  lemma Quotient(a: real, p: real)
    requires p != 0.0
    ensures a / p * p == a
  {}

  lemma Minus(a: real, f: real, b: real)
    ensures a - f * b == a + (-f) * b
    ensures b == 0.0 ==> a + (-f) * b == a
  {}

  /** Clear column k below the diagonal. */
  method ClearColumn(m: array2<real>, n: nat, k: nat)
    requires m.Length0 == n && m.Length1 == n + 1 && k < n && m[k, k] != 0.0
    requires Shape(RowsOf(m), n) && Echelon(RowsOf(m), n, k)
    modifies m
    ensures Shape(RowsOf(m), n) && Echelon(RowsOf(m), n, k + 1)
    ensures SameSolutions(old(RowsOf(m)), RowsOf(m), n) && Covers(old(RowsOf(m)), RowsOf(m), n, k + 1)
    ensures forall r :: 0 <= r <= k ==> RowsOf(m)[r] == old(RowsOf(m))[r]
  {
    hide AddScaled, Solves, Covers, SameSolutions;
    ghost var was := RowsOf(m);
    SameSelf(was, n);
    CoversSelf(was, n, k + 1);
    for i := k + 1 to n
      invariant Shape(RowsOf(m), n) && SameSolutions(was, RowsOf(m), n) && Covers(was, RowsOf(m), n, k + 1)
      invariant forall r :: 0 <= r <= k ==> RowsOf(m)[r] == was[r]
      invariant m[k, k] == was[k][k]
      invariant Echelon(RowsOf(m), n, k)
      invariant forall r :: k < r < i ==> m[r, k] == 0.0
    {
      ghost var before := RowsOf(m);
      ZeroColumns(m, n, k);
      EliminateRow(m, n, k, i);
      ghost var c := -(before[i][k] / before[k][k]);
      EliminateKeeps(before, n, i, k, c);
      SameTrans(was, before, RowsOf(m), n);
      EliminateCovers(before, n, i, k, c);
      RowOnly(before, RowsOf(m), n, k, i, c);
      CoversThen(was, before, RowsOf(m), n, k + 1, k + 1);
      assert forall r :: k < r < i ==> m[r, k] == RowsOf(m)[r][k] == before[r][k];
    }
  }

  lemma ZeroColumns(m: array2<real>, n: nat, k: nat)
    requires m.Length0 == n && m.Length1 == n + 1 && k < n
    requires Shape(RowsOf(m), n) && Echelon(RowsOf(m), n, k)
    ensures forall r, c :: 0 <= c < k && c < r < n ==> m[r, c] == 0.0
  {
    forall r, c | 0 <= c < k && c < r < n
      ensures m[r, c] == 0.0
    {
      assert RowsOf(m)[r][c] == 0.0;
    }
  }

  /** Elimination touches one row and keeps its zeros. */
  lemma RowOnly(before: Rows, after: Rows, n: nat, k: nat, i: nat, c: real)
    requires Shape(before, n) && Shape(after, n) && k < i < n && Echelon(before, n, k)
    requires after == before[i := AddScaled(before[i], c, before[k])]
    ensures Echelon(after, n, k)
    ensures forall r :: 0 <= r < n && r != i ==> after[r] == before[r]
  {
    forall col | 0 <= col < k
      ensures after[i][col] == 0.0
    {
      assert before[i][col] == 0.0 && before[k][col] == 0.0;
    }
  }

  /** Solve a triangular system from the last row up. */
  method BackSubstitute(m: array2<real>, n: nat, x: array<real>)
    requires m.Length0 == n && m.Length1 == n + 1 && x.Length == n
    requires Shape(RowsOf(m), n) && Echelon(RowsOf(m), n, n)
    modifies x
    ensures Solves(RowsOf(m), x[..])
  {
    hide Dot, Solves, Echelon;
    ghost var rows := RowsOf(m);
    var i := n;
    while i > 0
      invariant 0 <= i <= n
      invariant forall r :: i <= r < n ==> SolvedFrom(rows, n, r, x[..])
    {
      i := i - 1;
      ghost var was := x[..];
      var s := Residual(m, n, i, x);
      DiagonalNotZero(rows, n, i);
      assert m[i, i] == rows[i][i];
      x[i] := s / m[i, i];
      assert x[..][i + 1..] == was[i + 1..];
      SolvedAt(rows, n, i, x[..], s);
      hide SolvedFrom;
      forall r | i < r < n
        ensures SolvedFrom(rows, n, r, x[..])
      {
        assert x[..][r..] == was[r..];
        SolvedKeeps(rows, n, r, was, x[..]);
      }
    }
    AllSolved(rows, n, x[..]);
  }

  lemma DiagonalNotZero(m: Rows, n: nat, r: nat)
    requires Shape(m, n) && Echelon(m, n, n) && r < n
    ensures m[r][r] != 0.0
  {}

  /** The quotient that is stored solves its row. */
  lemma SolvedAt(m: Rows, n: nat, r: nat, x: seq<real>, s: real)
    requires Shape(m, n) && r < n && |x| == n && m[r][r] != 0.0 && x[r] == s / m[r][r]
    requires s == m[r][n] - Dot(m[r][r + 1..n], x[r + 1..])
    ensures SolvedFrom(m, n, r, x)
  {
    hide Dot;
    Quotient(s, m[r][r]);
  }

  lemma SolvedKeeps(m: Rows, n: nat, r: nat, x: seq<real>, y: seq<real>)
    requires Shape(m, n) && r < n && |x| == |y| == n && SolvedFrom(m, n, r, x) && x[r..] == y[r..]
    ensures SolvedFrom(m, n, r, y)
  {
    hide Dot;
    assert x[r] == x[r..][0] && y[r] == y[r..][0];
    assert x[r + 1..] == x[r..][1..] && y[r + 1..] == y[r..][1..];
  }

  lemma AllSolved(m: Rows, n: nat, x: seq<real>)
    requires Shape(m, n) && Echelon(m, n, n) && |x| == n
    requires forall r :: 0 <= r < n ==> SolvedFrom(m, n, r, x)
    ensures Solves(m, x)
  {
    hide Echelon, Dot;
    forall r | 0 <= r < n
      ensures RowHolds(m[r], x)
    {
      assert SolvedFrom(m, n, r, x);
      TriangularRow(m, n, r, x);
    }
  }

  /** The right side of row i less what the known unknowns contribute. */
  method Residual(m: array2<real>, n: nat, i: nat, x: array<real>) returns (s: real)
    requires m.Length0 == n && m.Length1 == n + 1 && x.Length == n && i < n
    ensures s == RowsOf(m)[i][n] - Dot(RowsOf(m)[i][i + 1..n], x[..][i + 1..])
  {
    hide Dot;
    ghost var row, v := RowsOf(m)[i], x[..];
    s := m[i, n];
    NothingYet(row, v, i + 1);
    for j := i + 1 to n
      invariant s == row[n] - Dot(row[i + 1..j], v[i + 1..j])
    {
      DotSnoc(row[i + 1..j], row[j], v[i + 1..j], v[j]);
      assert row[i + 1..j + 1] == row[i + 1..j] + [row[j]] && v[i + 1..j + 1] == v[i + 1..j] + [v[j]];
      s := s - m[i, j] * x[j];
    }
    assert v[i + 1..n] == v[i + 1..];
  }

  lemma NothingYet(u: seq<real>, v: seq<real>, k: nat)
    requires k <= |u| && k <= |v|
    ensures Dot(u[k..k], v[k..k]) == 0.0
  {}

  /** Row r of a triangular system holds, counting from its diagonal on. */
  predicate SolvedFrom(m: Rows, n: nat, r: nat, x: seq<real>)
    requires Shape(m, n) && r < n && |x| == n
  {
    m[r][r] * x[r] + Dot(m[r][r + 1..n], x[r + 1..]) == m[r][n]
  }

  /** Solve A x = b.  On success x satisfies every original equation and is
      the only vector that does; a refusal means that A itself has a column
      within 1e-15 of a combination of the columns before it. */
  method GaussSolve(a: array2<real>, b: array<real>, x: array<real>) returns (ok: bool)
    requires a.Length0 == a.Length1 == b.Length == x.Length && b != x
    modifies x
    ensures Shape(System(a, b), b.Length) && System(a, b) == old(System(a, b))
    ensures ok ==> Solves(System(a, b), x[..])
    ensures ok ==> forall y: seq<real> :: |y| == b.Length && Solves(System(a, b), y) ==> y == x[..]
    ensures !ok ==> NearSingular(System(a, b), b.Length)
  {
    hide Solves;
    var n := b.Length;
    var m := new real[n, n + 1];
    Augment(a, b, m);
    ghost var system := System(a, b);
    ok := Forward(m, n);
    if !ok {
      return;
    }
    BackSubstitute(m, n, x);
    ghost var reduced := RowsOf(m);
    forall y: seq<real> | |y| == n && Solves(system, y)
      ensures y == x[..]
    {
      OnlySolution(reduced, n, x[..], y);
    }
  }

  method Augment(a: array2<real>, b: array<real>, m: array2<real>)
    requires a.Length0 == a.Length1 == b.Length == m.Length0 && m.Length1 == b.Length + 1 && m != a
    modifies m
    ensures RowsOf(m) == System(a, b) && Shape(System(a, b), b.Length)
  {
    var n := b.Length;
    for i := 0 to n
      invariant forall r, c :: 0 <= r < i && 0 <= c < n ==> m[r, c] == a[r, c]
      invariant forall r :: 0 <= r < i ==> m[r, n] == b[r]
    {
      for j := 0 to n
        invariant forall r, c :: 0 <= r < i && 0 <= c < n ==> m[r, c] == a[r, c]
        invariant forall r :: 0 <= r < i ==> m[r, n] == b[r]
        invariant forall c :: 0 <= c < j ==> m[i, c] == a[i, c]
      {
        m[i, j] := a[i, j];
      }
      m[i, n] := b[i];
    }
    forall r | 0 <= r < n
      ensures RowsOf(m)[r] == System(a, b)[r]
    {}
  }

  /** Pivot, swap and eliminate column by column. */
  method Forward(m: array2<real>, n: nat) returns (ok: bool)
    requires m.Length0 == n && m.Length1 == n + 1 && Shape(RowsOf(m), n)
    modifies m
    ensures Shape(RowsOf(m), n)
    ensures ok ==> Echelon(RowsOf(m), n, n) && SameSolutions(old(RowsOf(m)), RowsOf(m), n)
    ensures !ok ==> NearSingular(old(RowsOf(m)), n)
  {
    hide Solves, SameSolutions, Covers, NearSingular;
    ghost var was := RowsOf(m);
    SameSelf(was, n);
    CoversSelf(was, n, 0);
    for k := 0 to n
      invariant Shape(RowsOf(m), n) && Echelon(RowsOf(m), n, k)
      invariant SameSolutions(was, RowsOf(m), n) && Covers(was, RowsOf(m), n, k)
    {
      var piv, maxv := FindPivot(m, n, k);
      if maxv < TINY {
        assert forall i :: k <= i < n ==> RowsOf(m)[i][k] == m[i, k];
        NoPivotMeans(was, RowsOf(m), n, k);
        return false;
      }
      if piv != k {
        ghost var before := RowsOf(m);
        ZeroColumns(m, n, k);
        SwapRows(m, n, k, piv);
        SwapKeeps(before, n, k, piv);
        SameTrans(was, before, RowsOf(m), n);
        SwapCovers(before, n, k, piv);
        CoversThen(was, before, RowsOf(m), n, k, k);
        assert RowsOf(m)[k][k] == before[piv][k];
        SwapEchelon(before, RowsOf(m), n, k, piv);
      }
      ghost var before := RowsOf(m);
      assert RowsOf(m)[k][k] != 0.0;
      ClearColumn(m, n, k);
      SameTrans(was, before, RowsOf(m), n);
      CoversThen(was, before, RowsOf(m), n, k, k + 1);
    }
    ok := true;
  }

  lemma SwapEchelon(before: Rows, after: Rows, n: nat, k: nat, piv: nat)
    requires Shape(before, n) && Shape(after, n) && k < piv < n && Echelon(before, n, k)
    requires after == before[k := before[piv]][piv := before[k]]
    ensures Echelon(after, n, k)
  {}
}
