/** The mathematical view of the integer matrices that multiplyMatrices.cpp
    multiplies. A matrix is a sequence of rows, as a
    std::vector<std::vector<int>> is; nothing forces the rows to have the
    same length, so the predicates below say exactly which shapes the
    multipliers rely on. Integers are unbounded. */
module Matrices {

  /** m has exactly r rows of exactly c entries each. */
  predicate IsMatrix(m: seq<seq<int>>, r: nat, c: nat) {
    |m| == r && forall i :: 0 <= i < r ==> |m[i]| == c
  }

  /** What both multipliers need of their operands for every element they
      read to exist. matrix2[0] is read unconditionally (to find the number
      of columns); matrix1[i][k] and matrix2[k][j] are read only when both
      the row loop and the column loop run at least once, and then for every
      i < rows, k < |matrix2| and j < |matrix2[0]|. */
  predicate ReadableOperands(m1: seq<seq<int>>, m2: seq<seq<int>>) {
    |m2| > 0 &&
    (|m1| > 0 && |m2[0]| > 0 ==>
       (forall i :: 0 <= i < |m1| ==> |m1[i]| >= |m2|) &&
       (forall k :: 0 <= k < |m2| ==> |m2[k]| >= |m2[0]|))
  }

  /** The first n terms of row i of m1 and column j of m2 exist. */
  predicate DotDefined(m1: seq<seq<int>>, m2: seq<seq<int>>, i: nat, j: nat, n: nat) {
    i < |m1| && n <= |m1[i]| && n <= |m2| && forall k :: 0 <= k < n ==> j < |m2[k]|
  }

  /** The sum of m1[i][k] * m2[k][j] over k < n. */
  function Dot(m1: seq<seq<int>>, m2: seq<seq<int>>, i: nat, j: nat, n: nat): int
    requires DotDefined(m1, m2, i, j, n)
    decreases n
  {
    if n == 0 then 0 else Dot(m1, m2, i, j, n - 1) + m1[i][n - 1] * m2[n - 1][j]
  }

  /** The matrix product as the multipliers define it: |m1| rows, |m2[0]|
      columns, and each cell the dot product over the |m2| inner indices. */
  function Product(m1: seq<seq<int>>, m2: seq<seq<int>>): seq<seq<int>>
    requires ReadableOperands(m1, m2)
  {
    seq(|m1|, i requires 0 <= i < |m1| =>
      seq(|m2[0]|, j requires 0 <= j < |m2[0]| => Dot(m1, m2, i, j, |m2|)))
  }

  /** The r-by-c matrix of zeros. */
  function Zero(r: nat, c: nat): seq<seq<int>> {
    seq(r, _ => seq(c, _ => 0))
  }

  /** The n-by-n identity matrix. */
  function Identity(n: nat): seq<seq<int>> {
    seq(n, i => seq(n, j => if i == j then 1 else 0))
  }

  /** Matrices of the same shape with the same entries are equal. */
  lemma SameEntries(a: seq<seq<int>>, b: seq<seq<int>>, r: nat, c: nat)
    requires IsMatrix(a, r, c) && IsMatrix(b, r, c)
    requires forall i, j :: 0 <= i < r && 0 <= j < c ==> a[i][j] == b[i][j]
    ensures a == b
  {
    forall i | 0 <= i < r ensures a[i] == b[i] {
      assert forall j :: 0 <= j < c ==> a[i][j] == b[i][j];
    }
  }

  /** Whenever the multipliers may run, Product is a |m1|-by-|m2[0]| matrix
      of dot products over all |m2| inner indices. */
  lemma ProductShape(m1: seq<seq<int>>, m2: seq<seq<int>>)
    requires ReadableOperands(m1, m2)
    ensures IsMatrix(Product(m1, m2), |m1|, |m2[0]|)
    ensures forall i, j :: 0 <= i < |m1| && 0 <= j < |m2[0]| ==>
              DotDefined(m1, m2, i, j, |m2|) && Product(m1, m2)[i][j] == Dot(m1, m2, i, j, |m2|)
  {
  }

  /** A partial dot product with a column of the identity picks out one
      entry of the row, or nothing if that entry lies beyond the prefix. */
  lemma {:induction false} DotIdentity(a: seq<seq<int>>, c: nat, i: nat, j: nat, n: nat)
    requires i < |a| && |a[i]| == c && j < c && n <= c
    ensures DotDefined(a, Identity(c), i, j, n)
    ensures Dot(a, Identity(c), i, j, n) == if j < n then a[i][j] else 0
  {
    if n > 0 {
      DotIdentity(a, c, i, j, n - 1);
    }
  }

  /** Multiplying by the identity on the right gives back the matrix. */
  lemma ProductIdentity(a: seq<seq<int>>, r: nat, c: nat)
    requires c > 0 && IsMatrix(a, r, c)
    ensures ReadableOperands(a, Identity(c))
    ensures Product(a, Identity(c)) == a
  {
    var p := Product(a, Identity(c));
    forall i, j | 0 <= i < r && 0 <= j < c ensures p[i][j] == a[i][j] {
      DotIdentity(a, c, i, j, c);
    }
    SameEntries(p, a, r, c);
  }

  /** A dot product against a column of zeros is zero. */
  lemma {:induction false} DotZero(m1: seq<seq<int>>, m2: seq<seq<int>>, i: nat, j: nat, n: nat)
    requires DotDefined(m1, m2, i, j, n)
    requires forall k :: 0 <= k < n ==> m2[k][j] == 0
    ensures Dot(m1, m2, i, j, n) == 0
  {
    if n > 0 {
      DotZero(m1, m2, i, j, n - 1);
    }
  }

  /** Multiplying by an all-zero matrix gives the all-zero matrix of the
      product's shape. */
  lemma ProductZero(a: seq<seq<int>>, b: seq<seq<int>>)
    requires ReadableOperands(a, b)
    requires forall k, j :: 0 <= k < |b| && 0 <= j < |b[k]| ==> b[k][j] == 0
    ensures Product(a, b) == Zero(|a|, |b[0]|)
  {
    var p := Product(a, b);
    forall i, j | 0 <= i < |a| && 0 <= j < |b[0]| ensures p[i][j] == 0 {
      DotZero(a, b, i, j, |b|);
    }
    SameEntries(p, Zero(|a|, |b[0]|), |a|, |b[0]|);
  }

  /** A dot product depends only on the first n entries of the row of the
      left operand. */
  lemma {:induction false} DotCongruent(a: seq<seq<int>>, a': seq<seq<int>>, b: seq<seq<int>>, i: nat, i': nat, j: nat, n: nat)
    requires DotDefined(a, b, i, j, n) && DotDefined(a', b, i', j, n)
    requires forall k :: 0 <= k < n ==> a[i][k] == a'[i'][k]
    ensures Dot(a, b, i, j, n) == Dot(a', b, i', j, n)
  {
    if n > 0 {
      DotCongruent(a, a', b, i, i', j, n - 1);
    }
  }

  /** Every row of a cut down to its first n entries. */
  function Trim(a: seq<seq<int>>, n: nat): seq<seq<int>>
    requires forall i :: 0 <= i < |a| ==> |a[i]| >= n
  {
    seq(|a|, i requires 0 <= i < |a| => a[i][..n])
  }

  /** The multipliers never compare the column count of matrix1 with the
      row count of matrix2: when matrix1 is wider, its extra columns are
      silently ignored and the result is the product of its first |m2|
      columns with m2. */
  lemma ExtraColumnsIgnored(a: seq<seq<int>>, b: seq<seq<int>>)
    requires ReadableOperands(a, b)
    requires forall i :: 0 <= i < |a| ==> |a[i]| >= |b|
    ensures ReadableOperands(Trim(a, |b|), b)
    ensures Product(Trim(a, |b|), b) == Product(a, b)
  {
    var t := Trim(a, |b|);
    var p, q := Product(t, b), Product(a, b);
    forall i, j | 0 <= i < |a| && 0 <= j < |b[0]| ensures p[i][j] == q[i][j] {
      DotCongruent(t, a, b, i, i, j, |b|);
    }
    SameEntries(p, q, |a|, |b[0]|);
  }

  /** If every factor lies in [1, 10], a dot product of n terms lies in
      [n, 100 * n]. */
  lemma {:induction false} DotBounds(m1: seq<seq<int>>, m2: seq<seq<int>>, i: nat, j: nat, n: nat)
    requires DotDefined(m1, m2, i, j, n)
    requires forall k :: 0 <= k < n ==> 1 <= m1[i][k] <= 10 && 1 <= m2[k][j] <= 10
    ensures n <= Dot(m1, m2, i, j, n) <= 100 * n
  {
    if n > 0 {
      DotBounds(m1, m2, i, j, n - 1);
      var x, y := m1[i][n - 1], m2[n - 1][j];
      assert 1 <= x * y <= 100 by {
        assert x * y <= 10 * y <= 100;
        assert x * y >= y >= 1;
      }
    }
  }

  /** The two-by-two example product: [[1,2],[3,4]] times [[5,6],[7,8]]. */
  lemma ProductExample()
    ensures ReadableOperands([[1, 2], [3, 4]], [[5, 6], [7, 8]])
    ensures Product([[1, 2], [3, 4]], [[5, 6], [7, 8]]) == [[19, 22], [43, 50]]
  {
    var a, b := [[1, 2], [3, 4]], [[5, 6], [7, 8]];
    var p := Product(a, b);
    assert p[0][0] == 19 && p[0][1] == 22 && p[1][0] == 43 && p[1][1] == 50;
    SameEntries(p, [[19, 22], [43, 50]], 2, 2);
  }
}
