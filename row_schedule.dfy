/** The row-partitioned multiplication on values: one unit of work per
    output row, each adding the dot products of its own row into the shared
    result and touching nothing else. The units are applied one after the
    other in an arbitrary order; the lemmas show that, because their writes
    are disjoint, every order that runs each row exactly once yields the
    product. */
module RowSchedule {
  import opened Matrices

  /** The result after the unit of work for row `row`: every cell of that
      row has had its dot product over all |m2| inner indices added. */
  function AddRow(M: seq<seq<int>>, m1: seq<seq<int>>, m2: seq<seq<int>>, row: nat): (M': seq<seq<int>>)
    requires ReadableOperands(m1, m2) && IsMatrix(M, |m1|, |m2[0]|) && row < |m1|
    ensures IsMatrix(M', |m1|, |m2[0]|)
  {
    M[row := seq(|m2[0]|, j requires 0 <= j < |m2[0]| => M[row][j] + Dot(m1, m2, row, j, |m2|))]
  }

  /** o lists row indices below n, none twice. */
  predicate DistinctRows(o: seq<nat>, n: nat) {
    (forall x :: 0 <= x < |o| ==> o[x] < n) &&
    (forall x, y :: 0 <= x < y < |o| ==> o[x] != o[y])
  }

  /** The order in which the threads are spawned: 0, 1, ..., n - 1. It
      starts one thread per row and none twice. */
  function SpawnOrder(n: nat): (o: seq<nat>)
    ensures DistinctRows(o, n) && forall r :: 0 <= r < n ==> r in o
  {
    var o := seq(n, x => x);
    assert forall r :: 0 <= r < n ==> o[r] == r && r in o;
    o
  }

  /** The result after the units of work for the rows of o have run, in
      that order, starting from M. */
  function RunRows(M: seq<seq<int>>, m1: seq<seq<int>>, m2: seq<seq<int>>, o: seq<nat>): (M': seq<seq<int>>)
    requires ReadableOperands(m1, m2) && IsMatrix(M, |m1|, |m2[0]|)
    requires forall x :: 0 <= x < |o| ==> o[x] < |m1|
    ensures IsMatrix(M', |m1|, |m2[0]|)
    decreases |o|
  {
    if o == [] then M
    else AddRow(RunRows(M, m1, m2, o[..|o| - 1]), m1, m2, o[|o| - 1])
  }

  /** The unit for one row leaves every other row alone, and what it writes
      depends on the result only through its own row. */
  lemma AddRowDisjoint(M: seq<seq<int>>, N: seq<seq<int>>, m1: seq<seq<int>>, m2: seq<seq<int>>, row: nat)
    requires ReadableOperands(m1, m2) && IsMatrix(M, |m1|, |m2[0]|) && IsMatrix(N, |m1|, |m2[0]|)
    requires row < |m1| && M[row] == N[row]
    ensures forall r :: 0 <= r < |m1| && r != row ==> AddRow(M, m1, m2, row)[r] == M[r]
    ensures AddRow(M, m1, m2, row)[row] == AddRow(N, m1, m2, row)[row]
  {
  }

  /** The units for two different rows commute. */
  lemma AddRowsCommute(M: seq<seq<int>>, m1: seq<seq<int>>, m2: seq<seq<int>>, r1: nat, r2: nat)
    requires ReadableOperands(m1, m2) && IsMatrix(M, |m1|, |m2[0]|)
    requires r1 < |m1| && r2 < |m1| && r1 != r2
    ensures AddRow(AddRow(M, m1, m2, r1), m1, m2, r2) == AddRow(AddRow(M, m1, m2, r2), m1, m2, r1)
  {
  }

  /** After a schedule of distinct rows, a row that was scheduled holds
      exactly what its unit computes from the starting value of that row,
      and a row that was not is unchanged. */
  lemma {:induction false} RunRowsAt(M: seq<seq<int>>, m1: seq<seq<int>>, m2: seq<seq<int>>, o: seq<nat>, r: nat)
    requires ReadableOperands(m1, m2) && IsMatrix(M, |m1|, |m2[0]|)
    requires DistinctRows(o, |m1|) && r < |m1|
    ensures RunRows(M, m1, m2, o)[r] == if r in o then AddRow(M, m1, m2, r)[r] else M[r]
  {
    if o != [] {
      var init, last := o[..|o| - 1], o[|o| - 1];
      assert DistinctRows(init, |m1|);
      assert r in o <==> r in init || r == last;
      RunRowsAt(M, m1, m2, init, r);
      if r == last {
        assert last !in init;
        AddRowDisjoint(RunRows(M, m1, m2, init), M, m1, m2, r);
      }
    }
  }

  /** Whatever order the per-row units complete in, running each row
      exactly once on a zero-initialised result yields the product. */
  lemma AnyOrderGivesProduct(m1: seq<seq<int>>, m2: seq<seq<int>>, o: seq<nat>)
    requires ReadableOperands(m1, m2)
    requires DistinctRows(o, |m1|) && forall r :: 0 <= r < |m1| ==> r in o
    ensures RunRows(Zero(|m1|, |m2[0]|), m1, m2, o) == Product(m1, m2)
  {
    var z := Zero(|m1|, |m2[0]|);
    var res, p := RunRows(z, m1, m2, o), Product(m1, m2);
    forall i, j | 0 <= i < |m1| && 0 <= j < |m2[0]| ensures res[i][j] == p[i][j] {
      RunRowsAt(z, m1, m2, o, i);
    }
    SameEntries(res, p, |m1|, |m2[0]|);
  }

  /** In particular, the spawn order 0, 1, ..., rows - 1 yields it. */
  lemma SpawnOrderGivesProduct(m1: seq<seq<int>>, m2: seq<seq<int>>)
    requires ReadableOperands(m1, m2)
    ensures RunRows(Zero(|m1|, |m2[0]|), m1, m2, SpawnOrder(|m1|)) == Product(m1, m2)
  {
    AnyOrderGivesProduct(m1, m2, SpawnOrder(|m1|));
  }
}
