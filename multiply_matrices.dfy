/** The three routines of multiplyMatrices.cpp. The input matrices are
    passed by const reference there and become sequence values here, so no
    routine can change them; each result is a fresh rows-by-cols buffer
    that the loops update in place and that is returned by value. */
module MatrixOps {
  import opened Matrices
  import opened RowSchedule

  /** The rows of a two-dimensional buffer, read as a matrix value. */
  function Contents(a: array2<int>): seq<seq<int>>
    reads a
  {
    seq(a.Length0, i requires 0 <= i < a.Length0 reads a =>
      seq(a.Length1, j requires 0 <= j < a.Length1 reads a => a[i, j]))
  }

  /** Position, among the results of dis(gen), of the value stored into
      matrix1[i][j]; the value stored into matrix2[j][i] is the next one. */
  function DrawPos(i: nat, j: nat, cols: nat): nat {
    2 * (i * cols + j)
  }

  /** Distinct cells of matrix1 take distinct draws, and no draw for
      matrix1 is also a draw for matrix2: each result of dis(gen) is
      stored at most once. */
  lemma DrawPositionsDistinct(i: nat, j: nat, i': nat, j': nat, cols: nat)
    requires j < cols && j' < cols && (i, j) != (i', j')
    ensures DrawPos(i, j, cols) != DrawPos(i', j', cols)
    ensures DrawPos(i, j, cols) != DrawPos(i', j', cols) + 1
  {
    if i < i' {
      assert i * cols + j < (i + 1) * cols <= i' * cols;
    } else if i' < i {
      assert i' * cols + j' < (i' + 1) * cols <= i * cols;
    }
  }

  /** Each of the first 2 * rows * cols results of dis(gen) is stored:
      an even position p goes to matrix1[i][j] and the odd position after
      it to matrix2[j][i], for the cell (i, j) = ((p / 2) / cols,
      (p / 2) % cols). With DrawPositionsDistinct, every one of them is
      stored exactly once. */
  lemma DrawPositionsCovered(rows: nat, cols: nat, p: nat)
    requires p < 2 * (rows * cols)
    ensures cols > 0
    ensures p / 2 / cols < rows && p / 2 % cols < cols
    ensures p == DrawPos(p / 2 / cols, p / 2 % cols, cols) + p % 2
  {
  }

  /** createMatrices(rows, cols): matrix1 is rows-by-cols and matrix2 is
      cols-by-rows. The loop visits each (i, j) once and takes two values
      from dis(gen), the first for matrix1[i][j] and the second for
      matrix2[j][i]; draw(n) is the n-th value that dis(gen) returns. */
  method CreateMatrices(rows: nat, cols: nat, draw: nat -> int) returns (m1: seq<seq<int>>, m2: seq<seq<int>>)
    requires forall n :: 1 <= draw(n) <= 10
    ensures IsMatrix(m1, rows, cols) && IsMatrix(m2, cols, rows)
    ensures forall i, j :: 0 <= i < rows && 0 <= j < cols ==>
              m1[i][j] == draw(DrawPos(i, j, cols)) && m2[j][i] == draw(DrawPos(i, j, cols) + 1)
    ensures forall i, j :: 0 <= i < rows && 0 <= j < cols ==> 1 <= m1[i][j] <= 10
    ensures forall j, i :: 0 <= j < cols && 0 <= i < rows ==> 1 <= m2[j][i] <= 10
  {
    var a1 := new int[rows, cols]((_, _) => 0);
    var a2 := new int[cols, rows]((_, _) => 0);
    for i := 0 to rows
      invariant forall r, c :: 0 <= r < rows && 0 <= c < cols ==>
                  a1[r, c] == (if r < i then draw(DrawPos(r, c, cols)) else 0)
      invariant forall r, c :: 0 <= r < rows && 0 <= c < cols ==>
                  a2[c, r] == (if r < i then draw(DrawPos(r, c, cols) + 1) else 0)
    {
      for j := 0 to cols
        invariant forall r, c :: 0 <= r < rows && 0 <= c < cols ==>
                    a1[r, c] == (if r < i || (r == i && c < j) then draw(DrawPos(r, c, cols)) else 0)
        invariant forall r, c :: 0 <= r < rows && 0 <= c < cols ==>
                    a2[c, r] == (if r < i || (r == i && c < j) then draw(DrawPos(r, c, cols) + 1) else 0)
      {
        a1[i, j] := draw(DrawPos(i, j, cols));
        a2[j, i] := draw(DrawPos(i, j, cols) + 1);
      }
    }
    m1 := Contents(a1);
    m2 := Contents(a2);
  }

  /** multiplyMatrices: the sequential triple loop over a zero-initialised
      |m1|-by-|m2[0]| buffer; the result is the product. */
  method MultiplyMatrices(m1: seq<seq<int>>, m2: seq<seq<int>>) returns (result: seq<seq<int>>)
    requires ReadableOperands(m1, m2)
    ensures IsMatrix(result, |m1|, |m2[0]|)
    ensures forall i, j :: 0 <= i < |m1| && 0 <= j < |m2[0]| ==>
              DotDefined(m1, m2, i, j, |m2|) && result[i][j] == Dot(m1, m2, i, j, |m2|)
    ensures result == Product(m1, m2)
  {
    var rows, cols, common := |m1|, |m2[0]|, |m2|;
    var buf := new int[rows, cols]((_, _) => 0);
    for i := 0 to rows
      invariant forall r, c :: 0 <= r < rows && 0 <= c < cols ==>
                  buf[r, c] == (if r < i then Dot(m1, m2, r, c, common) else 0)
    {
      for j := 0 to cols
        invariant forall r, c :: 0 <= r < rows && 0 <= c < cols ==>
                    buf[r, c] == (if r < i || (r == i && c < j) then Dot(m1, m2, r, c, common) else 0)
      {
        for k := 0 to common
          invariant buf[i, j] == Dot(m1, m2, i, j, k)
          invariant forall r, c :: 0 <= r < rows && 0 <= c < cols && (r, c) != (i, j) ==>
                      buf[r, c] == (if r < i || (r == i && c < j) then Dot(m1, m2, r, c, common) else 0)
        {
          buf[i, j] := buf[i, j] + m1[i][k] * m2[k][j];
        }
      }
    }
    result := Contents(buf);
    ProductShape(m1, m2);
    SameEntries(result, Product(m1, m2), rows, cols);
  }

  /** The multiplyRow lambda: adds the dot products of row `row` into that
      row of the shared result. It writes no other row, and what it writes
      depends only on the inputs and the old contents of its own row, which
      is what lets one thread per row run without locking. */
  method MultiplyRow(m1: seq<seq<int>>, m2: seq<seq<int>>, result: array2<int>, row: nat)
    requires ReadableOperands(m1, m2)
    requires result.Length0 == |m1| && result.Length1 == |m2[0]| && row < |m1|
    modifies result
    ensures forall r, c :: 0 <= r < result.Length0 && 0 <= c < result.Length1 ==>
              result[r, c] == if r == row then old(result[r, c]) + Dot(m1, m2, r, c, |m2|) else old(result[r, c])
    ensures Contents(result) == AddRow(old(Contents(result)), m1, m2, row)
  {
    var cols, common := |m2[0]|, |m2|;
    for j := 0 to cols
      invariant forall r, c :: 0 <= r < result.Length0 && 0 <= c < cols ==>
                  result[r, c] == if r == row && c < j then old(result[r, c]) + Dot(m1, m2, r, c, common) else old(result[r, c])
    {
      for k := 0 to common
        invariant result[row, j] == old(result[row, j]) + Dot(m1, m2, row, j, k)
        invariant forall r, c :: 0 <= r < result.Length0 && 0 <= c < cols && (r, c) != (row, j) ==>
                    result[r, c] == if r == row && c < j then old(result[r, c]) + Dot(m1, m2, r, c, common) else old(result[r, c])
      {
        result[row, j] := result[row, j] + m1[row][k] * m2[k][j];
      }
    }
    SameEntries(Contents(result), AddRow(old(Contents(result)), m1, m2, row), |m1|, cols);
  }

  /** multiplyMatricesMultithreaded: one multiplyRow per row of a
      zero-initialised buffer, run here one after the other in spawn order;
      after the last one (the join) the result is the product. */
  method MultiplyMatricesMultithreaded(m1: seq<seq<int>>, m2: seq<seq<int>>) returns (result: seq<seq<int>>)
    requires ReadableOperands(m1, m2)
    ensures IsMatrix(result, |m1|, |m2[0]|)
    ensures result == Product(m1, m2)
  {
    var rows, cols := |m1|, |m2[0]|;
    var buf := new int[rows, cols]((_, _) => 0);
    SameEntries(Contents(buf), Zero(rows, cols), rows, cols);
    for i := 0 to rows
      invariant Contents(buf) == RunRows(Zero(rows, cols), m1, m2, SpawnOrder(i))
    {
      MultiplyRow(m1, m2, buf, i);
      assert SpawnOrder(i + 1)[..i] == SpawnOrder(i);
    }
    SpawnOrderGivesProduct(m1, m2);
    result := Contents(buf);
  }

  /** The two multipliers applied to the same operands, the sequential one
      twice: all three results agree. */
  method CompareMultipliers(m1: seq<seq<int>>, m2: seq<seq<int>>) returns (single: seq<seq<int>>, again: seq<seq<int>>, multi: seq<seq<int>>)
    requires ReadableOperands(m1, m2)
    ensures single == again == multi
  {
    single := MultiplyMatrices(m1, m2);
    again := MultiplyMatrices(m1, m2);
    multi := MultiplyMatricesMultithreaded(m1, m2);
  }

  /** Generating the operands with createMatrices(rows, cols) and multiplying
      them: a rows-by-rows result, the same from both multipliers, whose
      every cell lies in [cols, 100 * cols]. */
  method CreateAndMultiply(rows: nat, cols: nat, draw: nat -> int) returns (single: seq<seq<int>>, multi: seq<seq<int>>)
    requires cols > 0
    requires forall n :: 1 <= draw(n) <= 10
    ensures IsMatrix(single, rows, rows) && single == multi
    ensures forall i, j :: 0 <= i < rows && 0 <= j < rows ==> cols <= single[i][j] <= 100 * cols
  {
    var m1, m2 := CreateMatrices(rows, cols, draw);
    if rows > 0 {
      assert |m2[0]| == rows;
    }
    single := MultiplyMatrices(m1, m2);
    multi := MultiplyMatricesMultithreaded(m1, m2);
    forall i, j | 0 <= i < rows && 0 <= j < rows ensures cols <= single[i][j] <= 100 * cols {
      DotBounds(m1, m2, i, j, cols);
    }
  }

  /** The two-by-two example: both multipliers give [[19,22],[43,50]]. */
  method Example() returns (single: seq<seq<int>>, multi: seq<seq<int>>)
    ensures single == multi == [[19, 22], [43, 50]]
  {
    ProductExample();
    single := MultiplyMatrices([[1, 2], [3, 4]], [[5, 6], [7, 8]]);
    multi := MultiplyMatricesMultithreaded([[1, 2], [3, 4]], [[5, 6], [7, 8]]);
  }
}
