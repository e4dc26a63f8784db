# Integer matrix multiplication, sequential and row-parallel

This project models `multiplyMatrices/multiplyMatrices.cpp` in Dafny. That
program builds two random integer matrices of transposed shapes and
multiplies them twice. The first multiplier is a sequential triple loop. The
second computes each output row in its own thread.

- `Matrices` (`matrices.dfy`) is the mathematical view. A matrix is a
  sequence of rows. The file defines the dot-product partial sum `Dot`, the
  reference `Product`, the precondition `ReadableOperands` under which every
  element the multipliers read exists, and lemmas about the product:
  identity, zero, the 2×2 example, bounds, and extra columns being ignored.
- `RowSchedule` (`row_schedule.dfy`) models the row-partitioned computation
  on values. The unit of work for one row, `AddRow`, writes only its own row
  and reads only that row of the result. Running the units in any order that
  covers each row exactly once gives the product.
- `MatrixOps` (`multiply_matrices.dfy`) holds the three routines as methods.
  `createMatrices`, `multiplyMatrices` and the `multiplyRow` lambda fill or
  update a two-dimensional buffer (`array2<int>`) in place with nested loops.
  `multiplyMatricesMultithreaded` calls `MultiplyRow` once per row, in spawn
  order, on one shared buffer. The loop stands in for spawning the threads
  and joining them. Both multipliers are proved to return `Product`, so they
  agree cell by cell.

The inputs are passed by `const&` in the source. Here they are sequence
values, so no routine can modify them. Each result buffer is allocated fresh
and zero-initialised, updated in place, and returned by value as a sequence
of rows.

Two things the code does not check:
- It never compares the column count of matrix1 with `matrix2.size()`, and
  it reads `matrix2[0]` without a guard. `ReadableOperands` is the exact
  precondition under which every element read is in bounds.
  `ExtraColumnsIgnored` shows that when matrix1 is wider than matrix2 is
  tall, its extra columns are silently dropped.
- `createMatrices` does not check the sign of its arguments (see
  `## Left out`).

## Model

| member | source | states |
|---|---|---|
| `MatrixOps.CreateMatrices` | multiplyMatrices/multiplyMatrices.cpp:8-24 | matrix1 is rows×cols and matrix2 is cols×rows; cell (i, j) of matrix1 holds result 2(i·cols+j) of `dis(gen)` and cell (j, i) of matrix2 the next one; every cell of both lies in [1, 10] |
| `MatrixOps.DrawPositionsDistinct` | multiplyMatrices/multiplyMatrices.cpp:16-21 | different cells never take the same result of `dis(gen)`, and no value goes to both matrices, so each draw is stored at most once |
| `MatrixOps.DrawPositionsCovered` | multiplyMatrices/multiplyMatrices.cpp:16-21 | each of the first 2·rows·cols draws is stored: even position p in matrix1[i][j], the odd one after it in matrix2[j][i], with (i, j) = (⌊p/2⌋ div cols, ⌊p/2⌋ mod cols); together with `DrawPositionsDistinct`, each draw is stored exactly once |
| `MatrixOps.MultiplyMatrices` | multiplyMatrices/multiplyMatrices.cpp:27-49 | result has matrix1.size() rows and matrix2[0].size() columns; cell (i, j) is the sum over k < matrix2.size() of matrix1[i][k]·matrix2[k][j]; the result equals `Product`; the loop invariants keep every unfinished cell at 0 |
| `MatrixOps.MultiplyRow` | multiplyMatrices/multiplyMatrices.cpp:61-67 | frame condition: each cell of row `row` gains exactly its dot product; every other row of the shared result is unchanged; the new buffer is `AddRow` of the old one |
| `MatrixOps.MultiplyMatricesMultithreaded` | multiplyMatrices/multiplyMatrices.cpp:52-83 | after one `MultiplyRow` per row on a zero-initialised buffer, the result has the product's shape and equals `Product` |
| `MatrixOps.CompareMultipliers` | multiplyMatrices/multiplyMatrices.cpp:57-76 | the row-parallel result equals the sequential one, and two sequential runs on the same inputs give identical results |
| `MatrixOps.CreateAndMultiply` | multiplyMatrices/multiplyMatrices.cpp:89-119 | for generated rows×cols and cols×rows operands (cols > 0), both multipliers give the same rows×rows result, and every cell lies in [cols, 100·cols] |
| `MatrixOps.Example` | multiplyMatrices/multiplyMatrices.cpp:27-83 | [[1,2],[3,4]] times [[5,6],[7,8]] is [[19,22],[43,50]] from both multipliers |
| `Matrices.ProductShape` | multiplyMatrices/multiplyMatrices.cpp:28-32 | the product has matrix1.size() rows and matrix2[0].size() columns, and each cell is a full-length dot product whose operands exist |
| `Matrices.DotIdentity` | multiplyMatrices/multiplyMatrices.cpp:38-40 | a partial dot product with column j of the identity is a[i][j] once k has passed j, and 0 before that |
| `Matrices.ProductIdentity` | multiplyMatrices/multiplyMatrices.cpp:27-49 | for an r×c matrix A with c > 0, A times the c×c identity is A |
| `Matrices.DotZero` | multiplyMatrices/multiplyMatrices.cpp:38-40 | a dot product with a zero column is 0 |
| `Matrices.ProductZero` | multiplyMatrices/multiplyMatrices.cpp:27-49 | A times an all-zero matrix is the all-zero matrix of the result's shape |
| `Matrices.DotCongruent` | multiplyMatrices/multiplyMatrices.cpp:38-40 | a dot product over n terms depends only on the first n entries of the left row |
| `Matrices.ExtraColumnsIgnored` | multiplyMatrices/multiplyMatrices.cpp:28-30 | with no inner-dimension check, the columns of matrix1 beyond matrix2.size() do not affect the result |
| `Matrices.DotBounds` | multiplyMatrices/multiplyMatrices.cpp:39 | if every factor lies in [1, 10], a dot product of n terms lies in [n, 100·n] |
| `Matrices.ProductExample` | multiplyMatrices/multiplyMatrices.cpp:36-42 | the product of [[1,2],[3,4]] and [[5,6],[7,8]] is [[19,22],[43,50]] |
| `RowSchedule.AddRow` | multiplyMatrices/multiplyMatrices.cpp:61-67 | one row's unit of work keeps the result a rows×cols matrix |
| `RowSchedule.SpawnOrder` | multiplyMatrices/multiplyMatrices.cpp:70-72 | the spawn loop starts one thread for every row below rows, and none twice |
| `RowSchedule.RunRows` | multiplyMatrices/multiplyMatrices.cpp:69-76 | running any list of row units keeps the result a rows×cols matrix |
| `RowSchedule.AddRowDisjoint` | multiplyMatrices/multiplyMatrices.cpp:61-67 | a row unit leaves every other row unchanged, and what it writes depends on the result only through its own row |
| `RowSchedule.AddRowsCommute` | multiplyMatrices/multiplyMatrices.cpp:61-67 | the units of two different rows commute |
| `RowSchedule.RunRowsAt` | multiplyMatrices/multiplyMatrices.cpp:69-76 | after a schedule of distinct rows, a scheduled row holds what its unit computes from that row's starting value, and an unscheduled row is unchanged |
| `RowSchedule.AnyOrderGivesProduct` | multiplyMatrices/multiplyMatrices.cpp:69-76 | whatever order the row units finish in, running each row exactly once on a zero result gives the product |
| `RowSchedule.SpawnOrderGivesProduct` | multiplyMatrices/multiplyMatrices.cpp:70-76 | running the row units in spawn order on a zero result gives the product |

## Left out

- Timing: the `std::chrono` measurements and the printed elapsed seconds (lines 34, 44-46, 59, 78-80) are wall-clock and floating-point output.
- Threads: `std::thread` creation and `join` (lines 69-76) are not modelled. The units run one after the other in spawn order. Concurrency is covered by two facts. The `MultiplyRow` frame condition says each unit writes only its own row. `AnyOrderGivesProduct` says every completion order gives the same result. Interleavings finer than one whole row are not modelled.
- Randomness: `std::random_device`, `std::mt19937` and `uniform_int_distribution` (lines 12-14) are replaced by a parameter `draw`. `draw(n)` is the n-th value that `dis(gen)` returns, and every value is assumed to lie in [1, 10]. Uniformity and seeding are not modelled.
- `main` (lines 85-130) is a fixed 3×3 driver that prints. Only its composition of the routines is modelled (`CreateAndMultiply`). The printing is not.
- MatrixOps.MultiplyMatrices: does not model 32-bit `int` overflow. Arithmetic is unbounded. Signed overflow is undefined behaviour in C++, so no wrap-around is modelled. For generated operands, `CreateAndMultiply` bounds every cell by 100·cols, so no cell overflows while 100·cols ≤ 2147483647.
- MatrixOps.MultiplyMatricesMultithreaded: same unbounded-arithmetic deviation as `MultiplyMatrices`.
- MatrixOps.CreateMatrices: takes `nat` dimensions. A negative `int` passed to the `std::vector` constructors in the source fails inside the library, and that failure is not modelled.
