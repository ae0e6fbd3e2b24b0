# Metamorphic aggregate oracle for SQLite, modelled in Dafny

This project models SQLancer's metamorphic aggregate test oracle for SQLite
(`SQLite3MetamorphicAggregateTester`). One check does the following:

- It picks an aggregate `f(x)` with `f` one of MIN, MAX, SUM and TOTAL.
- It builds the original query `SELECT f(x) FROM tables`, with an ORDER BY or without one.
- It draws a random predicate `P`. From it, it builds three legs `SELECT f(x) as aggr FROM tables WHERE c`, one for each `c` in `P`, `NOT P` and `P ISNULL`. Any leg may also get a GROUP BY or an ORDER BY.
- It joins the three legs with `UNION ALL` and re-aggregates them with `SELECT f(aggr) FROM (...)`.
- It runs both queries and compares their first cells.

If either execution fails, the check ends with `IgnoreMeException`. If the answers differ, it raises `AssertionError`.

The model has these parts:

- **Ast** (`ast.dfy`): the statement tree the oracle builds (`Expr`, `Select`), the two kinds of query text (`Query`) and their rendering. The statement renderer is a parameter.
- **Logic** (`logic.dfy`): SQLite's three-valued logic for `NOT`, `ISNULL` and WHERE. It also holds the `Database` that gives the rows of a FROM list, the value of an opaque expression on a row, and the engine's ORDER BY order.
- **Aggregates** (`aggregates.dfy`): MIN, MAX, SUM and TOTAL with NULL inputs ignored, in exact integer arithmetic. The module proves that the order of inputs does not matter and that re-aggregating per-group results gives the same value.
- **Semantics** (`semantics.dfy`): what an aggregate statement returns, covering WHERE, GROUP BY, ORDER BY and UNION ALL with outer re-aggregation.
- **Oracle** (`oracle.dfy`): the original and partitioned queries and the soundness theorem. It also holds the Java-level outcome decision (`Decide`, `Verdict`) and the class `MetamorphicAggregateTester`. Its `Check` method builds both queries step by step, executes them through an engine parameter and returns an `Outcome`: `Pass`, `Bug`, `Ignore` or `NullDeref`.

The main results are these:

- `PartitionedQueryAgrees`: on an engine that evaluates the queries as this model defines them, both queries return exactly one row. That row holds `f` over the aggregated expression on every row of the FROM list, for every predicate, GROUP BY and ORDER BY choice.
- `SoundEngineAlwaysPasses`: such an engine never makes `Check` report a bug.

Two properties of the code in `check()` shape the outcome model:

- The comparison in `check()` is not symmetric. A non-null first answer against a null second one throws a `NullPointerException` from `contentEquals(null)` (`NullDeref`). A null first answer against a non-null second one goes to `isEqualDouble`. The model does not claim symmetry.
- Every exception during either execution ends the check with `IgnoreMeException`, whether or not the error is in the expected-error list.

## Model

| member | source | states |
|---|---|---|
| `Ast.RenderThreeLegs` | src/sqlancer/sqlite3/queries/SQLite3MetamorphicAggregateTester.java:68-71 | the partitioned text is `"SELECT " + f + "(aggr) FROM ("`, then the three rendered legs in order separated by `" UNION ALL "`, then `")"` |
| `Ast.FuncNameInjective` | src/sqlancer/sqlite3/queries/SQLite3MetamorphicAggregateTester.java:48-50 | the function name written into the outer query identifies which of MIN, MAX, SUM and TOTAL was drawn |
| `Logic.NotNegates` | src/sqlancer/sqlite3/queries/SQLite3MetamorphicAggregateTester.java:61 | `NOT P` swaps TRUE and FALSE and keeps UNKNOWN (NULL) |
| `Logic.IsNullDecides` | src/sqlancer/sqlite3/queries/SQLite3MetamorphicAggregateTester.java:62-63 | `P ISNULL` is never UNKNOWN and is TRUE exactly where `P` is UNKNOWN |
| `Logic.ExactlyOneHolds` | src/sqlancer/sqlite3/queries/SQLite3MetamorphicAggregateTester.java:60-63 | for every row exactly one of `P`, `NOT P`, `P ISNULL` is TRUE |
| `Aggregates.MinMaxMeaning` | src/sqlancer/sqlite3/queries/SQLite3MetamorphicAggregateTester.java:48-50 | MIN/MAX are NULL exactly when every input is NULL, and otherwise return a non-NULL input that is at most (at least) every non-NULL input |
| `Aggregates.SumTotalMeaning` | src/sqlancer/sqlite3/queries/SQLite3MetamorphicAggregateTester.java:48-50 | SUM is NULL without non-NULL input and otherwise the sum of the non-NULL inputs; TOTAL is always that sum, 0 for none |
| `Aggregates.AccumulateConcat` | src/sqlancer/sqlite3/queries/SQLite3MetamorphicAggregateTester.java:69-70 | accumulating a concatenation of columns merges the accumulations of the parts |
| `Aggregates.AccumulatePermutation` | src/sqlancer/sqlite3/queries/SQLite3MetamorphicAggregateTester.java:55-57 | the running aggregate depends only on the multiset of input cells, not on their order |
| `Aggregates.ApplyPermutation` | src/sqlancer/sqlite3/queries/SQLite3MetamorphicAggregateTester.java:120-122 | every aggregate's final value is the same for any reordering of its inputs |
| `Aggregates.ApplyConcat` | src/sqlancer/sqlite3/queries/SQLite3MetamorphicAggregateTester.java:69-70 | f over a concatenation is determined by f over each part (TOTAL's 0 included) |
| `Aggregates.ReaggregateGroups` | src/sqlancer/sqlite3/queries/SQLite3MetamorphicAggregateTester.java:117-119 | f over the per-group results of f equals f over all cells of all groups |
| `Semantics.Keep` | src/sqlancer/sqlite3/queries/SQLite3MetamorphicAggregateTester.java:116 | a WHERE clause keeps every row whose condition is TRUE, as often as it occurs, and no other row |
| `Semantics.Columns` | src/sqlancer/sqlite3/queries/SQLite3MetamorphicAggregateTester.java:114 | the aggregated expression's cells, group by group, concatenate to its cells over all rows of the groups |
| `Semantics.GroupByPartitions` | src/sqlancer/sqlite3/queries/SQLite3MetamorphicAggregateTester.java:117-119 | GROUP BY yields non-empty groups of rows with equal key that together hold every input row exactly as often |
| `Semantics.GroupKeysDiffer` | src/sqlancer/sqlite3/queries/SQLite3MetamorphicAggregateTester.java:117-119 | rows of two different groups never have the same GROUP BY key, so all rows of one key form one group |
| `Aggregates.Partials` | src/sqlancer/sqlite3/queries/SQLite3MetamorphicAggregateTester.java:117-119 | a grouped aggregate yields one result per group, and the i-th result is f over the i-th group's cells |
| `Semantics.ColumnPermutation` | src/sqlancer/sqlite3/queries/SQLite3MetamorphicAggregateTester.java:117-119 | reordering rows (as grouping does) only reorders the aggregated cells |
| `Semantics.PartitionByThreeValues` | src/sqlancer/sqlite3/queries/SQLite3MetamorphicAggregateTester.java:60-67 | the rows kept by the three legs together form the full row multiset: every row lands in exactly one leg |
| `Semantics.OrderedPermutes` | src/sqlancer/sqlite3/queries/SQLite3MetamorphicAggregateTester.java:55-57 | on a sound engine ORDER BY only reorders result rows |
| `Semantics.SelectReaggregates` | src/sqlancer/sqlite3/queries/SQLite3MetamorphicAggregateTester.java:111-123 | a leg with any GROUP BY and ORDER BY, re-aggregated, equals f over the rows its WHERE keeps |
| `Semantics.SingleRow` | src/sqlancer/sqlite3/queries/SQLite3MetamorphicAggregateTester.java:51-58 | an aggregate statement without GROUP BY returns exactly one row, f over the kept rows, with or without ORDER BY |
| `Oracle.OriginalSelect` | src/sqlancer/sqlite3/queries/SQLite3MetamorphicAggregateTester.java:47-57 | the original statement fetches only the one-argument aggregate |
| `Oracle.PartitionedQuery` | src/sqlancer/sqlite3/queries/SQLite3MetamorphicAggregateTester.java:60-71 | every leg of the partitioned query fetches only that aggregate |
| `Oracle.LegsShareAggregateAndFrom` | src/sqlancer/sqlite3/queries/SQLite3MetamorphicAggregateTester.java:51-54 | the three legs reuse the original aggregate node, aliased `aggr`, and the same FROM list; their WHERE clauses are `P`, `NOT P`, `P ISNULL` in that order; the outer function is the original's |
| `Oracle.LegsCoverAllRows` | src/sqlancer/sqlite3/queries/SQLite3MetamorphicAggregateTester.java:65-67 | f over the three legs' cells, concatenated, equals f over every row of the FROM list |
| `Oracle.ApplyOfThree` | src/sqlancer/sqlite3/queries/SQLite3MetamorphicAggregateTester.java:69-70 | f over a three-way UNION ALL depends only on f over each leg |
| `Oracle.PartitionedQueryAgrees` | src/sqlancer/sqlite3/queries/SQLite3MetamorphicAggregateTester.java:100-104 | on a sound engine the original and the partitioned query both return the single row `[f over all rows]` — the equality the AssertionError guards |
| `Oracle.RandomChoicesDoNotMatter` | src/sqlancer/sqlite3/queries/SQLite3MetamorphicAggregateTester.java:117-122 | adding or omitting GROUP BY or ORDER BY (on the original or any leg), or changing the predicate, changes neither query's result |
| `Oracle.Decide` | src/sqlancer/sqlite3/queries/SQLite3MetamorphicAggregateTester.java:100-105 | evaluating the Java condition gives: NullDeref exactly when the first answer is non-null and the second null; Pass exactly when the answers are equal or the second is non-null and isEqualDouble holds; Bug exactly when they differ, the second is non-null and isEqualDouble fails |
| `Oracle.DecideIsNotSymmetric` | src/sqlancer/sqlite3/queries/SQLite3MetamorphicAggregateTester.java:100-101 | swapping a null and a non-null answer changes the outcome |
| `Oracle.Verdict` | src/sqlancer/sqlite3/queries/SQLite3MetamorphicAggregateTester.java:77-97 | the check is ignored exactly when either execution returns no result set or throws; otherwise the answers are compared by Decide |
| `Oracle.SoundEngineAlwaysPasses` | src/sqlancer/sqlite3/queries/SQLite3MetamorphicAggregateTester.java:98-105 | an engine that answers both queries correctly never makes the check report a bug or throw |
| `Oracle.MetamorphicAggregateTester.constructor` | src/sqlancer/sqlite3/queries/SQLite3MetamorphicAggregateTester.java:37-40 | the tester keeps the expected-error catalogue and has no generator yet |
| `Oracle.MetamorphicAggregateTester.GetSelect` | src/sqlancer/sqlite3/queries/SQLite3MetamorphicAggregateTester.java:111-124 | the leg built by the setters is the aggregate aliased `aggr`, the FROM list, the WHERE clause and the drawn GROUP BY / ORDER BY, and it computes the same aggregate |
| `Oracle.MetamorphicAggregateTester.Check` | src/sqlancer/sqlite3/queries/SQLite3MetamorphicAggregateTester.java:43-109 | the generator is reset to the tables' columns; the two texts are the rendered original and partitioned queries; the second query is sent only if the first produced an answer; the outcome is Verdict's |

## Left out

- Executing SQL and reading the `ResultSet` are left out. This is I/O against a live database. The engine is a parameter `exec` from query text and the expected-error list to an `Execution`: a first cell, no result set, or an exception. How `QueryAdapter` treats unexpected errors is not part of this model.
- `Randomly` is left out. The aggregate function, the ORDER BY and GROUP BY choices and the generated expressions are inputs (`Draws`, `LegDraw`).
- `SQLite3ExpressionGenerator`, `SQLite3Common.getTableRefs`, the schema and `getRandomTableNonEmptyTables` are not part of this model. Their expressions are opaque `Term` nodes. What a FROM list yields, and what an opaque expression's value is on a row, come from the `Database` parameter.
- `SQLite3Visitor.asString` is not part of this model. The statement renderer is a parameter.
- `DatabaseProvider.isEqualDouble` is not part of this model. It is an uninterpreted predicate parameter, so whether it can throw on a null argument is not modelled.
- SQL values other than integers are left out: real, text and blob, SQLite's ordering between types for MIN/MAX, and text-to-number conversion in truth tests.
- TOTAL's floating-point result and rounding are left out. Arithmetic is exact.
- SUM's "integer overflow" error on 64-bit overflow is left out. Arithmetic is unbounded.
- A leg's ORDER BY is modelled as a reordering of that leg's rows before the UNION ALL. SQLite does not read it that way. It rejects an ORDER BY on any member of a compound SELECT except the last, and an ORDER BY on the last member applies to the whole compound and must name a result column. Such a check ends with an execution error, which `Verdict` turns into `Ignore` (`Raised`). The soundness theorem therefore covers these draws only under the model's reading.
- The order in which the engine returns rows for an ORDER BY is left to the engine. The soundness theorem assumes only that ordering reorders rows (`Sound`).
- The contents of the expected-error catalogue (`SQLite3Errors.addExpectedExpressionErrors`) are not modelled. The catalogue is only carried through.
- The diagnostic `queryString` set before the comparison, and the `state` field, are left out.
- `SQLite3SelectStatement` is modelled as a value updated field by field, not as a mutable object. The oracle never shares a statement between legs, so aliasing plays no part.
