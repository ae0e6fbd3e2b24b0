/**
 * What the two queries of the aggregate oracle mean on a database: the rows a
 * FROM list yields, the WHERE filter, GROUP BY, ORDER BY, the aggregate in the
 * fetch column, and the outer re-aggregation over a UNION ALL.
 */
module Semantics {
  import opened Values
  import opened Ast
  import opened Logic
  import opened Aggregates

  /** The cells of one expression over a list of rows, in row order. */
  function Column(db: Database, e: Expr, rows: seq<Row>): (cells: seq<Cell>)
    ensures |cells| == |rows|
  {
    if |rows| == 0 then [] else [Eval(db, e, rows[0])] + Column(db, e, rows[1..])
  }

  lemma {:induction false} ColumnConcat(db: Database, e: Expr, a: seq<Row>, b: seq<Row>)
    ensures Column(db, e, a + b) == Column(db, e, a) + Column(db, e, b)
  {
    if |a| == 0 {
      assert a + b == b;
    } else {
      assert (a + b)[1..] == a[1..] + b;
      ColumnConcat(db, e, a[1..], b);
    }
  }

  /** Taking one row out of a list takes its cell out of the column. */
  lemma ColumnWithout(db: Database, e: Expr, b: seq<Row>, i: nat)
    requires i < |b|
    ensures multiset(b) == multiset{b[i]} + multiset(b[..i] + b[i + 1..])
    ensures multiset(Column(db, e, b)) == multiset{Eval(db, e, b[i])} + multiset(Column(db, e, b[..i] + b[i + 1..]))
  {
    var front, back := b[..i], b[i + 1..];
    assert b == front + [b[i]] + back;
    ColumnConcat(db, e, front + [b[i]], back);
    ColumnConcat(db, e, front, [b[i]]);
    ColumnConcat(db, e, front, back);
  }

  /** Reordering rows reorders their cells and nothing else. */
  lemma {:induction false} ColumnPermutation(db: Database, e: Expr, a: seq<Row>, b: seq<Row>)
    requires multiset(a) == multiset(b)
    ensures multiset(Column(db, e, a)) == multiset(Column(db, e, b))
  {
    if |a| == 0 {
      assert |multiset(b)| == 0;
    } else {
      var x := a[0];
      assert x in multiset(b);
      var i :| 0 <= i < |b| && b[i] == x;
      var rest := b[..i] + b[i + 1..];
      ColumnWithout(db, e, b, i);
      RemoveMatched(a, b, i);
      ColumnPermutation(db, e, a[1..], rest);
    }
  }

  /** The cells of one expression for each group of rows. */
  function Columns(db: Database, e: Expr, groups: seq<seq<Row>>): (columns: seq<seq<Cell>>)
    ensures Concat(columns) == Column(db, e, Concat(groups))
  {
    if |groups| == 0 then []
    else
      ColumnConcat(db, e, groups[0], Concat(groups[1..]));
      [Column(db, e, groups[0])] + Columns(db, e, groups[1..])
  }

  /** The grouping key of a row: the values of the GROUP BY terms (NULLs compare equal). */
  function Key(db: Database, keys: seq<Expr>, row: Row): seq<Cell>
  {
    if |keys| == 0 then [] else [Eval(db, keys[0], row)] + Key(db, keys[1..], row)
  }

  /** The row tests the model filters by. */
  datatype Test =
    | Condition(cond: Expr)                   // a WHERE clause
    | KeyIs(keys: seq<Expr>, key: seq<Cell>)  // the rows of one group
    | KeyIsNot(keys: seq<Expr>, key: seq<Cell>)

  predicate Passes(db: Database, t: Test, row: Row)
  {
    match t
    case Condition(c) => Holds(db, c, row)
    case KeyIs(keys, k) => Key(db, keys, row) == k
    case KeyIsNot(keys, k) => Key(db, keys, row) != k
  }

  /** The rows that pass a test, in their original order: every passing row
      as often as in the input, no other row. */
  function Keep(db: Database, rows: seq<Row>, t: Test): (kept: seq<Row>)
    ensures forall r :: multiset(kept)[r] == if Passes(db, t, r) then multiset(rows)[r] else 0
    ensures |kept| <= |rows|
    ensures |rows| > 0 && !Passes(db, t, rows[0]) ==> |kept| < |rows|
  {
    if |rows| == 0 then []
    else
      assert rows == [rows[0]] + rows[1..];
      (if Passes(db, t, rows[0]) then [rows[0]] else []) + Keep(db, rows[1..], t)
  }

  /** The rows a WHERE clause keeps; no WHERE clause keeps them all. */
  function Filter(db: Database, rows: seq<Row>, whereClause: Option<Expr>): seq<Row>
  {
    match whereClause
    case None => rows
    case Some(c) => Keep(db, rows, Condition(c))
  }

  /** A kept row is an input row that passes the test. */
  lemma KeptFrom(db: Database, rows: seq<Row>, t: Test, r: Row)
    requires r in Keep(db, rows, t)
    ensures r in rows && Passes(db, t, r)
  {
    assert multiset(Keep(db, rows, t))[r] > 0;
  }

  /** The rows with a given key, and the others, split the input; the first holds only that key. */
  lemma SplitByKey(db: Database, rows: seq<Row>, keys: seq<Expr>, k: seq<Cell>)
    ensures forall r :: r in Keep(db, rows, KeyIs(keys, k)) ==> Key(db, keys, r) == k
    ensures forall r :: r in Keep(db, rows, KeyIsNot(keys, k)) ==> Key(db, keys, r) != k
    ensures multiset(Keep(db, rows, KeyIs(keys, k))) + multiset(Keep(db, rows, KeyIsNot(keys, k))) == multiset(rows)
  {
    var same, others := Keep(db, rows, KeyIs(keys, k)), Keep(db, rows, KeyIsNot(keys, k));
    forall r | r in same ensures Key(db, keys, r) == k {
      KeptFrom(db, rows, KeyIs(keys, k), r);
    }
    forall r | r in others ensures Key(db, keys, r) != k {
      KeptFrom(db, rows, KeyIsNot(keys, k), r);
    }
    forall r ensures (multiset(same) + multiset(others))[r] == multiset(rows)[r] {
      assert multiset(same)[r] == if Key(db, keys, r) == k then multiset(rows)[r] else 0;
      assert multiset(others)[r] == if Key(db, keys, r) != k then multiset(rows)[r] else 0;
    }
  }

  /** GROUP BY: the rows with the first row's key form a group; the other rows are grouped likewise. */
  function GroupBy(db: Database, rows: seq<Row>, keys: seq<Expr>): seq<seq<Row>>
    decreases |rows|
  {
    if |rows| == 0 then []
    else
      var k := Key(db, keys, rows[0]);
      [Keep(db, rows, KeyIs(keys, k))] + GroupBy(db, Keep(db, rows, KeyIsNot(keys, k)), keys)
  }

  /** The groups are non-empty, each holds rows of one key, and together they hold every row. */
  lemma {:induction false} GroupByPartitions(db: Database, rows: seq<Row>, keys: seq<Expr>)
    ensures multiset(Concat(GroupBy(db, rows, keys))) == multiset(rows)
    ensures forall g :: g in GroupBy(db, rows, keys) ==> |g| > 0
    ensures forall g, r :: g in GroupBy(db, rows, keys) && r in g ==> Key(db, keys, r) == Key(db, keys, g[0])
    decreases |rows|
  {
    if |rows| > 0 {
      var k := Key(db, keys, rows[0]);
      var same, others := Keep(db, rows, KeyIs(keys, k)), Keep(db, rows, KeyIsNot(keys, k));
      var rest := GroupBy(db, others, keys);
      GroupByPartitions(db, others, keys);
      SplitByKey(db, rows, keys, k);
      var groups := [same] + rest;
      assert GroupBy(db, rows, keys) == groups;
      assert groups[1..] == rest;
      assert Concat(groups) == same + Concat(rest);
      assert multiset(same)[rows[0]] > 0;
    }
  }

  /** Every row of a group is an input row. */
  lemma GroupMembers(db: Database, rows: seq<Row>, keys: seq<Expr>, i: nat, r: Row)
    requires i < |GroupBy(db, rows, keys)| && r in GroupBy(db, rows, keys)[i]
    ensures r in rows
  {
    var groups := GroupBy(db, rows, keys);
    GroupByPartitions(db, rows, keys);
    InConcat(groups, i, r);
    assert r in multiset(Concat(groups));
  }

  /** Rows of different groups have different keys. */
  predicate KeysDiffer(db: Database, keys: seq<Expr>, groups: seq<seq<Row>>)
  {
    forall i, j, r, t :: 0 <= i < j < |groups| && r in groups[i] && t in groups[j] ==>
      Key(db, keys, r) != Key(db, keys, t)
  }

  /** A group of key k in front of groups whose rows all have other keys keeps the keys apart. */
  lemma ConsKeysDiffer(db: Database, keys: seq<Expr>, same: seq<Row>, rest: seq<seq<Row>>, k: seq<Cell>)
    requires forall r :: r in same ==> Key(db, keys, r) == k
    requires forall j, t :: 0 <= j < |rest| && t in rest[j] ==> Key(db, keys, t) != k
    requires KeysDiffer(db, keys, rest)
    ensures KeysDiffer(db, keys, [same] + rest)
  {
    var groups := [same] + rest;
    forall i, j, r, t | 0 <= i < j < |groups| && r in groups[i] && t in groups[j]
      ensures Key(db, keys, r) != Key(db, keys, t)
    {
      assert groups[j] == rest[j - 1];
      if i > 0 {
        assert groups[i] == rest[i - 1];
      }
    }
  }

  /** No two groups share a key: GROUP BY puts all rows of one key into one group. */
  lemma {:induction false} GroupKeysDiffer(db: Database, rows: seq<Row>, keys: seq<Expr>)
    ensures KeysDiffer(db, keys, GroupBy(db, rows, keys))
    decreases |rows|
  {
    if |rows| > 0 {
      var k := Key(db, keys, rows[0]);
      var same, others := Keep(db, rows, KeyIs(keys, k)), Keep(db, rows, KeyIsNot(keys, k));
      var rest := GroupBy(db, others, keys);
      GroupKeysDiffer(db, others, keys);
      forall r | r in same ensures Key(db, keys, r) == k {
        KeptFrom(db, rows, KeyIs(keys, k), r);
      }
      forall j, t | 0 <= j < |rest| && t in rest[j] ensures Key(db, keys, t) != k {
        GroupMembers(db, others, keys, j, t);
        KeptFrom(db, rows, KeyIsNot(keys, k), t);
      }
      ConsKeysDiffer(db, keys, same, rest, k);
      assert GroupBy(db, rows, keys) == [same] + rest;
    }
  }

  /** The groups an aggregate query reduces: one group of all rows without GROUP BY. */
  function Groups(db: Database, rows: seq<Row>, keys: seq<Expr>): seq<seq<Row>>
  {
    if |keys| == 0 then [rows] else GroupBy(db, rows, keys)
  }

  /** Result rows in the engine's order for an ORDER BY list; none means as produced. */
  function Ordered(db: Database, terms: seq<Expr>, cells: seq<Cell>): seq<Cell>
  {
    if |terms| == 0 then cells else db.order(terms, cells)
  }

  /** The aggregate a fetch column computes: `f(arg)`, possibly followed by an alias. */
  function AggregateOf(e: Expr): Option<(AggFunc, Expr)>
  {
    match e
    case Aggregate(f, args) => if |args| == 1 then Some((f, args[0])) else None
    case PostfixText(Aggregate(f, args), _) => if |args| == 1 then Some((f, args[0])) else None
    case _ => None
  }

  /** A statement whose only fetch column is a one-argument aggregate. */
  predicate IsAggregateSelect(s: Select)
  {
    |s.fetchColumns| == 1 && AggregateOf(s.fetchColumns[0]).Some?
  }

  /** The single result column of an aggregate statement: one cell per group, in result order. */
  function SelectResult(db: Database, s: Select): seq<Cell>
    requires IsAggregateSelect(s)
  {
    var (f, arg) := AggregateOf(s.fetchColumns[0]).value;
    var rows := Filter(db, db.fromRows(s.fromList), s.whereClause);
    Ordered(db, s.orderByClause, Partials(f, Columns(db, arg, Groups(db, rows, s.groupByClause))))
  }

  predicate WellFormed(q: Query)
  {
    match q
    case Plain(s) => IsAggregateSelect(s)
    case Reaggregate(_, legs) => forall i :: 0 <= i < |legs| ==> IsAggregateSelect(legs[i])
  }

  /** The rows of `leg_1 UNION ALL ... UNION ALL leg_n`: every leg's rows, in leg order. */
  function UnionAllResult(db: Database, legs: seq<Select>): seq<Cell>
    requires forall i :: 0 <= i < |legs| ==> IsAggregateSelect(legs[i])
  {
    if |legs| == 0 then [] else SelectResult(db, legs[0]) + UnionAllResult(db, legs[1..])
  }

  /** The result column of a query. */
  function Result(db: Database, q: Query): seq<Cell>
    requires WellFormed(q)
  {
    match q
    case Plain(s) => SelectResult(db, s)
    case Reaggregate(f, legs) => [Apply(f, UnionAllResult(db, legs))]
  }

  /** Every row of the input lands in exactly one of the legs P, NOT P and P ISNULL. */
  lemma PartitionByThreeValues(db: Database, rows: seq<Row>, p: Expr)
    ensures multiset(Keep(db, rows, Condition(p)))
          + multiset(Keep(db, rows, Condition(Not(p))))
          + multiset(Keep(db, rows, Condition(IsNull(p)))) == multiset(rows)
  {
    var kp, kn, ki := Keep(db, rows, Condition(p)), Keep(db, rows, Condition(Not(p))), Keep(db, rows, Condition(IsNull(p)));
    forall r ensures (multiset(kp) + multiset(kn) + multiset(ki))[r] == multiset(rows)[r] {
      ExactlyOneHolds(db, p, r);
      assert multiset(kp)[r] == if Holds(db, p, r) then multiset(rows)[r] else 0;
      assert multiset(kn)[r] == if Holds(db, Not(p), r) then multiset(rows)[r] else 0;
      assert multiset(ki)[r] == if Holds(db, IsNull(p), r) then multiset(rows)[r] else 0;
    }
  }

  /** An ORDER BY never changes which cells a sound engine returns. */
  lemma OrderedPermutes(db: Database, terms: seq<Expr>, cells: seq<Cell>)
    requires Sound(db)
    ensures multiset(Ordered(db, terms, cells)) == multiset(cells)
  {
  }

  /** On a sound engine an aggregate statement, with any GROUP BY and ORDER BY,
      re-aggregates to its aggregate over the rows its WHERE clause keeps. */
  lemma SelectReaggregates(db: Database, s: Select)
    requires Sound(db) && IsAggregateSelect(s)
    ensures Apply(AggregateOf(s.fetchColumns[0]).value.0, SelectResult(db, s))
         == Apply(AggregateOf(s.fetchColumns[0]).value.0,
                  Column(db, AggregateOf(s.fetchColumns[0]).value.1,
                         Filter(db, db.fromRows(s.fromList), s.whereClause)))
  {
    var (f, arg) := AggregateOf(s.fetchColumns[0]).value;
    var rows := Filter(db, db.fromRows(s.fromList), s.whereClause);
    var groups := Groups(db, rows, s.groupByClause);
    var partials := Partials(f, Columns(db, arg, groups));
    OrderedPermutes(db, s.orderByClause, partials);
    ApplyPermutation(f, SelectResult(db, s), partials);
    ReaggregateGroups(f, Columns(db, arg, groups));
    if |s.groupByClause| == 0 {
      assert Concat(groups) == rows + [];
    } else {
      GroupByPartitions(db, rows, s.groupByClause);
    }
    ColumnPermutation(db, arg, Concat(groups), rows);
    ApplyPermutation(f, Column(db, arg, Concat(groups)), Column(db, arg, rows));
  }

  /** Without GROUP BY an aggregate statement returns exactly one row: f over the kept rows. */
  lemma SingleRow(db: Database, s: Select)
    requires Sound(db) && IsAggregateSelect(s) && |s.groupByClause| == 0
    ensures SelectResult(db, s)
         == [Apply(AggregateOf(s.fetchColumns[0]).value.0,
                   Column(db, AggregateOf(s.fetchColumns[0]).value.1,
                          Filter(db, db.fromRows(s.fromList), s.whereClause)))]
  {
    var (f, arg) := AggregateOf(s.fetchColumns[0]).value;
    var rows := Filter(db, db.fromRows(s.fromList), s.whereClause);
    var one := [Apply(f, Column(db, arg, rows))];
    assert Partials(f, Columns(db, arg, Groups(db, rows, s.groupByClause))) == one;
    var result := SelectResult(db, s);
    OrderedPermutes(db, s.orderByClause, one);
    assert |result| == |multiset(result)| == 1;
    assert result[0] in multiset(one);
  }
}
