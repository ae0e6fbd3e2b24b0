/**
 * The metamorphic aggregate oracle for SQLite: it builds `SELECT f(x) FROM t`
 * and the same aggregate re-computed over the three legs WHERE P, WHERE NOT P
 * and WHERE P ISNULL joined by UNION ALL, runs both and compares the answers.
 */
module Oracle {
  import opened Values
  import opened Ast
  import opened Logic
  import opened Aggregates
  import opened Semantics

  /** The random choices of one leg: an optional GROUP BY list and an optional ORDER BY list. */
  datatype LegDraw = LegDraw(groupBy: Option<seq<Expr>>, orderBy: Option<seq<Expr>>)

  /** The random choices of one check, taken as inputs instead of drawn. */
  datatype Draws = Draws(
    func: AggFunc,
    aggArg: Expr,
    orderBy: Option<seq<Expr>>,
    whereClause: Expr,
    left: LegDraw,
    middle: LegDraw,
    right: LegDraw)

  function OrEmpty(clause: Option<seq<Expr>>): seq<Expr>
  {
    match clause
    case None => []
    case Some(terms) => terms
  }

  /** The aggregate node shared by every statement of a check. */
  function AggregateNode(d: Draws): Expr
  {
    Aggregate(d.func, [d.aggArg])
  }

  /** The original statement: the aggregate over the FROM list, with the optional ORDER BY. */
  function OriginalSelect(d: Draws, from: seq<Expr>): (s: Select)
    ensures IsAggregateSelect(s)
  {
    Select([AggregateNode(d)], from, None, [], OrEmpty(d.orderBy))
  }

  /** One leg: the aggregate aliased `aggr`, the same FROM list, the given WHERE clause. */
  function LegSelect(aggregate: Expr, from: seq<Expr>, cond: Expr, draw: LegDraw): Select
  {
    Select([PostfixText(aggregate, " as aggr")], from, Some(cond), OrEmpty(draw.groupBy), OrEmpty(draw.orderBy))
  }

  /** The partitioned query: legs P, NOT P and P ISNULL, in that order, re-aggregated by the same function. */
  function PartitionedQuery(d: Draws, from: seq<Expr>): (q: Query)
    ensures WellFormed(q)
  {
    var p := d.whereClause;
    Reaggregate(d.func, [LegSelect(AggregateNode(d), from, p, d.left),
                         LegSelect(AggregateNode(d), from, Not(p), d.middle),
                         LegSelect(AggregateNode(d), from, IsNull(p), d.right)])
  }

  /** The legs reuse the original statement's aggregate node and FROM list; only WHERE differs. */
  lemma LegsShareAggregateAndFrom(d: Draws, from: seq<Expr>)
    ensures var o, q := OriginalSelect(d, from), PartitionedQuery(d, from);
            && |q.legs| == 3
            && q.func == AggregateOf(o.fetchColumns[0]).value.0
            && (forall i :: 0 <= i < 3 ==>
                  q.legs[i].fetchColumns == [PostfixText(o.fetchColumns[0], " as aggr")]
                  && q.legs[i].fromList == o.fromList
                  && AggregateOf(q.legs[i].fetchColumns[0]) == AggregateOf(o.fetchColumns[0]))
            && q.legs[0].whereClause == Some(d.whereClause)
            && q.legs[1].whereClause == Some(Not(d.whereClause))
            && q.legs[2].whereClause == Some(IsNull(d.whereClause))
  {
  }

  /** The cells of the three legs' rows, re-aggregated, give f over every row. */
  lemma LegsCoverAllRows(db: Database, f: AggFunc, arg: Expr, rows: seq<Row>, p: Expr)
    ensures Apply(f, Column(db, arg, Keep(db, rows, Condition(p)))
                     + (Column(db, arg, Keep(db, rows, Condition(Not(p))))
                        + Column(db, arg, Keep(db, rows, Condition(IsNull(p))))))
         == Apply(f, Column(db, arg, rows))
  {
    var kp, kn, ki := Keep(db, rows, Condition(p)), Keep(db, rows, Condition(Not(p))), Keep(db, rows, Condition(IsNull(p)));
    ColumnConcat(db, arg, kn, ki);
    ColumnConcat(db, arg, kp, kn + ki);
    PartitionByThreeValues(db, rows, p);
    assert multiset(kp + (kn + ki)) == multiset(rows);
    ColumnPermutation(db, arg, kp + (kn + ki), rows);
    ApplyPermutation(f, Column(db, arg, kp + (kn + ki)), Column(db, arg, rows));
  }

  /** f over three concatenated columns depends only on f over each of them. */
  lemma ApplyOfThree(f: AggFunc, l: seq<Cell>, m: seq<Cell>, r: seq<Cell>, a: seq<Cell>, b: seq<Cell>, c: seq<Cell>)
    requires Apply(f, l) == Apply(f, a) && Apply(f, m) == Apply(f, b) && Apply(f, r) == Apply(f, c)
    ensures Apply(f, l + (m + r)) == Apply(f, a + (b + c))
  {
    ApplyConcat(f, m, r);
    ApplyConcat(f, b, c);
    ApplyConcat(f, l, m + r);
    ApplyConcat(f, a, b + c);
  }

  /**
   * The soundness of the oracle: on an engine that evaluates the queries correctly, both
   * queries return exactly one row holding f over the aggregated expression on every row
   * of the FROM list, whatever the predicate, GROUP BY and ORDER BY choices.
   */
  lemma PartitionedQueryAgrees(db: Database, d: Draws, from: seq<Expr>)
    requires Sound(db)
    ensures Result(db, Plain(OriginalSelect(d, from))) == [Apply(d.func, Column(db, d.aggArg, db.fromRows(from)))]
    ensures Result(db, PartitionedQuery(d, from)) == [Apply(d.func, Column(db, d.aggArg, db.fromRows(from)))]
  {
    var f, arg, p, rows := d.func, d.aggArg, d.whereClause, db.fromRows(from);
    SingleRow(db, OriginalSelect(d, from));
    var legs := PartitionedQuery(d, from).legs;
    SelectReaggregates(db, legs[0]);
    SelectReaggregates(db, legs[1]);
    SelectReaggregates(db, legs[2]);
    var l, m, r := SelectResult(db, legs[0]), SelectResult(db, legs[1]), SelectResult(db, legs[2]);
    assert legs[1..][1..][1..] == [];
    assert UnionAllResult(db, legs[1..][1..]) == r + [] == r;
    assert UnionAllResult(db, legs) == l + (m + r);
    ApplyOfThree(f, l, m, r, Column(db, arg, Keep(db, rows, Condition(p))),
                 Column(db, arg, Keep(db, rows, Condition(Not(p)))),
                 Column(db, arg, Keep(db, rows, Condition(IsNull(p)))));
    LegsCoverAllRows(db, f, arg, rows, p);
  }

  /** Neither ORDER BY, nor GROUP BY, nor the predicate changes what either query returns. */
  lemma RandomChoicesDoNotMatter(db: Database, d: Draws, e: Draws, from: seq<Expr>)
    requires Sound(db) && d.func == e.func && d.aggArg == e.aggArg
    ensures Result(db, Plain(OriginalSelect(d, from))) == Result(db, Plain(OriginalSelect(e, from)))
    ensures Result(db, PartitionedQuery(d, from)) == Result(db, PartitionedQuery(e, from))
  {
    PartitionedQueryAgrees(db, d, from);
    PartitionedQueryAgrees(db, e, from);
  }

  // ----- running the two queries and deciding -----

  /** What executing a query and reading column 1 can produce: the cell's text (null for
      SQL NULL), no result set, or an exception. */
  datatype Execution = Returned(cell: Option<string>) | NullResultSet | Raised

  /** How a check ends: normally, with an AssertionError, with an IgnoreMeException,
      or with a NullPointerException from the comparison. */
  datatype Outcome = Pass | Bug | Ignore | NullDeref

  /** A Java expression's value, or the NullPointerException its evaluation throws. */
  datatype Thrown<T> = Value(v: T) | NullPointer

  /** String.contentEquals: compares the characters, and throws when given null. */
  function ContentEquals(s: string, cs: Option<string>): Thrown<bool>
  {
    match cs
    case None => NullPointer
    case Some(t) => Value(s == t)
  }

  /** The mismatch condition, evaluated left to right with short-circuit && and ||. */
  function Differs(first: Option<string>, second: Option<string>): Thrown<bool>
  {
    if first.None? && second.Some? then Value(true)
    else if first.None? then Value(false)
    else
      match ContentEquals(first.value, second)
      case NullPointer => NullPointer
      case Value(same) => Value(!same)
  }

  /**
   * The decision on the two answers: a bug only when they are not the same text
   * and the numeric comparison rejects them too; a non-null first answer against a
   * null second one throws instead.
   */
  function Decide(first: Option<string>, second: Option<string>,
                  isEqualDouble: (Option<string>, Option<string>) -> bool): (o: Outcome)
    ensures o != Ignore
    ensures o == NullDeref <==> first.Some? && second.None?
    ensures o == Pass <==> first == second || (second.Some? && isEqualDouble(first, second))
    ensures o == Bug <==> first != second && second.Some? && !isEqualDouble(first, second)
  {
    match Differs(first, second)
    case NullPointer => NullDeref
    case Value(mismatch) => if mismatch && !isEqualDouble(first, second) then Bug else Pass
  }

  /** The comparison is not symmetric: swapping a null and a non-null answer changes the outcome. */
  lemma DecideIsNotSymmetric(isEqualDouble: (Option<string>, Option<string>) -> bool)
    ensures Decide(Some("0"), None, isEqualDouble) == NullDeref
    ensures Decide(None, Some("0"), isEqualDouble) != NullDeref
  {
  }

  /**
   * The outcome of one check once both texts are built: either execution failing
   * ends it with IgnoreMeException, otherwise the answers are compared.
   */
  function Verdict(exec: (string, seq<string>) -> Execution, errors: seq<string>,
                   originalQuery: string, metamorphicText: string,
                   isEqualDouble: (Option<string>, Option<string>) -> bool): (o: Outcome)
    ensures o == Ignore <==> !exec(originalQuery, errors).Returned? || !exec(metamorphicText, errors).Returned?
    ensures o != Ignore ==> o == Decide(exec(originalQuery, errors).cell, exec(metamorphicText, errors).cell, isEqualDouble)
  {
    match exec(originalQuery, errors)
    case NullResultSet => Ignore
    case Raised => Ignore
    case Returned(first) =>
      match exec(metamorphicText, errors)
      case NullResultSet => Ignore
      case Raised => Ignore
      case Returned(second) => Decide(first, second, isEqualDouble)
  }

  /** An engine whose answer to `text` is the first cell of `q`'s result, printed by `show`. */
  ghost predicate Answers(exec: (string, seq<string>) -> Execution, errors: seq<string>,
                          show: Cell -> Option<string>, db: Database, text: string, q: Query)
  {
    WellFormed(q) && |Result(db, q)| > 0 && exec(text, errors) == Returned(show(Result(db, q)[0]))
  }

  /** On an engine that answers both queries correctly the check passes, whatever isEqualDouble does. */
  lemma SoundEngineAlwaysPasses(db: Database, d: Draws, from: seq<Expr>, render: Select -> string,
                                exec: (string, seq<string>) -> Execution, errors: seq<string>,
                                show: Cell -> Option<string>,
                                isEqualDouble: (Option<string>, Option<string>) -> bool)
    requires Sound(db)
    requires Answers(exec, errors, show, db, RenderQuery(Plain(OriginalSelect(d, from)), render), Plain(OriginalSelect(d, from)))
    requires Answers(exec, errors, show, db, RenderQuery(PartitionedQuery(d, from), render), PartitionedQuery(d, from))
    ensures Verdict(exec, errors, RenderQuery(Plain(OriginalSelect(d, from)), render),
                    RenderQuery(PartitionedQuery(d, from), render), isEqualDouble) == Pass
  {
    PartitionedQueryAgrees(db, d, from);
  }

  /** The expression generator, configured with the columns of the chosen tables. */
  datatype Generator = Generator(columns: seq<string>)

  class MetamorphicAggregateTester {
    /** The expected-error catalogue handed to every query execution. */
    const errors: seq<string>
    var gen: Option<Generator>

    constructor (expectedErrors: seq<string>)
      ensures errors == expectedErrors && gen == None
    {
      errors := expectedErrors;
      gen := None;
    }

    /** Builds one leg, setter by setter, on a fresh statement. */
    method GetSelect(aggregate: Expr, from: seq<Expr>, whereClause: Expr, draw: LegDraw) returns (leftSelect: Select)
      requires aggregate.Aggregate?
      ensures leftSelect == LegSelect(aggregate, from, whereClause, draw)
      ensures AggregateOf(leftSelect.fetchColumns[0]) == AggregateOf(aggregate)
    {
      leftSelect := EmptySelect;
      leftSelect := leftSelect.(fetchColumns := [PostfixText(aggregate, " as aggr")]);
      leftSelect := leftSelect.(fromList := from);
      leftSelect := leftSelect.(whereClause := Some(whereClause));
      if draw.groupBy.Some? {
        leftSelect := leftSelect.(groupByClause := draw.groupBy.value);
      }
      if draw.orderBy.Some? {
        leftSelect := leftSelect.(orderByClause := draw.orderBy.value);
      }
    }

    /**
     * One check: build the original and the partitioned query texts, execute the
     * original, then (only if it produced an answer) the partitioned one, and decide.
     * `executed` lists the texts sent to the engine, in order.
     */
    method Check(columns: seq<string>, from: seq<Expr>, d: Draws, render: Select -> string,
                 exec: (string, seq<string>) -> Execution,
                 isEqualDouble: (Option<string>, Option<string>) -> bool)
      returns (outcome: Outcome, originalQuery: string, metamorphicText: string, executed: seq<string>)
      modifies this
      ensures gen == Some(Generator(columns))
      ensures originalQuery == RenderQuery(Plain(OriginalSelect(d, from)), render)
      ensures metamorphicText == RenderQuery(PartitionedQuery(d, from), render)
      ensures executed == if exec(originalQuery, errors).Returned? then [originalQuery, metamorphicText] else [originalQuery]
      ensures outcome == Verdict(exec, errors, originalQuery, metamorphicText, isEqualDouble)
    {
      gen := Some(Generator(columns));
      var select := EmptySelect;
      var aggregate := Aggregate(d.func, [d.aggArg]);
      select := select.(fetchColumns := [aggregate]);
      select := select.(fromList := from);
      if d.orderBy.Some? {
        select := select.(orderByClause := d.orderBy.value);
      }
      originalQuery := render(select);

      var whereClause := d.whereClause;
      var negatedClause := Not(whereClause);
      var notNullClause := IsNull(whereClause);
      var leftSelect := GetSelect(aggregate, from, whereClause, d.left);
      var middleSelect := GetSelect(aggregate, from, negatedClause, d.middle);
      var rightSelect := GetSelect(aggregate, from, notNullClause, d.right);
      metamorphicText := "SELECT " + FuncName(aggregate.func) + "(aggr) FROM (";
      metamorphicText := metamorphicText + render(leftSelect) + " UNION ALL " + render(middleSelect)
                         + " UNION ALL " + render(rightSelect);
      metamorphicText := metamorphicText + ")";
      RenderThreeLegs(d.func, leftSelect, middleSelect, rightSelect, render);

      executed := [originalQuery];
      var first := exec(originalQuery, errors);
      if !first.Returned? {
        outcome := Ignore;
        return;
      }
      executed := executed + [metamorphicText];
      var second := exec(metamorphicText, errors);
      if !second.Returned? {
        outcome := Ignore;
        return;
      }
      outcome := Decide(first.cell, second.cell, isEqualDouble);
    }
  }
}
