/**
 * The slice of SQLite's statement tree that the aggregate oracle builds, and the
 * query texts it sends. Expressions produced by the random generator stay opaque
 * (`Term`); only the wrappers the oracle adds itself have structure here.
 */
module Ast {
  import opened Values

  /** The four accumulators the oracle draws from. */
  datatype AggFunc = MIN | MAX | SUM | TOTAL

  /** The enum constant's name, which is the SQL function name written into the outer query. */
  function FuncName(f: AggFunc): string
  {
    match f
    case MIN => "MIN"
    case MAX => "MAX"
    case SUM => "SUM"
    case TOTAL => "TOTAL"
  }

  datatype Expr =
    | Term(sql: string)                         // a column, literal, call ... from the generator or a table reference
    | Not(operand: Expr)                        // prefix NOT
    | IsNull(operand: Expr)                     // postfix ISNULL
    | Aggregate(func: AggFunc, args: seq<Expr>) // func(args)
    | PostfixText(operand: Expr, text: string)  // operand followed by literal text, such as " as aggr"

  /** A SELECT statement; an empty GROUP BY or ORDER BY list means the clause is absent. */
  datatype Select = Select(
    fetchColumns: seq<Expr>,
    fromList: seq<Expr>,
    whereClause: Option<Expr>,
    groupByClause: seq<Expr>,
    orderByClause: seq<Expr>)

  /** A freshly allocated statement, before any setter has run. */
  const EmptySelect := Select([], [], None, [], [])

  /** The two kinds of query text the oracle sends: one statement, or an outer
      aggregate over the column `aggr` of a UNION ALL of statements. */
  datatype Query =
    | Plain(select: Select)
    | Reaggregate(func: AggFunc, legs: seq<Select>)

  /** Texts joined by " UNION ALL ", in order. */
  function JoinUnionAll(texts: seq<string>): string
  {
    if |texts| == 0 then ""
    else if |texts| == 1 then texts[0]
    else texts[0] + " UNION ALL " + JoinUnionAll(texts[1..])
  }

  function RenderAll(render: Select -> string, selects: seq<Select>): (texts: seq<string>)
    ensures |texts| == |selects|
    ensures forall i :: 0 <= i < |selects| ==> texts[i] == render(selects[i])
  {
    if |selects| == 0 then [] else [render(selects[0])] + RenderAll(render, selects[1..])
  }

  /** The SQL text of a query, given the statement renderer. */
  function RenderQuery(q: Query, render: Select -> string): string
  {
    match q
    case Plain(s) => render(s)
    case Reaggregate(f, legs) =>
      "SELECT " + FuncName(f) + "(aggr) FROM (" + JoinUnionAll(RenderAll(render, legs)) + ")"
  }

  /** The outer query over three legs spells out every leg, in order, between the UNION ALLs. */
  lemma RenderThreeLegs(f: AggFunc, l: Select, m: Select, r: Select, render: Select -> string)
    ensures RenderQuery(Reaggregate(f, [l, m, r]), render)
         == "SELECT " + FuncName(f) + "(aggr) FROM (" + render(l) + " UNION ALL " + render(m)
            + " UNION ALL " + render(r) + ")"
  {
    assert RenderAll(render, [l, m, r]) == [render(l), render(m), render(r)];
    JoinThree(render(l), render(m), render(r));
  }

  lemma JoinThree(a: string, b: string, c: string)
    ensures JoinUnionAll([a, b, c]) == a + " UNION ALL " + b + " UNION ALL " + c
  {
    assert [a, b, c][1..] == [b, c];
    assert [b, c][1..] == [c];
    assert JoinUnionAll([b, c]) == b + " UNION ALL " + c;
    assert JoinUnionAll([a, b, c]) == a + " UNION ALL " + (b + " UNION ALL " + c);
  }

  /** The function name at the head of the outer query tells the four accumulators apart. */
  lemma FuncNameInjective(f: AggFunc, g: AggFunc)
    ensures FuncName(f) == FuncName(g) <==> f == g
  {
    if FuncName(f) == FuncName(g) {
      assert FuncName(f)[..2] == FuncName(g)[..2];
      assert |FuncName(f)| == |FuncName(g)|;
    }
  }
}
