/**
 * SQL's three-valued logic as SQLite applies it to a WHERE clause, and the
 * engine-side facts the model treats as given.
 */
module Logic {
  import opened Values
  import opened Ast

  datatype Bool3 = True | False | Unknown

  /**
   * What one database state determines, seen from the oracle:
   * the rows of a FROM list, the value of an opaque expression on a row,
   * and the order in which the engine returns result rows for an ORDER BY list.
   */
  datatype Database = Database(
    fromRows: seq<Expr> -> seq<Row>,
    value: (Expr, Row) -> Cell,
    order: (seq<Expr>, seq<Cell>) -> seq<Cell>)

  /** An engine that only reorders rows for ORDER BY, never adds, drops or changes one. */
  ghost predicate Sound(db: Database)
  {
    forall terms, cells :: multiset(db.order(terms, cells)) == multiset(cells)
  }

  /** SQLite's truth value of a cell: NULL is unknown, zero is false, any other number true. */
  function Truth(c: Cell): Bool3
  {
    match c
    case None => Unknown
    case Some(v) => if v == 0 then False else True
  }

  /** The value of an expression on a row: NOT and ISNULL as SQLite defines them,
      every other node as the engine evaluates it. */
  function Eval(db: Database, e: Expr, row: Row): Cell
  {
    match e
    case Not(x) =>
      (match Eval(db, x, row)
       case None => None
       case Some(v) => Some(if v == 0 then 1 else 0))
    case IsNull(x) => Some(if Eval(db, x, row).None? then 1 else 0)
    case _ => db.value(e, row)
  }

  /** A WHERE clause keeps a row exactly when its condition is TRUE. */
  predicate Holds(db: Database, cond: Expr, row: Row)
  {
    Truth(Eval(db, cond, row)) == True
  }

  /** NOT is Kleene negation: it swaps TRUE and FALSE and keeps UNKNOWN. */
  lemma NotNegates(db: Database, p: Expr, row: Row)
    ensures Truth(Eval(db, Not(p), row))
         == match Truth(Eval(db, p, row)) case True => False case False => True case Unknown => Unknown
  {
  }

  /** ISNULL is never UNKNOWN and is TRUE exactly on the rows where its operand is UNKNOWN. */
  lemma IsNullDecides(db: Database, p: Expr, row: Row)
    ensures Truth(Eval(db, IsNull(p), row)) != Unknown
    ensures Holds(db, IsNull(p), row) <==> Truth(Eval(db, p, row)) == Unknown
  {
  }

  /** For every row exactly one of P, NOT P and P ISNULL is TRUE. */
  lemma ExactlyOneHolds(db: Database, p: Expr, row: Row)
    ensures (if Holds(db, p, row) then 1 else 0)
          + (if Holds(db, Not(p), row) then 1 else 0)
          + (if Holds(db, IsNull(p), row) then 1 else 0) == 1
  {
    NotNegates(db, p, row);
    IsNullDecides(db, p, row);
  }
}
