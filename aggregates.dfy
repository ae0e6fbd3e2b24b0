/**
 * MIN, MAX, SUM and TOTAL over a column of cells, with SQLite's NULL rules:
 * NULL inputs are ignored; with no non-NULL input MIN, MAX and SUM give NULL
 * and TOTAL gives 0. Arithmetic is exact.
 */
module Aggregates {
  import opened Values
  import opened Ast

  /** Merges two partial results of f; NULL (no input seen yet) is the neutral element. */
  function Combine(f: AggFunc, x: Cell, y: Cell): Cell
  {
    match (x, y)
    case (None, _) => y
    case (_, None) => x
    case (Some(a), Some(b)) =>
      Some(match f
           case MIN => if a <= b then a else b
           case MAX => if a >= b then a else b
           case SUM => a + b
           case TOTAL => a + b)
  }

  /** The running result of f over a column, before TOTAL's empty case is applied. */
  function Accumulate(f: AggFunc, cells: seq<Cell>): Cell
  {
    if |cells| == 0 then None else Combine(f, cells[0], Accumulate(f, cells[1..]))
  }

  /** TOTAL of nothing is 0; the other accumulators leave NULL as it is. */
  function Finish(f: AggFunc, c: Cell): Cell
  {
    if f == TOTAL && c.None? then Some(0) else c
  }

  /** The value of f over a column of cells. */
  function Apply(f: AggFunc, cells: seq<Cell>): Cell
  {
    Finish(f, Accumulate(f, cells))
  }

  // ----- reference definitions: what each accumulator means -----

  /** The non-NULL inputs, in order. */
  function NonNull(cells: seq<Cell>): (values: seq<int>)
    ensures forall v :: v in values <==> Some(v) in cells
  {
    if |cells| == 0 then []
    else (if cells[0].Some? then [cells[0].value] else []) + NonNull(cells[1..])
  }

  function Sum(values: seq<int>): int
  {
    if |values| == 0 then 0 else values[0] + Sum(values[1..])
  }

  /** MIN and MAX are NULL exactly when there is no non-NULL input, and otherwise
      pick the least (greatest) non-NULL input. */
  lemma {:induction false} MinMaxMeaning(f: AggFunc, cells: seq<Cell>)
    requires f == MIN || f == MAX
    ensures Apply(f, cells).None? <==> |NonNull(cells)| == 0
    ensures Apply(f, cells).Some? ==> Apply(f, cells).value in NonNull(cells)
    ensures Apply(f, cells).Some? ==>
              forall v :: v in NonNull(cells) ==>
                (f == MIN ==> Apply(f, cells).value <= v) && (f == MAX ==> v <= Apply(f, cells).value)
  {
    if |cells| > 0 {
      MinMaxMeaning(f, cells[1..]);
    }
  }

  /** SUM is NULL without non-NULL input and otherwise their sum; TOTAL is always their sum. */
  lemma {:induction false} SumTotalMeaning(cells: seq<Cell>)
    ensures Apply(SUM, cells) == if |NonNull(cells)| == 0 then None else Some(Sum(NonNull(cells)))
    ensures Apply(TOTAL, cells) == Some(Sum(NonNull(cells)))
  {
    if |cells| > 0 {
      SumTotalMeaning(cells[1..]);
      var rest := NonNull(cells[1..]);
      if cells[0].Some? {
        assert NonNull(cells) == [cells[0].value] + rest;
        assert ([cells[0].value] + rest)[1..] == rest;
      } else {
        assert NonNull(cells) == rest;
      }
    }
  }

  // ----- algebra used by the partition argument -----

  lemma CombineCommutes(f: AggFunc, x: Cell, y: Cell)
    ensures Combine(f, x, y) == Combine(f, y, x)
  {
  }

  lemma CombineAssociates(f: AggFunc, x: Cell, y: Cell, z: Cell)
    ensures Combine(f, x, Combine(f, y, z)) == Combine(f, Combine(f, x, y), z)
  {
  }

  /** Finishing before merging changes nothing once the merge is finished too. */
  lemma FinishCombine(f: AggFunc, x: Cell, y: Cell)
    ensures Finish(f, Combine(f, Finish(f, x), Finish(f, y))) == Finish(f, Combine(f, x, y))
  {
  }

  /** Accumulating a concatenation merges the accumulations of its parts. */
  lemma {:induction false} AccumulateConcat(f: AggFunc, a: seq<Cell>, b: seq<Cell>)
    ensures Accumulate(f, a + b) == Combine(f, Accumulate(f, a), Accumulate(f, b))
  {
    if |a| == 0 {
      assert a + b == b;
    } else {
      assert (a + b)[1..] == a[1..] + b;
      AccumulateConcat(f, a[1..], b);
      CombineAssociates(f, a[0], Accumulate(f, a[1..]), Accumulate(f, b));
    }
  }

  /** Taking one cell out of a column and merging it back in front gives the same accumulation. */
  lemma AccumulateWithout(f: AggFunc, b: seq<Cell>, i: nat)
    requires i < |b|
    ensures multiset(b) == multiset{b[i]} + multiset(b[..i] + b[i + 1..])
    ensures Accumulate(f, b) == Combine(f, b[i], Accumulate(f, b[..i] + b[i + 1..]))
  {
    var x, front, back := b[i], b[..i], b[i + 1..];
    assert b == front + ([x] + back);
    assert ([x] + back)[1..] == back;
    AccumulateConcat(f, front, [x] + back);
    AccumulateConcat(f, front, back);
    var p, q := Accumulate(f, front), Accumulate(f, back);
    CombineAssociates(f, p, x, q);
    CombineCommutes(f, p, x);
    CombineAssociates(f, x, p, q);
  }

  /** The order of the input rows does not matter: only the multiset of cells does. */
  lemma {:induction false} AccumulatePermutation(f: AggFunc, a: seq<Cell>, b: seq<Cell>)
    requires multiset(a) == multiset(b)
    ensures Accumulate(f, a) == Accumulate(f, b)
  {
    if |a| == 0 {
      assert |multiset(b)| == 0;
    } else {
      var x := a[0];
      assert x in multiset(b);
      var i :| 0 <= i < |b| && b[i] == x;
      var rest := b[..i] + b[i + 1..];
      AccumulateWithout(f, b, i);
      RemoveMatched(a, b, i);
      AccumulatePermutation(f, a[1..], rest);
    }
  }

  lemma ApplyPermutation(f: AggFunc, a: seq<Cell>, b: seq<Cell>)
    requires multiset(a) == multiset(b)
    ensures Apply(f, a) == Apply(f, b)
  {
    AccumulatePermutation(f, a, b);
  }

  /** The value of f over a concatenation depends only on the values of f over its parts. */
  lemma ApplyConcat(f: AggFunc, a: seq<Cell>, b: seq<Cell>)
    ensures Apply(f, a + b) == Finish(f, Combine(f, Apply(f, a), Apply(f, b)))
  {
    AccumulateConcat(f, a, b);
    FinishCombine(f, Accumulate(f, a), Accumulate(f, b));
  }

  /** f over the partial results of f, one per group. */
  function Partials(f: AggFunc, groups: seq<seq<Cell>>): (partials: seq<Cell>)
    ensures |partials| == |groups|
    ensures forall i :: 0 <= i < |groups| ==> partials[i] == Apply(f, groups[i])
  {
    if |groups| == 0 then [] else [Apply(f, groups[0])] + Partials(f, groups[1..])
  }

  /** Re-aggregation: f over the per-group results of f equals f over all the groups' cells. */
  lemma {:induction false} ReaggregateGroups(f: AggFunc, groups: seq<seq<Cell>>)
    ensures Apply(f, Partials(f, groups)) == Apply(f, Concat(groups))
  {
    if |groups| > 0 {
      var g, rest := groups[0], groups[1..];
      ReaggregateGroups(f, rest);
      var x, y, z := Accumulate(f, g), Accumulate(f, Partials(f, rest)), Accumulate(f, Concat(rest));
      assert Partials(f, groups) == [Apply(f, g)] + Partials(f, rest);
      assert Accumulate(f, Partials(f, groups)) == Combine(f, Finish(f, x), y);
      AccumulateConcat(f, g, Concat(rest));
      FinishCombine(f, Finish(f, x), y);
      FinishCombine(f, x, z);
    }
  }
}
