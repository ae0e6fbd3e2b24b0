/** Values shared by every part of the model: SQL cells, rows and sequence helpers. */
module Values {

  datatype Option<+T> = None | Some(value: T)

  /** One SQL value as the oracle sees it: NULL or an integer (exact arithmetic). */
  type Cell = Option<int>

  /** One row of the FROM product; its columns are read only through expressions. */
  type Row = seq<Cell>

  /** The concatenation of a sequence of sequences, in order (UNION ALL, or the groups of a GROUP BY). */
  function Concat<T>(parts: seq<seq<T>>): seq<T>
  {
    if |parts| == 0 then [] else parts[0] + Concat(parts[1..])
  }

  /** Two lists with equal multisets still have equal multisets once a matched element is taken from each. */
  lemma RemoveMatched<T>(a: seq<T>, b: seq<T>, i: nat)
    requires multiset(a) == multiset(b) && 0 < |a| && i < |b| && b[i] == a[0]
    ensures multiset(a[1..]) == multiset(b[..i] + b[i + 1..])
  {
    assert a == [a[0]] + a[1..];
    assert b == b[..i] + [b[i]] + b[i + 1..];
    assert multiset(a[1..]) == multiset(a) - multiset{a[0]};
    assert multiset(b[..i] + b[i + 1..]) == multiset(b) - multiset{b[i]};
  }

  /** Every element of a part is an element of the concatenation. */
  lemma {:induction false} InConcat<T>(parts: seq<seq<T>>, i: nat, x: T)
    requires i < |parts| && x in parts[i]
    ensures x in Concat(parts)
  {
    if i > 0 {
      InConcat(parts[1..], i - 1, x);
    }
  }
}
