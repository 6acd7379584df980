/**
 * Choice of the attribute fields to interpolate and conversion of a column to
 * floating point, as `idw_interpolation` (idw.py) does on the table it reads.
 */
module FieldSelection {

  datatype Option<T> = None | Some(value: T)

  /** A list comprehension `[v for v in s if keep(v)]`. */
  function Filter<T(==,!new)>(s: seq<T>, keep: T -> bool): (r: seq<T>)
    ensures |r| <= |s|
    ensures forall v :: v in r <==> v in s && keep(v)
    decreases |s|
  {
    if |s| == 0 then []
    else
      var k := |s| - 1;
      Filter(s[..k], keep) + (if keep(s[k]) then [s[k]] else [])
  }

  /** The comprehension keeps the elements it keeps in their order. */
  lemma {:induction false} FilterSubsequence<T(!new)>(s: seq<T>, keep: T -> bool)
    ensures Subsequence(Filter(s, keep), s)
    decreases |s|
  {
    if |s| > 0 {
      var k := |s| - 1;
      var front := Filter(s[..k], keep);
      FilterSubsequence(s[..k], keep);
      if keep(s[k]) {
        assert (front + [s[k]])[..|front|] == front;
      } else {
        assert Filter(s, keep) == front;
        assert |front| > 0 ==> front[|front| - 1] in front && front[|front| - 1] != s[k];
      }
    }
  }

  /**
   * The comprehension keeps every occurrence of an element that passes the
   * test and none of one that fails it; with `FilterSubsequence` this fixes
   * its result, repeated elements included.
   */
  lemma {:induction false} FilterCounts<T(!new)>(s: seq<T>, keep: T -> bool)
    ensures forall v :: multiset(Filter(s, keep))[v] == if keep(v) then multiset(s)[v] else 0
    decreases |s|
  {
    if |s| > 0 {
      var k := |s| - 1;
      FilterCounts(s[..k], keep);
      assert s == s[..k] + [s[k]];
      assert multiset(s) == multiset(s[..k]) + multiset{s[k]};
    }
  }

  /** r is s with some elements deleted, the rest kept in their order. */
  predicate Subsequence<T(==,!new)>(r: seq<T>, s: seq<T>)
    decreases |s|
  {
    if |r| == 0 then true
    else if |s| == 0 then false
    else if r[|r| - 1] == s[|s| - 1] then Subsequence(r[..|r| - 1], s[..|s| - 1])
    else Subsequence(r, s[..|s| - 1])
  }

  /** Filtering twice is filtering once by both conditions. */
  lemma {:induction false} FilterTwice<T(!new)>(s: seq<T>, p: T -> bool, q: T -> bool, pq: T -> bool)
    requires forall v :: pq(v) == (p(v) && q(v))
    ensures Filter(Filter(s, p), q) == Filter(s, pq)
    decreases |s|
  {
    if |s| > 0 {
      var k := |s| - 1;
      var front := Filter(s[..k], p);
      FilterTwice(s[..k], p, q, pq);
      if p(s[k]) {
        var fp := front + [s[k]];
        assert Filter(s, p) == fp;
        assert fp[..|fp| - 1] == front;
        assert Filter(fp, q) == Filter(front, q) + (if q(s[k]) then [s[k]] else []);
      } else {
        assert Filter(s, p) == front;
        assert !pq(s[k]);
      }
    }
  }

  /**
   * The order in which a Python dict yields keys assigned in the order of s:
   * each key at its first assignment, a repeated one not again.
   */
  function InsertionOrder<T(==,!new)>(s: seq<T>): (r: seq<T>)
    ensures forall v :: v in r <==> v in s
    decreases |s|
  {
    if |s| == 0 then []
    else
      var k := |s| - 1;
      var front := InsertionOrder(s[..k]);
      if s[k] in front then front else front + [s[k]]
  }

  /**
   * The keys are a subsequence of the assigned names; that they come in the
   * order of each name's first assignment is `InsertionOrderByFirstIndex`.
   */
  lemma {:induction false} InsertionOrderSubsequence<T(!new)>(s: seq<T>)
    ensures Subsequence(InsertionOrder(s), s)
    decreases |s|
  {
    if |s| > 0 {
      var k := |s| - 1;
      var front := InsertionOrder(s[..k]);
      InsertionOrderSubsequence(s[..k]);
      if s[k] in front {
        SubsequenceExtend(front, s[..k], s[k]);
        assert s[..k] + [s[k]] == s;
      } else {
        assert (front + [s[k]])[..|front|] == front;
      }
    }
  }

  /** The index of the first occurrence of v in s. */
  function FirstIndex<T(==)>(s: seq<T>, v: T): (n: nat)
    requires v in s
    ensures n < |s| && s[n] == v
    ensures forall j :: 0 <= j < n ==> s[j] != v
    decreases |s|
  {
    var k := |s| - 1;
    if v in s[..k] then FirstIndex(s[..k], v)
    else
      assert forall j :: 0 <= j < k ==> s[..k][j] == s[j];
      k
  }

  /**
   * Keys come in the order in which each was first assigned: of two keys, the
   * earlier one's first assignment comes first. With `InsertionOrderDistinct`
   * and the membership clause of `InsertionOrder` this fixes the key order.
   */
  lemma {:induction false} InsertionOrderByFirstIndex<T(!new)>(s: seq<T>)
    ensures forall i, j :: 0 <= i < j < |InsertionOrder(s)| ==>
              FirstIndex(s, InsertionOrder(s)[i]) < FirstIndex(s, InsertionOrder(s)[j])
    decreases |s|
  {
    if |s| > 0 {
      var k := |s| - 1;
      var front := InsertionOrder(s[..k]);
      InsertionOrderByFirstIndex(s[..k]);
      forall v | v in front ensures FirstIndex(s, v) == FirstIndex(s[..k], v) < k {
        assert v in s[..k];
      }
      var r := InsertionOrder(s);
      if s[k] !in front {
        assert s[k] !in s[..k];
      }
      forall i, j | 0 <= i < j < |r| ensures FirstIndex(s, r[i]) < FirstIndex(s, r[j]) {
        assert r[i] == front[i] && r[i] in front;
        if j < |front| {
          assert r[j] == front[j] && r[j] in front;
        } else {
          assert s[k] !in front && r == front + [s[k]];
          assert r[j] == s[k] && FirstIndex(s, s[k]) == k;
        }
      }
    }
  }

  /** No element occurs twice in s. */
  predicate Distinct<T(==)>(s: seq<T>)
  {
    forall i, j :: 0 <= i < j < |s| ==> s[i] != s[j]
  }

  /** The key order names each key once. */
  lemma {:induction false} InsertionOrderDistinct<T(!new)>(s: seq<T>)
    ensures Distinct(InsertionOrder(s))
    decreases |s|
  {
    if |s| > 0 {
      InsertionOrderDistinct(s[..|s| - 1]);
    }
  }

  /** A subsequence of s is also one of s with one more element at its end. */
  lemma {:induction false} SubsequenceExtend<T(!new)>(r: seq<T>, s: seq<T>, v: T)
    requires Subsequence(r, s)
    ensures Subsequence(r, s + [v])
    decreases |s|, 1
  {
    var t := s + [v];
    assert t[..|t| - 1] == s;
    if |r| > 0 && r[|r| - 1] == v {
      SubsequenceShorter(r, s);
    }
  }

  /** Dropping the last element of a subsequence keeps it a subsequence. */
  lemma {:induction false} SubsequenceShorter<T(!new)>(r: seq<T>, s: seq<T>)
    requires |r| > 0 && Subsequence(r, s)
    ensures Subsequence(r[..|r| - 1], s)
    decreases |s|, 0
  {
    var front := r[..|r| - 1];
    if |s| > 0 {
      var k := |s| - 1;
      if r[|r| - 1] == s[k] {
        if |front| > 0 {
          SubsequenceExtend(front, s[..k], s[k]);
          assert s[..k] + [s[k]] == s;
        }
      } else {
        SubsequenceShorter(r, s[..k]);
        if |front| > 0 {
          SubsequenceExtend(front, s[..k], s[k]);
          assert s[..k] + [s[k]] == s;
        }
      }
    }
  }

  /** The condition `v not in drop`. */
  function NotIn(drop: seq<string>): string -> bool
  {
    v => v !in drop
  }

  /** The columns never interpolated: the coordinates and the geometry. */
  const Reserved: seq<string> := ["Lat", "Long", "geometry"]

  /** Keeps the columns other than `Lat`, `Long` and `geometry` and, when the exclusion list is not empty, those not in it. */
  function AttributeFields(columns: seq<string>, exclude: seq<string>): (fields: seq<string>)
    ensures forall c :: c in fields <==> c in columns && c !in Reserved && c !in exclude
    ensures Subsequence(fields, columns)
    ensures forall c :: multiset(fields)[c] == if c !in Reserved && c !in exclude then multiset(columns)[c] else 0
  {
    var kept := Filter(columns, NotIn(Reserved));
    FilterSubsequence(columns, NotIn(Reserved));
    FilterCounts(columns, NotIn(Reserved));
    if |exclude| > 0 then
      var both := c => c !in Reserved && c !in exclude;
      FilterTwice(columns, NotIn(Reserved), NotIn(exclude), both);
      FilterSubsequence(columns, both);
      FilterCounts(columns, both);
      Filter(kept, NotIn(exclude))
    else kept
  }

  /** A table cell: a value `float()` accepts, or one it rejects. */
  datatype Cell = Number(value: real) | Text(raw: string)

  /** `column.astype(float)`: every cell converted, or nothing when one cell is not a number. */
  function ToFloats(cells: seq<Cell>): (r: Option<seq<real>>)
    ensures r.Some? <==> forall j :: 0 <= j < |cells| ==> cells[j].Number?
    ensures r.Some? ==> |r.value| == |cells| && forall j :: 0 <= j < |cells| ==> r.value[j] == cells[j].value
    decreases |cells|
  {
    if |cells| == 0 then Some([])
    else
      var k := |cells| - 1;
      match ToFloats(cells[..k])
      case None => None
      case Some(front) =>
        match cells[k]
        case Number(v) => Some(front + [v])
        case Text(_) => None
  }
}
