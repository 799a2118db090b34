/**
 Counting over columns: dropping missing cells, counting occurrences,
 tabulating counts per key, and pandas' `value_counts`.
 */
module Counting {
  import opened Optional

  /** The number of cells of `xs` equal to `k`. */
  function Occurrences<K(==)>(xs: seq<K>, k: K): (n: nat)
    ensures n <= |xs|
    ensures n > 0 <==> k in xs
  {
    if xs == [] then 0
    else (if xs[0] == k then 1 else 0) + Occurrences(xs[1..], k)
  }

  predicate NoDuplicates<K(==)>(s: seq<K>)
  {
    forall i, j :: 0 <= i < j < |s| ==> s[i] != s[j]
  }

  /** The present values of a column (`dropna`). */
  function Present<K(==,!new)>(column: seq<Option<K>>): (values: seq<K>)
    ensures |values| == |column| - Occurrences(column, None)
    ensures forall k :: Occurrences(values, k) == Occurrences(column, Some(k))
    ensures forall k :: k in values <==> Some(k) in column
  {
    if column == [] then []
    else
      var rest := Present(column[1..]);
      match column[0]
      case None => rest
      case Some(v) =>
        assert ([v] + rest)[1..] == rest;
        [v] + rest
  }

  /** The present values of a column are those of its cells that are present. */
  lemma PresentCells<K(!new)>(column: seq<Option<K>>)
    ensures forall k :: k in Present(column) <==> exists i :: 0 <= i < |column| && column[i] == Some(k)
    ensures Present(column) == [] <==> forall i :: 0 <= i < |column| ==> column[i].None?
  {
    if Present(column) != [] {
      assert Present(column)[0] in Present(column);
    }
    forall i | 0 <= i < |column| && column[i].Some? ensures Present(column) != [] {
      assert column[i] in column;
    }
  }

  /** Each key paired with its number of occurrences in `xs`. */
  function Tabulate<K(==)>(keys: seq<K>, xs: seq<K>): (table: seq<(K, nat)>)
    ensures |table| == |keys|
    ensures forall i :: 0 <= i < |keys| ==> table[i] == (keys[i], Occurrences(xs, keys[i]))
  {
    if keys == [] then []
    else [(keys[0], Occurrences(xs, keys[0]))] + Tabulate(keys[1..], xs)
  }

  /** The sum of the counts of a table. */
  function Total<K(==)>(table: seq<(K, nat)>): nat
  {
    if table == [] then 0 else table[0].1 + Total(table[1..])
  }

  lemma {:induction false} TotalOfEmptyColumn<K>(keys: seq<K>)
    ensures Total(Tabulate(keys, [])) == 0
  {
    if keys != [] {
      TotalOfEmptyColumn(keys[1..]);
    }
  }

  /** Adding one cell `x` to the column adds one per key equal to `x`. */
  lemma {:induction false} TotalOfCons<K>(keys: seq<K>, x: K, rest: seq<K>)
    ensures Total(Tabulate(keys, [x] + rest)) == Total(Tabulate(keys, rest)) + Occurrences(keys, x)
  {
    if keys != [] {
      assert ([x] + rest)[1..] == rest;
      TotalOfCons(keys[1..], x, rest);
    }
  }

  lemma {:induction false} OccursOnce<K>(keys: seq<K>, x: K)
    requires NoDuplicates(keys) && x in keys
    ensures Occurrences(keys, x) == 1
  {
    if keys[0] != x {
      assert NoDuplicates(keys[1..]) by {
        forall i, j | 0 <= i < j < |keys[1..]| ensures keys[1..][i] != keys[1..][j] {
          assert keys[1..][i] == keys[i + 1] && keys[1..][j] == keys[j + 1];
        }
      }
      OccursOnce(keys[1..], x);
    } else {
      assert x !in keys[1..] by {
        forall j | 0 <= j < |keys[1..]| ensures keys[1..][j] != x {
          assert keys[1..][j] == keys[j + 1];
        }
      }
    }
  }

  /**
   Counting every cell of `xs` against a list of distinct keys that covers
   all of them accounts for each cell exactly once.
   */
  lemma {:induction false} TotalOfTabulate<K>(keys: seq<K>, xs: seq<K>)
    requires NoDuplicates(keys)
    requires forall x :: x in xs ==> x in keys
    ensures Total(Tabulate(keys, xs)) == |xs|
  {
    if xs == [] {
      TotalOfEmptyColumn(keys);
    } else {
      assert xs == [xs[0]] + xs[1..];
      TotalOfCons(keys, xs[0], xs[1..]);
      OccursOnce(keys, xs[0]);
      TotalOfTabulate(keys, xs[1..]);
    }
  }

  /** The distinct values of `xs`, in order of first appearance. */
  function Unique<K(==,!new)>(xs: seq<K>): (u: seq<K>)
    ensures NoDuplicates(u)
    ensures forall k :: k in u <==> k in xs
  {
    if xs == [] then []
    else
      var init, last := xs[..|xs| - 1], xs[|xs| - 1];
      assert xs == init + [last];
      var u := Unique(init);
      if last in u then u else u + [last]
  }

  /** Counts of `keys` (by occurrences in `xs`) never increase along `s`. */
  predicate ByCount<K(==)>(s: seq<K>, xs: seq<K>)
  {
    forall i, j :: 0 <= i < j < |s| ==> Occurrences(xs, s[i]) >= Occurrences(xs, s[j])
  }

  /** Inserts `k` before the first key that occurs no more often than it. */
  function InsertByCount<K(==,!new)>(k: K, sorted: seq<K>, xs: seq<K>): (r: seq<K>)
    requires ByCount(sorted, xs)
    requires NoDuplicates(sorted) && k !in sorted
    ensures ByCount(r, xs) && NoDuplicates(r)
    ensures |r| == |sorted| + 1
    ensures forall x :: x in r <==> x == k || x in sorted
  {
    if sorted == [] || Occurrences(xs, k) >= Occurrences(xs, sorted[0]) then
      [k] + sorted
    else
      var head, rest := sorted[0], InsertByCount(k, sorted[1..], xs);
      assert forall j :: 0 <= j < |rest| ==> rest[j] in sorted[1..] || rest[j] == k;
      assert forall j :: 0 <= j < |rest| ==> rest[j] != head && Occurrences(xs, head) >= Occurrences(xs, rest[j]);
      [head] + rest
  }

  /** A stable sort of distinct keys by descending number of occurrences. */
  function SortByCount<K(==,!new)>(keys: seq<K>, xs: seq<K>): (r: seq<K>)
    requires NoDuplicates(keys)
    ensures ByCount(r, xs) && NoDuplicates(r)
    ensures forall x :: x in r <==> x in keys
  {
    if keys == [] then []
    else InsertByCount(keys[0], SortByCount(keys[1..], xs), xs)
  }

  /** What a table of distinct keys, sorted by count and covering `xs`, promises. */
  lemma CountTable<K>(keys: seq<K>, xs: seq<K>)
    requires NoDuplicates(keys) && ByCount(keys, xs)
    requires forall x :: x in keys <==> x in xs
    ensures var table := Tabulate(keys, xs);
      && (forall i, j :: 0 <= i < j < |table| ==> table[i].0 != table[j].0)
      && (forall k :: k in xs <==> exists i :: 0 <= i < |table| && table[i].0 == k)
      && (forall i :: 0 <= i < |table| ==> table[i].1 == Occurrences(xs, table[i].0) > 0)
      && (forall i, j :: 0 <= i < j < |table| ==> table[i].1 >= table[j].1)
      && Total(table) == |xs|
  {
    var table := Tabulate(keys, xs);
    TotalOfTabulate(keys, xs);
    forall k | k in xs ensures exists i :: 0 <= i < |table| && table[i].0 == k {
      var i :| 0 <= i < |keys| && keys[i] == k;
      assert table[i].0 == k;
    }
  }

  /**
   pandas' `value_counts` of a column without missing cells: each distinct
   value once, with its count, most frequent first.
   */
  function ValueCounts<K(==,!new)>(xs: seq<K>): (table: seq<(K, nat)>)
    ensures forall i, j :: 0 <= i < j < |table| ==> table[i].0 != table[j].0
    ensures forall k :: k in xs <==> exists i :: 0 <= i < |table| && table[i].0 == k
    ensures forall i :: 0 <= i < |table| ==> table[i].1 == Occurrences(xs, table[i].0) > 0
    ensures forall i, j :: 0 <= i < j < |table| ==> table[i].1 >= table[j].1
    ensures Total(table) == |xs|
  {
    var keys := SortByCount(Unique(xs), xs);
    CountTable(keys, xs);
    Tabulate(keys, xs)
  }

}
