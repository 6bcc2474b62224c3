/**
 * `sort_and_dedup`, the reference the tests compare every read against: the
 * entries are sorted by key with a stable sort, then each run of equal keys
 * is reduced to its last entry, so for each key the last value written wins.
 */
module SortDedup {
  import opened Entries
  import opened EncodingLaws

  /** Sorted by key, duplicates allowed: no later key is smaller. */
  predicate SortedByKey<K, V>(rows: seq<Row<K, V>>, less: (K, K) -> bool)
  {
    forall i, j :: 0 <= i < j < |rows| ==> !less(rows[j].key, rows[i].key)
  }

  /** Inserts `x` behind every row whose key is not greater than its own, which makes the sort stable. */
  function InsertStable<K, V>(rows: seq<Row<K, V>>, x: Row<K, V>, less: (K, K) -> bool): (r: seq<Row<K, V>>)
    ensures multiset(r) == multiset(rows) + multiset{x}
  {
    if rows == [] then [x]
    else if less(x.key, rows[0].key) then [x] + rows
    else
      assert rows == [rows[0]] + rows[1..];
      [rows[0]] + InsertStable(rows[1..], x, less)
  }

  /** `sort_by_key`: a stable sort, here by insertion from the front. */
  function StableSort<K, V>(values: seq<Row<K, V>>, less: (K, K) -> bool): (r: seq<Row<K, V>>)
    ensures multiset(r) == multiset(values)
  {
    if values == [] then []
    else
      assert values == values[..|values| - 1] + [values[|values| - 1]];
      InsertStable(StableSort(values[..|values| - 1], less), values[|values| - 1], less)
  }

  lemma {:induction false} InsertStableSorted<K(!new), V>(rows: seq<Row<K, V>>, x: Row<K, V>, less: (K, K) -> bool)
    requires StrictTotalOrder(less) && SortedByKey(rows, less)
    ensures SortedByKey(InsertStable(rows, x, less), less)
  {
    if rows != [] && !less(x.key, rows[0].key) {
      var rest := InsertStable(rows[1..], x, less);
      InsertStableSorted(rows[1..], x, less);
      assert multiset(rest) == multiset(rows[1..]) + multiset{x};
      var u := [rows[0]] + rest;
      forall i, j | 0 <= i < j < |u| ensures !less(u[j].key, u[i].key) {
        if i == 0 {
          assert u[j] in multiset(rest);
          if u[j] != x {
            assert u[j] in rows[1..];
            var m :| 0 <= m < |rows[1..]| && rows[1..][m] == u[j];
            assert rows[m + 1] == u[j];
          }
        } else {
          assert u[i] == rest[i - 1] && u[j] == rest[j - 1];
        }
      }
    } else if rows != [] {
      var u := [x] + rows;
      forall i, j | 0 <= i < j < |u| ensures !less(u[j].key, u[i].key) {
        if i == 0 {
          assert u[j] == rows[j - 1];
          if j > 1 {
            assert !less(rows[j - 1].key, rows[0].key);
          }
        } else {
          assert u[i] == rows[i - 1] && u[j] == rows[j - 1];
        }
      }
    }
  }

  lemma {:induction false} InsertStableLastWins<K(!new), V>(rows: seq<Row<K, V>>, x: Row<K, V>, less: (K, K) -> bool)
    requires StrictTotalOrder(less) && SortedByKey(rows, less)
    ensures LastWins(InsertStable(rows, x, less)) == LastWins(rows)[x.key := x.value]
  {
    if rows == [] {
      LastWinsCons(x, []);
    } else if less(x.key, rows[0].key) {
      LastWinsCons(x, rows);
      LastWinsKeys(rows);
      forall i | 0 <= i < |rows| ensures rows[i].key != x.key {
        if i > 0 {
          assert !less(rows[i].key, rows[0].key);
        }
      }
      FreshKeyInFront(x.key, x.value, LastWins(rows));
    } else {
      assert forall i, j :: 0 <= i < j < |rows[1..]| ==> rows[1..][i] == rows[i + 1] && rows[1..][j] == rows[j + 1];
      InsertStableLastWins(rows[1..], x, less);
      LastWinsCons(rows[0], InsertStable(rows[1..], x, less));
      LastWinsCons(rows[0], rows[1..]);
      UpdateAfterMerge(map[rows[0].key := rows[0].value], LastWins(rows[1..]), x.key, x.value);
      assert [rows[0]] + rows[1..] == rows;
    }
  }

  /** The sort orders by key. */
  lemma {:induction false} StableSortSorted<K(!new), V>(values: seq<Row<K, V>>, less: (K, K) -> bool)
    requires StrictTotalOrder(less)
    ensures SortedByKey(StableSort(values, less), less)
  {
    if values != [] {
      var init := values[..|values| - 1];
      StableSortSorted(init, less);
      InsertStableSorted(StableSort(init, less), values[|values| - 1], less);
    }
  }

  /** The sort keeps every entry and leaves the last value of each key last. */
  lemma {:induction false} StableSortLastWins<K(!new), V>(values: seq<Row<K, V>>, less: (K, K) -> bool)
    requires StrictTotalOrder(less)
    ensures LastWins(StableSort(values, less)) == LastWins(values)
  {
    if values != [] {
      var init := values[..|values| - 1];
      var last := values[|values| - 1];
      var sortedInit := StableSort(init, less);
      StableSortSorted(init, less);
      calc {
        LastWins(StableSort(values, less));
        LastWins(InsertStable(sortedInit, last, less));
        { InsertStableLastWins(sortedInit, last, less); }
        LastWins(sortedInit)[last.key := last.value];
        { StableSortLastWins(init, less); }
        LastWins(init)[last.key := last.value];
        { LastWinsSnoc(init, last); }
        LastWins(init + [last]);
        { assert values == init + [last]; }
        LastWins(values);
      }
    }
  }

  /** A run of rows that all have key `k` stands for its last value. */
  lemma {:induction false} RunLastWins<K, V>(run: seq<Row<K, V>>, k: K)
    requires run != [] && forall m :: 0 <= m < |run| ==> run[m].key == k
    ensures LastWins(run) == map[k := run[|run| - 1].value]
  {
    if |run| > 1 {
      RunLastWins(run[1..], k);
      assert run[1..][|run[1..]| - 1] == run[|run| - 1];
    }
  }

  /** Appending a row with a greater key than the last keeps a sequence strictly sorted. */
  lemma AppendSorted<K(!new), V>(rows: seq<Row<K, V>>, x: Row<K, V>, less: (K, K) -> bool)
    requires StrictTotalOrder(less) && StrictlySorted(rows, less)
    requires rows != [] ==> less(rows[|rows| - 1].key, x.key)
    ensures StrictlySorted(rows + [x], less)
  {
    var u := rows + [x];
    forall i, j | 0 <= i < j < |u| ensures less(u[i].key, u[j].key) {
      if j == |rows| && i < |rows| - 1 {
        assert less(rows[i].key, rows[|rows| - 1].key);
      }
    }
  }

  /** The rows up to the end of a run stand for the rows before it, updated with the run's last value. */
  lemma RunEndLastWins<K, V>(sorted: seq<Row<K, V>>, i: nat, j: nat)
    requires i < j <= |sorted|
    requires forall m :: i <= m < j ==> sorted[m].key == sorted[i].key
    ensures LastWins(sorted[..j]) == LastWins(sorted[..i])[sorted[i].key := sorted[j - 1].value]
  {
    var k := sorted[i].key;
    RunLastWins(sorted[i..j], k);
    assert sorted[..j] == sorted[..i] + sorted[i..j];
    LastWinsAppend(sorted[..i], sorted[i..j]);
    UpdateAfterMerge(LastWins(sorted[..i]), map[], k, sorted[j - 1].value);
  }

  /** In a sorted sequence, a key that differs from the previous one is greater than it. */
  lemma NextKeyGreater<K(!new), V>(sorted: seq<Row<K, V>>, i: nat, less: (K, K) -> bool)
    requires StrictTotalOrder(less) && SortedByKey(sorted, less)
    requires 0 < i < |sorted| && sorted[i].key != sorted[i - 1].key
    ensures less(sorted[i - 1].key, sorted[i].key)
  {
    assert !less(sorted[i].key, sorted[i - 1].key);
  }

  /** Pushing the last row of the run `sorted[i..j]` keeps the dedup loop's invariant. */
  lemma DedupStep<K(!new), V>(sorted: seq<Row<K, V>>, result: seq<Row<K, V>>, i: nat, j: nat, less: (K, K) -> bool)
    requires StrictTotalOrder(less) && SortedByKey(sorted, less)
    requires i < j <= |sorted|
    requires StrictlySorted(result, less) && LastWins(result) == LastWins(sorted[..i])
    requires 0 < i ==> result != [] && result[|result| - 1].key == sorted[i - 1].key
    requires 0 < i ==> sorted[i].key != sorted[i - 1].key
    requires forall m :: i <= m < j ==> sorted[m].key == sorted[i].key
    ensures StrictlySorted(result + [sorted[j - 1]], less)
    ensures LastWins(result + [sorted[j - 1]]) == LastWins(sorted[..j])
  {
    RunEndLastWins(sorted, i, j);
    assert sorted[j - 1].key == sorted[i].key;
    if 0 < i {
      NextKeyGreater(sorted, i, less);
    } else {
      LastWinsEmpty(result);
    }
    AppendSorted(result, sorted[j - 1], less);
    LastWinsSnoc(result, sorted[j - 1]);
  }

  /** The end of the run of equal keys that starts at `i`: the first later position with a different key, or the end. */
  method RunEnd<K(==), V>(sorted: seq<Row<K, V>>, i: nat) returns (j: nat)
    requires i < |sorted|
    ensures i < j <= |sorted|
    ensures forall m :: i <= m < j ==> sorted[m].key == sorted[i].key
    ensures j < |sorted| ==> sorted[j].key != sorted[i].key
  {
    j := i + 1;
    while j < |sorted| && sorted[j].key == sorted[i].key
      invariant i < j <= |sorted|
      invariant forall m :: i <= m < j ==> sorted[m].key == sorted[i].key
    {
      j := j + 1;
    }
  }

  /**
   * `sort_and_dedup`: sorts a copy of `values` by key, then pushes the last
   * entry of each run of equal keys. The result is strictly sorted and holds,
   * for each key, the value written last in `values`.
   */
  method SortAndDedup<K(==, !new), V>(values: seq<Row<K, V>>, less: (K, K) -> bool) returns (result: seq<Row<K, V>>)
    requires StrictTotalOrder(less)
    ensures StrictlySorted(result, less)
    ensures LastWins(result) == LastWins(values)
  {
    var sorted := StableSort(values, less);
    StableSortSorted(values, less);
    StableSortLastWins(values, less);
    result := [];
    var i := 0;
    while i < |sorted|
      invariant 0 <= i <= |sorted|
      invariant StrictlySorted(result, less)
      invariant LastWins(result) == LastWins(sorted[..i])
      invariant 0 < i ==> result != [] && result[|result| - 1].key == sorted[i - 1].key
      invariant 0 < i < |sorted| ==> sorted[i].key != sorted[i - 1].key
    {
      var j := RunEnd(sorted, i);
      DedupStep(sorted, result, i, j, less);
      result := result + [sorted[j - 1]];
      i := j;
    }
    assert sorted[..i] == sorted;
  }

  /** Any two results meeting `sort_and_dedup`'s specification are equal; an ordered upsert of each write in turn meets it. */
  lemma SortAndDedupIsUpsertFold<K(!new), V>(values: seq<Row<K, V>>, result: seq<Row<K, V>>, less: (K, K) -> bool)
    requires StrictTotalOrder(less)
    requires StrictlySorted(result, less) && LastWins(result) == LastWins(values)
    ensures result == UpsertFold(values, less)
  {
    UpsertFoldSpec(values, less);
    SortedRowsUnique(result, UpsertFold(values, less), less);
  }
}
