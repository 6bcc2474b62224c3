/**
 * The laws a codec is meant to obey, and what they buy: with encoders that
 * never fail, decoders that invert them and a key encoding whose byte order is
 * the key type's own order, the engine's ordered byte map behaves as an
 * ordered, last-write-wins map of typed rows.
 */
module EncodingLaws {
  import opened Wrappers
  import opened Bytes
  import opened Errors
  import opened Engine
  import opened Entries
  import opened Iter

  /** The bytes of a key; a lawful codec always encodes, so the fallback is never used. */
  function KeyBytes<K, V>(c: Codec<K, V>, k: K): Bytes
  {
    if c.keyToBytes(k).Ok? then c.keyToBytes(k).value else []
  }

  function ValueBytes<K, V>(c: Codec<K, V>, v: V): Bytes
  {
    if c.valueToBytes(v).Ok? then c.valueToBytes(v).value else []
  }

  /** Total encoders, decoders that invert them, and byte order equal to `less`. */
  ghost predicate Lawful<K(!new), V(!new)>(c: Codec<K, V>, less: (K, K) -> bool)
  {
    (forall k :: c.keyToBytes(k).Ok? && c.bytesToKey(c.keyToBytes(k).value) == Ok(k)) &&
    (forall v :: c.valueToBytes(v).Ok? && c.bytesToValue(c.valueToBytes(v).value) == Ok(v)) &&
    (forall a, b :: less(a, b) <==> Less(KeyBytes(c, a), KeyBytes(c, b)))
  }

  ghost predicate StrictTotalOrder<K(!new)>(less: (K, K) -> bool)
  {
    (forall a :: !less(a, a)) &&
    (forall a, b, c :: less(a, b) && less(b, c) ==> less(a, c)) &&
    (forall a, b :: a != b ==> less(a, b) || less(b, a))
  }

  /** Distinct keys have distinct bytes under a lawful codec. */
  lemma KeyBytesInjective<K(!new), V(!new)>(c: Codec<K, V>, less: (K, K) -> bool, a: K, b: K)
    requires Lawful(c, less)
    ensures KeyBytes(c, a) == KeyBytes(c, b) <==> a == b
  {
    if KeyBytes(c, a) == KeyBytes(c, b) {
      assert c.bytesToKey(c.keyToBytes(a).value) == Ok(a);
      assert c.bytesToKey(c.keyToBytes(b).value) == Ok(b);
    }
  }

  /** A key order that byte order reflects is a strict total order. */
  lemma LawfulOrder<K(!new), V(!new)>(c: Codec<K, V>, less: (K, K) -> bool)
    requires Lawful(c, less)
    ensures StrictTotalOrder(less)
  {
    LessIsStrictTotalOrder();
    forall a, b | a != b ensures less(a, b) || less(b, a) {
      KeyBytesInjective(c, less, a, b);
    }
  }

  predicate StrictlySorted<K, V>(rows: seq<Row<K, V>>, less: (K, K) -> bool)
  {
    forall i, j :: 0 <= i < j < |rows| ==> less(rows[i].key, rows[j].key)
  }

  /** The map a sequence of writes leaves behind: a later row overrides an earlier one with the same key. */
  function LastWins<K, V>(rows: seq<Row<K, V>>): map<K, V>
  {
    if rows == [] then map[] else map[rows[0].key := rows[0].value] + LastWins(rows[1..])
  }

  lemma LastWinsCons<K, V>(x: Row<K, V>, rows: seq<Row<K, V>>)
    ensures LastWins([x] + rows) == map[x.key := x.value] + LastWins(rows)
  {
    assert ([x] + rows)[1..] == rows;
  }

  lemma {:induction false} LastWinsAppend<K, V>(a: seq<Row<K, V>>, b: seq<Row<K, V>>)
    ensures LastWins(a + b) == LastWins(a) + LastWins(b)
  {
    if a == [] {
      assert a + b == b;
    } else {
      assert (a + b)[1..] == a[1..] + b;
      LastWinsAppend(a[1..], b);
      var h := map[a[0].key := a[0].value];
      assert h + (LastWins(a[1..]) + LastWins(b)) == (h + LastWins(a[1..])) + LastWins(b);
    }
  }

  /** Writing one more row updates its key. */
  lemma LastWinsSnoc<K, V>(rows: seq<Row<K, V>>, x: Row<K, V>)
    ensures LastWins(rows + [x]) == LastWins(rows)[x.key := x.value]
  {
    LastWinsAppend(rows, [x]);
    LastWinsCons(x, []);
  }

  /** The keys a sequence of rows mentions. */
  ghost function KeysOf<K, V>(rows: seq<Row<K, V>>): set<K>
  {
    set i | 0 <= i < |rows| :: rows[i].key
  }

  lemma {:induction false} LastWinsKeys<K, V>(rows: seq<Row<K, V>>)
    ensures LastWins(rows).Keys == KeysOf(rows)
  {
    if rows != [] {
      LastWinsKeys(rows[1..]);
      assert KeysOf(rows) == {rows[0].key} + KeysOf(rows[1..]) by {
        forall k | k in KeysOf(rows) ensures k in {rows[0].key} + KeysOf(rows[1..]) {
          var i :| 0 <= i < |rows| && rows[i].key == k;
          if i > 0 {
            assert rows[1..][i - 1].key == k;
          }
        }
        forall k | k in KeysOf(rows[1..]) ensures k in KeysOf(rows) {
          var i :| 0 <= i < |rows[1..]| && rows[1..][i].key == k;
          assert rows[i + 1].key == k;
        }
      }
    }
  }

  /** Only the empty sequence stands for the empty map. */
  lemma LastWinsEmpty<K, V>(rows: seq<Row<K, V>>)
    ensures LastWins(rows) == map[] <==> rows == []
  {
    if rows != [] {
      assert rows[0].key in LastWins(rows);
    }
  }

  /** Adding a key the map does not hold, in front or as an update, is the same. */
  lemma FreshKeyInFront<K, V>(k: K, v: V, m: map<K, V>)
    requires k !in m
    ensures map[k := v] + m == m[k := v]
  {
  }

  /** An update after a merge can be made to the right-hand map instead. */
  lemma UpdateAfterMerge<K, V>(a: map<K, V>, b: map<K, V>, k: K, v: V)
    ensures (a + b)[k := v] == a + b[k := v]
    ensures a + map[k := v] == a[k := v]
  {
  }

  /** In a strictly sorted sequence the first key does not occur again. */
  lemma HeadNotInTail<K(!new), V>(rows: seq<Row<K, V>>, less: (K, K) -> bool)
    requires StrictTotalOrder(less) && StrictlySorted(rows, less) && rows != []
    ensures StrictlySorted(rows[1..], less)
    ensures rows[0].key !in LastWins(rows[1..])
    ensures LastWins(rows) == LastWins(rows[1..])[rows[0].key := rows[0].value]
  {
    LastWinsKeys(rows[1..]);
    forall i | 0 <= i < |rows[1..]| ensures rows[1..][i].key != rows[0].key {
      assert less(rows[0].key, rows[i + 1].key);
    }
    FreshKeyInFront(rows[0].key, rows[0].value, LastWins(rows[1..]));
    assert forall i, j :: 0 <= i < j < |rows[1..]| ==> rows[1..][i] == rows[i + 1] && rows[1..][j] == rows[j + 1];
  }

  /** An ordered upsert of one row into rows sorted by `less` (the typed counterpart of `Engine.Put`). */
  function Upsert<K(==), V>(rows: seq<Row<K, V>>, r: Row<K, V>, less: (K, K) -> bool): seq<Row<K, V>>
  {
    if rows == [] then [r]
    else if rows[0].key == r.key then [r] + rows[1..]
    else if less(r.key, rows[0].key) then [r] + rows
    else [rows[0]] + Upsert(rows[1..], r, less)
  }

  lemma {:induction false} UpsertMembers<K, V>(rows: seq<Row<K, V>>, r: Row<K, V>, less: (K, K) -> bool)
    ensures forall x :: x in Upsert(rows, r, less) ==> x == r || x in rows
  {
    if rows != [] && rows[0].key != r.key && !less(r.key, rows[0].key) {
      UpsertMembers(rows[1..], r, less);
    }
  }

  /** Upserting keeps rows strictly sorted. */
  lemma {:induction false} UpsertSorted<K(!new), V>(rows: seq<Row<K, V>>, r: Row<K, V>, less: (K, K) -> bool)
    requires StrictTotalOrder(less) && StrictlySorted(rows, less)
    ensures StrictlySorted(Upsert(rows, r, less), less)
  {
    if rows != [] {
      HeadNotInTail(rows, less);
      var u := Upsert(rows, r, less);
      if rows[0].key == r.key {
        assert forall j :: 0 < j < |u| ==> u[j] == rows[j];
      } else if less(r.key, rows[0].key) {
        assert forall j :: 0 < j < |u| ==> u[j] == rows[j - 1];
      } else {
        var rest := Upsert(rows[1..], r, less);
        UpsertSorted(rows[1..], r, less);
        UpsertMembers(rows[1..], r, less);
        assert u == [rows[0]] + rest;
        forall i, j | 0 <= i < j < |u| ensures less(u[i].key, u[j].key) {
          if i == 0 {
            assert u[j] == rest[j - 1] && u[j] in rest;
            if u[j] != r {
              var k :| 0 <= k < |rows[1..]| && rows[1..][k] == u[j];
              assert rows[k + 1] == u[j];
            }
          } else {
            assert u[i] == rest[i - 1] && u[j] == rest[j - 1];
          }
        }
      }
    }
  }

  /** Upserting updates the row's key in the map of a sorted sequence. */
  lemma {:induction false} UpsertLastWins<K(!new), V>(rows: seq<Row<K, V>>, r: Row<K, V>, less: (K, K) -> bool)
    requires StrictTotalOrder(less) && StrictlySorted(rows, less)
    ensures LastWins(Upsert(rows, r, less)) == LastWins(rows)[r.key := r.value]
  {
    if rows == [] {
      LastWinsCons(r, []);
    } else {
      HeadNotInTail(rows, less);
      if rows[0].key == r.key {
        LastWinsCons(r, rows[1..]);
        FreshKeyInFront(r.key, r.value, LastWins(rows[1..]));
      } else if less(r.key, rows[0].key) {
        LastWinsCons(r, rows);
        LastWinsKeys(rows);
        forall i | 0 <= i < |rows| ensures rows[i].key != r.key {
          if i > 0 {
            assert less(rows[0].key, rows[i].key);
          }
        }
        FreshKeyInFront(r.key, r.value, LastWins(rows));
      } else {
        UpsertLastWins(rows[1..], r, less);
        LastWinsCons(rows[0], Upsert(rows[1..], r, less));
        UpdateAfterMerge(map[rows[0].key := rows[0].value], LastWins(rows[1..]), r.key, r.value);
      }
    }
  }

  /** Rows written one after another into an empty table, each an ordered upsert. */
  function UpsertFold<K(==), V>(values: seq<Row<K, V>>, less: (K, K) -> bool): seq<Row<K, V>>
  {
    if values == [] then []
    else Upsert(UpsertFold(values[..|values| - 1], less), values[|values| - 1], less)
  }

  /** After any sequence of writes the table is sorted and holds, for each key, the last value written. */
  lemma {:induction false} UpsertFoldSpec<K(!new), V>(values: seq<Row<K, V>>, less: (K, K) -> bool)
    requires StrictTotalOrder(less)
    ensures StrictlySorted(UpsertFold(values, less), less)
    ensures LastWins(UpsertFold(values, less)) == LastWins(values)
  {
    if values != [] {
      var init := values[..|values| - 1];
      var last := values[|values| - 1];
      UpsertFoldSpec(init, less);
      UpsertSorted(UpsertFold(init, less), last, less);
      UpsertLastWins(UpsertFold(init, less), last, less);
      assert values == init + [last];
      LastWinsSnoc(init, last);
    }
  }

  /** The first key of a strictly sorted sequence is its least. */
  lemma SortedHeadIsLeast<K, V>(rows: seq<Row<K, V>>, less: (K, K) -> bool)
    requires StrictlySorted(rows, less) && rows != []
    ensures forall k :: k in LastWins(rows) ==> k == rows[0].key || less(rows[0].key, k)
  {
    LastWinsKeys(rows);
  }

  /** Two strictly sorted, non-empty sequences for the same map start with the same key. */
  lemma SameHeadKey<K(!new), V>(a: seq<Row<K, V>>, b: seq<Row<K, V>>, less: (K, K) -> bool)
    requires StrictTotalOrder(less)
    requires StrictlySorted(a, less) && StrictlySorted(b, less)
    requires LastWins(a) == LastWins(b) && a != [] && b != []
    ensures a[0].key == b[0].key
  {
    LastWinsKeys(a);
    LastWinsKeys(b);
    SortedHeadIsLeast(a, less);
    SortedHeadIsLeast(b, less);
    var x, y := a[0].key, b[0].key;
    assert x in KeysOf(a) && y in KeysOf(b);
    assert (x == y || less(y, x)) && (x == y || less(x, y));
    assert !(less(x, y) && less(y, x)) by {
      assert less(x, y) && less(y, x) ==> less(x, x);
    }
  }

  /** ... and then the same row, and tails that stand for the same map. */
  lemma SameHead<K(!new), V>(a: seq<Row<K, V>>, b: seq<Row<K, V>>, less: (K, K) -> bool)
    requires StrictTotalOrder(less)
    requires StrictlySorted(a, less) && StrictlySorted(b, less)
    requires LastWins(a) == LastWins(b) && a != [] && b != []
    ensures a[0] == b[0]
    ensures LastWins(a[1..]) == LastWins(b[1..])
  {
    SameHeadKey(a, b, less);
    HeadNotInTail(a, less);
    HeadNotInTail(b, less);
    var k := a[0].key;
    assert LastWins(a)[k] == a[0].value && LastWins(b)[k] == b[0].value;
    assert LastWins(a[1..]) == LastWins(a) - {k};
    assert LastWins(b[1..]) == LastWins(b) - {k};
  }

  /** A strictly sorted sequence of rows is determined by the map it stands for. */
  lemma {:induction false} SortedRowsUnique<K(!new), V>(a: seq<Row<K, V>>, b: seq<Row<K, V>>, less: (K, K) -> bool)
    requires StrictTotalOrder(less)
    requires StrictlySorted(a, less) && StrictlySorted(b, less)
    requires LastWins(a) == LastWins(b)
    ensures a == b
    decreases |a|
  {
    LastWinsKeys(a);
    LastWinsKeys(b);
    assert a == [] <==> b == [] by {
      assert a != [] ==> a[0].key in KeysOf(a);
      assert b != [] ==> b[0].key in KeysOf(b);
    }
    if a != [] {
      SameHead(a, b, less);
      HeadNotInTail(a, less);
      HeadNotInTail(b, less);
      SortedRowsUnique(a[1..], b[1..], less);
      assert a == [a[0]] + a[1..] && b == [b[0]] + b[1..];
    }
  }

  /** The partition that stores `rows`, encoded pair by pair. */
  function Encode<K, V>(c: Codec<K, V>, rows: seq<Row<K, V>>): (p: Partition)
    ensures |p| == |rows|
    ensures forall i :: 0 <= i < |rows| ==> p[i] == (KeyBytes(c, rows[i].key), ValueBytes(c, rows[i].value))
  {
    if rows == [] then []
    else [(KeyBytes(c, rows[0].key), ValueBytes(c, rows[0].value))] + Encode(c, rows[1..])
  }

  /** Storing a sorted table under a lawful codec keeps the partition in key order. */
  lemma SortedEncodesOrdered<K(!new), V(!new)>(c: Codec<K, V>, less: (K, K) -> bool, rows: seq<Row<K, V>>)
    requires Lawful(c, less) && StrictlySorted(rows, less)
    ensures Ordered(Encode(c, rows))
  {
  }

  /** A write through the engine is an ordered upsert of the typed row. */
  lemma {:induction false} PutEncode<K(!new), V(!new)>(c: Codec<K, V>, less: (K, K) -> bool, rows: seq<Row<K, V>>, r: Row<K, V>)
    requires Lawful(c, less)
    ensures Put(Encode(c, rows), KeyBytes(c, r.key), ValueBytes(c, r.value)) == Encode(c, Upsert(rows, r, less))
  {
    if rows != [] {
      var p := Encode(c, rows);
      assert p[1..] == Encode(c, rows[1..]);
      KeyBytesInjective(c, less, rows[0].key, r.key);
      if rows[0].key != r.key && !less(r.key, rows[0].key) {
        PutEncode(c, less, rows[1..], r);
      }
    }
  }

  /** Iterating a stored table and collecting the results gives back exactly its rows, in order. */
  lemma CursorRoundTrip<K(!new), V(!new)>(c: Codec<K, V>, less: (K, K) -> bool, rows: seq<Row<K, V>>)
    requires Lawful(c, less)
    ensures CollectResults(DecodedEntries(c, Cursor(Encode(c, rows)))) == Ok(rows)
  {
    var items := DecodedEntries(c, Cursor(Encode(c, rows)));
    forall i | 0 <= i < |rows| ensures items[i] == Ok(rows[i]) {
      assert c.bytesToKey(c.keyToBytes(rows[i].key).value) == Ok(rows[i].key);
      assert c.bytesToValue(c.valueToBytes(rows[i].value).value) == Ok(rows[i].value);
    }
    var r := CollectResults(items);
    assert r.Ok?;
    assert r.value == rows;
  }

  /** The rows accepted by `f`, in order (`iter().filter(f)`). */
  function FilterRows<K, V>(rows: seq<Row<K, V>>, f: Row<K, V> -> bool): (r: seq<Row<K, V>>)
    ensures forall i :: 0 <= i < |r| ==> r[i] in rows && f(r[i])
    ensures forall i :: 0 <= i < |rows| && f(rows[i]) ==> rows[i] in r
  {
    if rows == [] then []
    else
      assert forall i :: 0 < i < |rows| ==> rows[i] == rows[1..][i - 1];
      if f(rows[0]) then [rows[0]] + FilterRows(rows[1..], f) else FilterRows(rows[1..], f)
  }

  /** A prefix scan of a stored table is the table filtered by whatever the prefix test stands for. */
  lemma {:induction false} PrefixScanEncode<K, V>(c: Codec<K, V>, rows: seq<Row<K, V>>, prefix: Bytes, f: Row<K, V> -> bool)
    requires forall i :: 0 <= i < |rows| ==> (IsPrefix(prefix, KeyBytes(c, rows[i].key)) <==> f(rows[i]))
    ensures WithPrefix(Encode(c, rows), prefix) == Encode(c, FilterRows(rows, f))
  {
    if rows != [] {
      var p := Encode(c, rows);
      assert p[1..] == Encode(c, rows[1..]);
      assert forall i :: 0 <= i < |rows[1..]| ==> rows[1..][i] == rows[i + 1];
      PrefixScanEncode(c, rows[1..], prefix, f);
      assert f(rows[0]) <==> IsPrefix(prefix, p[0].0);
    }
  }
}
