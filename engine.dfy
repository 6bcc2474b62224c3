/**
 * The embedded engine, reduced to what the layer relies on: a default
 * partition and named partitions (column families), each an ordered map
 * from key bytes to value bytes kept as a key-ordered sequence of pairs,
 * with point reads, batched reads, full and prefix scans, and upserts;
 * plus the option values the layer sets before opening it.
 */
module Engine {
  import opened Wrappers
  import opened Bytes
  import opened Errors

  /** A partition's contents, in key order. */
  type Partition = seq<(Bytes, Bytes)>

  /** The contents of all open partitions; `cfs.Keys` are the open partition names. */
  datatype Store = Store(defaultCf: Partition, cfs: map<string, Partition>)

  /** One item yielded by a raw engine cursor. */
  type RawItem = Result<(Bytes, Bytes), Error>

  ghost predicate Ordered(p: Partition)
  {
    forall i, j :: 0 <= i < j < |p| ==> Less(p[i].0, p[j].0)
  }

  ghost predicate Valid(s: Store)
  {
    Ordered(s.defaultCf) && forall n :: n in s.cfs ==> Ordered(s.cfs[n])
  }

  function KeySet(p: Partition): set<Bytes>
  {
    set i | 0 <= i < |p| :: p[i].0
  }

  lemma KeySetCons(kv: (Bytes, Bytes), p: Partition)
    ensures KeySet([kv] + p) == {kv.0} + KeySet(p)
  {
    var q := [kv] + p;
    forall k | k in KeySet(q) ensures k in {kv.0} + KeySet(p) {
      var i :| 0 <= i < |q| && q[i].0 == k;
      if i > 0 {
        assert q[i] == p[i - 1];
      }
    }
    forall k | k in KeySet(p) ensures k in KeySet(q) {
      var i :| 0 <= i < |p| && p[i].0 == k;
      assert q[i + 1] == p[i];
    }
    assert q[0] == kv;
  }

  /** The abstract map a partition stands for (the first pair for a key wins). */
  function AsMap(p: Partition): map<Bytes, Bytes>
  {
    if p == [] then map[] else AsMap(p[1..])[p[0].0 := p[0].1]
  }

  /** A point read (`get_pinned`, `get_pinned_cf`). */
  function Get(p: Partition, k: Bytes): (r: Option<Bytes>)
    ensures r.Some? <==> k in AsMap(p)
    ensures r.Some? ==> r.value == AsMap(p)[k]
  {
    if p == [] then None
    else if p[0].0 == k then Some(p[0].1)
    else Get(p[1..], k)
  }

  /** An upsert (`put`, `put_cf`): the new pair takes the key's place in key order. */
  function Put(p: Partition, k: Bytes, v: Bytes): Partition
  {
    if p == [] then [(k, v)]
    else if p[0].0 == k then [(k, v)] + p[1..]
    else if Less(k, p[0].0) then [(k, v)] + p
    else [p[0]] + Put(p[1..], k, v)
  }

  /** Put is a map update of the abstract map: the written value replaces any earlier one. */
  lemma {:induction false} PutAsMap(p: Partition, k: Bytes, v: Bytes)
    ensures AsMap(Put(p, k, v)) == AsMap(p)[k := v]
  {
    if p != [] && p[0].0 != k && !Less(k, p[0].0) {
      var rest := Put(p[1..], k, v);
      assert ([p[0]] + rest)[1..] == rest;
      PutAsMap(p[1..], k, v);
    } else if p != [] && p[0].0 == k {
      assert ([(k, v)] + p[1..])[1..] == p[1..];
    } else if p != [] {
      assert ([(k, v)] + p)[1..] == p;
    }
  }

  lemma {:induction false} PutKeySet(p: Partition, k: Bytes, v: Bytes)
    ensures KeySet(Put(p, k, v)) == KeySet(p) + {k}
  {
    if p == [] {
      assert KeySet([(k, v)]) == {k} by {
        KeySetCons((k, v), []);
      }
    } else {
      KeySetCons(p[0], p[1..]);
      assert [p[0]] + p[1..] == p;
      if p[0].0 == k {
        KeySetCons((k, v), p[1..]);
      } else if Less(k, p[0].0) {
        KeySetCons((k, v), p);
      } else {
        PutKeySet(p[1..], k, v);
        KeySetCons(p[0], Put(p[1..], k, v));
      }
    }
  }

  lemma OrderedTail(p: Partition)
    requires Ordered(p) && p != []
    ensures Ordered(p[1..])
  {
    forall i, j | 0 <= i < j < |p[1..]| ensures Less(p[1..][i].0, p[1..][j].0) {
      assert p[1..][i] == p[i + 1] && p[1..][j] == p[j + 1];
    }
  }

  /** A head below every key of an ordered tail keeps the sequence ordered. */
  lemma OrderedCons(kv: (Bytes, Bytes), p: Partition)
    requires Ordered(p)
    requires forall k :: k in KeySet(p) ==> Less(kv.0, k)
    ensures Ordered([kv] + p)
  {
    var q := [kv] + p;
    forall i, j | 0 <= i < j < |q| ensures Less(q[i].0, q[j].0) {
      assert q[j] == p[j - 1];
      assert p[j - 1].0 in KeySet(p);
      if i > 0 {
        assert q[i] == p[i - 1];
      }
    }
  }

  /** Put keeps a partition in key order. */
  lemma {:induction false} PutOrdered(p: Partition, k: Bytes, v: Bytes)
    requires Ordered(p)
    ensures Ordered(Put(p, k, v))
  {
    LessIsStrictTotalOrder();
    if p == [] {
    } else {
      OrderedTail(p);
      KeySetCons(p[0], p[1..]);
      assert [p[0]] + p[1..] == p;
      forall key | key in KeySet(p[1..]) ensures Less(p[0].0, key) {
        var i :| 0 <= i < |p[1..]| && p[1..][i].0 == key;
        assert p[i + 1] == p[1..][i];
      }
      if p[0].0 == k {
        OrderedCons((k, v), p[1..]);
      } else if Less(k, p[0].0) {
        forall key | key in KeySet(p) ensures Less(k, key) {
          if key != p[0].0 {
            assert Less(p[0].0, key);
          }
        }
        OrderedCons((k, v), p);
      } else {
        PutOrdered(p[1..], k, v);
        PutKeySet(p[1..], k, v);
        OrderedCons(p[0], Put(p[1..], k, v));
      }
    }
  }

  /** The items of a cursor over `p` from its first key (`IteratorMode::Start`); the abstract engine never fails. */
  function Cursor(p: Partition): (r: seq<RawItem>)
    ensures |r| == |p|
    ensures forall i :: 0 <= i < |p| ==> r[i] == Ok(p[i])
  {
    seq(|p|, i requires 0 <= i < |p| => Ok(p[i]))
  }

  /** The pairs a prefix scan visits: exactly the keys that start with `prefix`, in key order. */
  function WithPrefix(p: Partition, prefix: Bytes): (r: Partition)
    ensures forall kv :: kv in r <==> kv in p && IsPrefix(prefix, kv.0)
    ensures Ordered(p) ==> Ordered(r)
    ensures |r| <= |p|
  {
    if p == [] then []
    else
      var rest := WithPrefix(p[1..], prefix);
      assert forall kv :: kv in p <==> kv == p[0] || kv in p[1..];
      assert Ordered(p) ==> Ordered(p[1..]) by {
        if Ordered(p) {
          forall i, j | 0 <= i < j < |p[1..]| ensures Less(p[1..][i].0, p[1..][j].0) {
            assert p[1..][i] == p[i + 1] && p[1..][j] == p[j + 1];
          }
        }
      }
      if IsPrefix(prefix, p[0].0) then
        assert Ordered(p) ==> Ordered([p[0]] + rest) by {
          if Ordered(p) {
            forall j | 0 <= j < |rest| ensures Less(p[0].0, rest[j].0) {
              assert rest[j] in rest;
              var i :| 0 <= i < |p[1..]| && p[1..][i] == rest[j];
              assert p[i + 1] == p[1..][i];
            }
          }
        }
        [p[0]] + rest
      else rest
  }

  /** The empty prefix matches every key, so a scan for it is the full scan. */
  lemma {:induction false} WithPrefixEmpty(p: Partition)
    ensures WithPrefix(p, []) == p
  {
    if p != [] {
      WithPrefixEmpty(p[1..]);
      assert IsPrefix([], p[0].0);
      assert p == [p[0]] + p[1..];
    }
  }

  /** A batched read (`multi_get`, `multi_get_cf`): one slot per key, in order. */
  function MultiGet(p: Partition, keys: seq<Bytes>): (r: seq<Result<Option<Bytes>, Error>>)
    ensures |r| == |keys|
    ensures forall i :: 0 <= i < |keys| ==> r[i] == Ok(Get(p, keys[i]))
  {
    seq(|keys|, i requires 0 <= i < |keys| => Ok(Get(p, keys[i])))
  }

  /** The engine's merge-operator registration, identified by the operator's name. */
  datatype MergeOperator = MergeOperator(name: string)

  /** The engine options the layer sets; everything else keeps the engine's defaults. */
  datatype Options = Options(
    createIfMissing: bool,
    createMissingColumnFamilies: bool,
    prefixExtractor: Option<nat>,      // `SliceTransform::create_fixed_prefix(n)`
    mergeOperator: Option<MergeOperator>)

  /** `Options::default()`: nothing is created and no extractor or operator is set. */
  function DefaultOptions(): Options
  {
    Options(false, false, None, None)
  }

  datatype ColumnFamilyDescriptor = ColumnFamilyDescriptor(name: string, options: Options)
}
