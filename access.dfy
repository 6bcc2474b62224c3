/**
 * The typed access surface over the three engine handles: a plain database,
 * a transactional database and a transaction. Reads are functions of the
 * handle's store; `insert` changes it.
 */
module Access {
  import opened Wrappers
  import opened Bytes
  import opened Errors
  import opened Engine
  import opened Entries
  import opened Iter

  /** Which implementation of the access surface a handle uses. */
  datatype Backend = PlainDb | TransactionDb | Transaction

  /**
   * `cf_handle(name)` with its `InvalidCfName` fallback; an entity without a
   * name reads and writes the default partition.
   */
  function Resolve(s: Store, name: Option<string>): (r: Result<Partition, Error>)
    ensures name.None? ==> r == Ok(s.defaultCf)
    ensures name.Some? ==> (r.Ok? <==> name.value in s.cfs)
    ensures name.Some? && name.value in s.cfs ==> r == Ok(s.cfs[name.value])
    ensures r.Err? ==> r.error == InvalidCfName(name.value)
  {
    match name
    case None => Ok(s.defaultCf)
    case Some(n) => if n in s.cfs then Ok(s.cfs[n]) else Err(InvalidCfName(n))
  }

  /** Entities that keep the default `name` live in the default partition. */
  lemma DefaultNameIsDefaultPartition<K, V>(s: Store, c: Codec<K, V>)
    ensures Resolve(s, WithDefaults(c).name) == Ok(s.defaultCf)
  {
  }

  /**
   * The tail of every point and batched read: an engine error is passed on,
   * an absent key is `Ok(None)`, present bytes are decoded as a value.
   */
  function DecodeFound<K, V>(c: Codec<K, V>, raw: Result<Option<Bytes>, Error>): (r: Result<Option<V>, Error>)
    ensures raw.Err? ==> r == Err(raw.error)
    ensures raw == Ok(None) ==> r == Ok(None)
    ensures raw.Ok? && raw.value.Some? ==>
      (r.Ok? <==> c.bytesToValue(raw.value.value).Ok?) &&
      (r.Ok? ==> r.value == Some(c.bytesToValue(raw.value.value).value)) &&
      (r.Err? ==> r.error == c.bytesToValue(raw.value.value).error)
  {
    var found :- raw;
    match found
    case None => Ok(None)
    case Some(vb) =>
      var v :- c.bytesToValue(vb);
      Ok(Some(v))
  }

  /**
   * `lookup_entry`. The key is encoded before anything else. The plain database
   * then resolves the entity's partition; the transactional database and the
   * transaction read the default partition whatever the entity's name.
   */
  function LookupEntry<K, V>(kind: Backend, s: Store, e: Entry<K, V>, key: K): (r: Result<Option<V>, Error>)
    ensures e.codec.keyToBytes(key).Err? ==> r == Err(e.codec.keyToBytes(key).error)
    ensures kind == PlainDb && e.codec.keyToBytes(key).Ok? && Resolve(s, e.name).Err? ==> r == Err(Resolve(s, e.name).error)
    ensures kind == PlainDb && e.codec.keyToBytes(key).Ok? && Resolve(s, e.name).Ok? ==>
      r == DecodeFound(e.codec, Ok(Get(Resolve(s, e.name).value, e.codec.keyToBytes(key).value)))
    ensures kind != PlainDb && e.codec.keyToBytes(key).Ok? ==>
      r == DecodeFound(e.codec, Ok(Get(s.defaultCf, e.codec.keyToBytes(key).value)))
  {
    var kb :- e.codec.keyToBytes(key);
    var p :- if kind == PlainDb then Resolve(s, e.name) else Ok(s.defaultCf);
    DecodeFound(e.codec, Ok(Get(p, kb)))
  }

  /** The transactional handles never consult the entity's name in `lookup_entry`. */
  lemma TransactionalLookupIgnoresName<K, V>(kind: Backend, s: Store, e: Entry<K, V>, name: Option<string>, key: K)
    requires kind != PlainDb
    ensures LookupEntry(kind, s, e, key) == LookupEntry(kind, s, e.(name := name), key)
    ensures LookupEntry(kind, s, e, key) == LookupEntry(PlainDb, s, e.(name := None), key)
  {
  }

  /** Encoding every key of a batch; the first failure aborts it. */
  function EncodeKeys<K, V>(c: Codec<K, V>, keys: seq<K>): (r: Result<seq<Bytes>, Error>)
    ensures r.Ok? ==> |r.value| == |keys| && forall i :: 0 <= i < |keys| ==> c.keyToBytes(keys[i]) == Ok(r.value[i])
    ensures r.Err? <==> exists i :: 0 <= i < |keys| && c.keyToBytes(keys[i]).Err?
    ensures r.Err? ==> exists i :: (0 <= i < |keys| && c.keyToBytes(keys[i]) == Err(r.error) &&
      forall j :: 0 <= j < i ==> c.keyToBytes(keys[j]).Ok?)
  {
    var encoded := seq(|keys|, i requires 0 <= i < |keys| => c.keyToBytes(keys[i]));
    assert forall i :: 0 <= i < |keys| ==> encoded[i] == c.keyToBytes(keys[i]);
    CollectResults(encoded)
  }

  /** Decoding every slot of a batched read into a vector; any error fails the whole batch. */
  function DecodeAll<K, V>(c: Codec<K, V>, raws: seq<Result<Option<Bytes>, Error>>): (r: Result<seq<Option<V>>, Error>)
    ensures r.Ok? ==> |r.value| == |raws| && forall i :: 0 <= i < |raws| ==> DecodeFound(c, raws[i]) == Ok(r.value[i])
    ensures r.Err? <==> exists i :: 0 <= i < |raws| && DecodeFound(c, raws[i]).Err?
    ensures r.Err? ==> exists i :: (0 <= i < |raws| && DecodeFound(c, raws[i]) == Err(r.error) &&
      forall j :: 0 <= j < i ==> DecodeFound(c, raws[j]).Ok?)
  {
    var decoded := seq(|raws|, i requires 0 <= i < |raws| => DecodeFound(c, raws[i]));
    assert forall i :: 0 <= i < |raws| ==> decoded[i] == DecodeFound(c, raws[i]);
    CollectResults(decoded)
  }

  /**
   * `lookup_entries` (the same in all three implementations): the partition is
   * resolved first, then every key is encoded, then one batched read is decoded.
   */
  function LookupEntries<K, V>(s: Store, e: Entry<K, V>, keys: seq<K>): (r: Result<seq<Option<V>>, Error>)
    ensures Resolve(s, e.name).Err? ==> r == Err(Resolve(s, e.name).error)
    ensures Resolve(s, e.name).Ok? && EncodeKeys(e.codec, keys).Err? ==> r == Err(EncodeKeys(e.codec, keys).error)
    ensures r.Ok? ==> |r.value| == |keys|
  {
    var p :- Resolve(s, e.name);
    var kbs :- EncodeKeys(e.codec, keys);
    DecodeAll(e.codec, MultiGet(p, kbs))
  }

  /**
   * A batched read answers every key as the plain database's point read would,
   * slot by slot, and succeeds exactly when the partition exists and every
   * point read succeeds.
   */
  lemma BatchAgreesWithPointReads<K, V>(s: Store, e: Entry<K, V>, keys: seq<K>)
    ensures LookupEntries(s, e, keys).Ok? <==>
      Resolve(s, e.name).Ok? && forall i :: 0 <= i < |keys| ==> LookupEntry(PlainDb, s, e, keys[i]).Ok?
    ensures LookupEntries(s, e, keys).Ok? ==>
      forall i :: 0 <= i < |keys| ==> LookupEntry(PlainDb, s, e, keys[i]) == Ok(LookupEntries(s, e, keys).value[i])
    ensures LookupEntries(s, e, keys).Err? && Resolve(s, e.name).Ok? && EncodeKeys(e.codec, keys).Ok? ==>
      exists i :: (0 <= i < |keys| && LookupEntry(PlainDb, s, e, keys[i]) == Err(LookupEntries(s, e, keys).error) &&
        forall j :: 0 <= j < i ==> LookupEntry(PlainDb, s, e, keys[j]).Ok?)
  {
    var r := LookupEntries(s, e, keys);
    if Resolve(s, e.name).Ok? {
      var p := Resolve(s, e.name).value;
      var ek := EncodeKeys(e.codec, keys);
      if ek.Ok? {
        var raws := MultiGet(p, ek.value);
        assert r == DecodeAll(e.codec, raws);
        forall i | 0 <= i < |keys|
          ensures LookupEntry(PlainDb, s, e, keys[i]) == DecodeFound(e.codec, raws[i])
        {
          assert e.codec.keyToBytes(keys[i]) == Ok(ek.value[i]);
        }
        if !r.Ok? {
          var i :| 0 <= i < |raws| && DecodeFound(e.codec, raws[i]) == Err(r.error) &&
            forall j :: 0 <= j < i ==> DecodeFound(e.codec, raws[j]).Ok?;
          assert LookupEntry(PlainDb, s, e, keys[i]) == Err(r.error);
        }
      } else {
        var i :| 0 <= i < |keys| && e.codec.keyToBytes(keys[i]).Err?;
        assert LookupEntry(PlainDb, s, e, keys[i]).Err?;
      }
    }
  }

  /** The cursor of `lookup_entries_by_index`: a prefix scan of the entity's partition for the encoded index. */
  function IndexCursor<K, V, I>(s: Store, ix: Indexed<K, V, I>, index: I): (r: Result<seq<RawItem>, Error>)
    ensures Resolve(s, ix.entry.name).Err? ==> r == Err(Resolve(s, ix.entry.name).error)
    ensures Resolve(s, ix.entry.name).Ok? ==> (r.Ok? &&
      forall item :: item in r.value <==> item.Ok? && item.value in Resolve(s, ix.entry.name).value && IsPrefix(ix.indexToBytes(index), item.value.0))
    ensures Resolve(s, ix.entry.name).Ok? && Ordered(Resolve(s, ix.entry.name).value) ==>
      forall i, j :: 0 <= i < j < |r.value| ==> Less(r.value[i].value.0, r.value[j].value.0)
  {
    var p :- Resolve(s, ix.entry.name);
    var q := WithPrefix(p, ix.indexToBytes(index));
    assert forall item :: item in Cursor(q) <==> item.Ok? && item.value in q by {
      forall item ensures item in Cursor(q) <==> item.Ok? && item.value in q {
        if item.Ok? && item.value in q {
          var i :| 0 <= i < |q| && q[i] == item.value;
          assert Cursor(q)[i] == item;
        }
      }
    }
    Ok(Cursor(q))
  }

  /** The cursor of `iter_entries`: the whole partition from its first key. */
  function StartCursor<K, V>(s: Store, e: Entry<K, V>): (r: Result<seq<RawItem>, Error>)
    ensures Resolve(s, e.name).Err? ==> r == Err(Resolve(s, e.name).error)
    ensures Resolve(s, e.name).Ok? ==> r == Ok(Cursor(Resolve(s, e.name).value))
  {
    var p :- Resolve(s, e.name);
    Ok(Cursor(p))
  }

  /**
   * `NON_ZERO_N` is never evaluated here: with `N == 0` the index prefix is empty
   * and an index lookup degenerates to a full scan of the partition.
   */
  lemma ZeroWidthIndexScansAll<K, V, I(!new)>(s: Store, ix: Indexed<K, V, I>, index: I)
    requires FixedWidth(ix) && ix.n == 0
    ensures IndexCursor(s, ix, index) == StartCursor(s, ix.entry)
  {
    assert |ix.indexToBytes(index)| == 0;
    if Resolve(s, ix.entry.name).Ok? {
      WithPrefixEmpty(Resolve(s, ix.entry.name).value);
    }
  }

  /** Replacing the contents of the partition an entity name selects. */
  function Write(s: Store, name: Option<string>, p: Partition): (r: Store)
    requires name.Some? ==> name.value in s.cfs
    ensures r.cfs.Keys == s.cfs.Keys
    ensures Resolve(r, name) == Ok(p)
    ensures forall n :: n in s.cfs && Some(n) != name ==> r.cfs[n] == s.cfs[n]
    ensures name.Some? ==> r.defaultCf == s.defaultCf
  {
    match name
    case None => s.(defaultCf := p)
    case Some(n) => s.(cfs := s.cfs[n := p])
  }

  /**
   * `insert` (the same in all three implementations): the key is encoded, then
   * the value, then the partition is resolved, then the pair is upserted there.
   */
  function InsertEntry<K, V>(s: Store, e: Entry<K, V>, key: K, value: V): (r: Result<Store, Error>)
    ensures e.codec.keyToBytes(key).Err? ==> r == Err(e.codec.keyToBytes(key).error)
    ensures e.codec.keyToBytes(key).Ok? && e.codec.valueToBytes(value).Err? ==> r == Err(e.codec.valueToBytes(value).error)
    ensures e.codec.keyToBytes(key).Ok? && e.codec.valueToBytes(value).Ok? ==> (r.Ok? <==> Resolve(s, e.name).Ok?)
    ensures r.Err? && e.codec.keyToBytes(key).Ok? && e.codec.valueToBytes(value).Ok? ==> r == Err(Resolve(s, e.name).error)
    ensures r.Ok? ==> r.value.cfs.Keys == s.cfs.Keys
    ensures r.Ok? ==> (Resolve(r.value, e.name) ==
      Ok(Put(Resolve(s, e.name).value, e.codec.keyToBytes(key).value, e.codec.valueToBytes(value).value)))
    ensures r.Ok? ==> forall n :: n in s.cfs && Some(n) != e.name ==> r.value.cfs[n] == s.cfs[n]
    ensures r.Ok? && e.name.Some? ==> r.value.defaultCf == s.defaultCf
  {
    var kb :- e.codec.keyToBytes(key);
    var vb :- e.codec.valueToBytes(value);
    var p :- Resolve(s, e.name);
    Ok(Write(s, e.name, Put(p, kb, vb)))
  }

  /** Writing keeps every partition in key order. */
  lemma InsertKeepsOrder<K, V>(s: Store, e: Entry<K, V>, key: K, value: V)
    requires Valid(s) && InsertEntry(s, e, key, value).Ok?
    ensures Valid(InsertEntry(s, e, key, value).value)
  {
    var p := Resolve(s, e.name).value;
    PutOrdered(p, e.codec.keyToBytes(key).value, e.codec.valueToBytes(value).value);
  }

  /**
   * Last write wins: reading a key back through the plain database, or through
   * any handle for an unnamed entity, gives the value just written.
   */
  lemma LookupAfterInsert<K, V>(kind: Backend, s: Store, e: Entry<K, V>, key: K, value: V)
    requires InsertEntry(s, e, key, value).Ok?
    requires kind == PlainDb || e.name.None?
    requires e.codec.bytesToValue(e.codec.valueToBytes(value).value) == Ok(value)
    ensures LookupEntry(kind, InsertEntry(s, e, key, value).value, e, key) == Ok(Some(value))
  {
    var p := Resolve(s, e.name).value;
    PutAsMap(p, e.codec.keyToBytes(key).value, e.codec.valueToBytes(value).value);
  }

  /** A write leaves the reads of every differently encoded key as they were. */
  lemma LookupOtherKeyAfterInsert<K, V>(kind: Backend, s: Store, e: Entry<K, V>, key: K, value: V, other: K)
    requires InsertEntry(s, e, key, value).Ok?
    requires e.codec.keyToBytes(other) != e.codec.keyToBytes(key)
    ensures LookupEntry(kind, InsertEntry(s, e, key, value).value, e, other) == LookupEntry(kind, s, e, other)
  {
    var p := Resolve(s, e.name).value;
    PutAsMap(p, e.codec.keyToBytes(key).value, e.codec.valueToBytes(value).value);
  }

  /**
   * The transactional handles write a named entity to its partition but read
   * it back from the default one, so `lookup_entry` does not see the write.
   */
  lemma TransactionalLookupMissesNamedWrite<K, V>(kind: Backend, s: Store, e: Entry<K, V>, key: K, value: V)
    requires kind != PlainDb && e.name.Some?
    requires InsertEntry(s, e, key, value).Ok?
    ensures LookupEntry(kind, InsertEntry(s, e, key, value).value, e, key) == LookupEntry(kind, s, e, key)
  {
  }

  /** An engine handle of one of the three kinds, and the store it gives access to. */
  class Handle {
    const kind: Backend
    var store: Store

    constructor (kind: Backend, store: Store)
      ensures this.kind == kind && this.store == store
    {
      this.kind := kind;
      this.store := store;
    }

    /** `insert`: on success the store becomes the upserted one; on failure it is unchanged. */
    method Insert<K, V>(e: Entry<K, V>, key: K, value: V) returns (r: Result<(), Error>)
      modifies this
      ensures InsertEntry(old(store), e, key, value).Ok? ==> r == Ok(()) && store == InsertEntry(old(store), e, key, value).value
      ensures InsertEntry(old(store), e, key, value).Err? ==> r == Err(InsertEntry(old(store), e, key, value).error) && store == old(store)
    {
      var w := InsertEntry(store, e, key, value);
      if w.Ok? {
        store := w.value;
        r := Ok(());
      } else {
        r := Err(w.error);
      }
    }

    /** `lookup_entries_by_index`: a fresh decoding iterator over the prefix scan. */
    method LookupEntriesByIndex<K, V, I>(ix: Indexed<K, V, I>, index: I) returns (r: Result<EntryIterator<K, V>, Error>)
      ensures IndexCursor(store, ix, index).Err? ==> r == Err(IndexCursor(store, ix, index).error)
      ensures IndexCursor(store, ix, index).Ok? ==> (r.Ok? && fresh(r.value) && r.value.Valid() &&
        r.value.codec == ix.entry.codec && r.value.underlying == IndexCursor(store, ix, index).value && r.value.pos == 0)
    {
      var cursor := IndexCursor(store, ix, index);
      if cursor.Err? {
        r := Err(cursor.error);
      } else {
        var it := new EntryIterator(ix.entry.codec, cursor.value);
        r := Ok(it);
      }
    }

    /** `lookup_selected_entries_by_index`: the same scan, decoding values only where `pred` holds. */
    method LookupSelectedEntriesByIndex<K, V, I>(ix: Indexed<K, V, I>, index: I, pred: K -> bool)
      returns (r: Result<SelectedEntryIterator<K, V>, Error>)
      ensures IndexCursor(store, ix, index).Err? ==> r == Err(IndexCursor(store, ix, index).error)
      ensures IndexCursor(store, ix, index).Ok? ==> (r.Ok? && fresh(r.value) && r.value.Valid() &&
        r.value.codec == ix.entry.codec && r.value.pred == pred &&
        r.value.underlying == IndexCursor(store, ix, index).value && r.value.pos == 0)
    {
      var cursor := IndexCursor(store, ix, index);
      if cursor.Err? {
        r := Err(cursor.error);
      } else {
        var it := new SelectedEntryIterator(ix.entry.codec, cursor.value, pred);
        r := Ok(it);
      }
    }

    /** `iter_entries`: a fresh decoding iterator over the whole partition. */
    method IterEntries<K, V>(e: Entry<K, V>) returns (r: Result<EntryIterator<K, V>, Error>)
      ensures StartCursor(store, e).Err? ==> r == Err(StartCursor(store, e).error)
      ensures StartCursor(store, e).Ok? ==> (r.Ok? && fresh(r.value) && r.value.Valid() &&
        r.value.codec == e.codec && r.value.underlying == StartCursor(store, e).value && r.value.pos == 0)
    {
      var cursor := StartCursor(store, e);
      if cursor.Err? {
        r := Err(cursor.error);
      } else {
        var it := new EntryIterator(e.codec, cursor.value);
        r := Ok(it);
      }
    }

    /** `iter_selected_entries`: the whole partition, decoding values only where `pred` holds. */
    method IterSelectedEntries<K, V>(e: Entry<K, V>, pred: K -> bool) returns (r: Result<SelectedEntryIterator<K, V>, Error>)
      ensures StartCursor(store, e).Err? ==> r == Err(StartCursor(store, e).error)
      ensures StartCursor(store, e).Ok? ==> (r.Ok? && fresh(r.value) && r.value.Valid() &&
        r.value.codec == e.codec && r.value.pred == pred && r.value.underlying == StartCursor(store, e).value && r.value.pos == 0)
    {
      var cursor := StartCursor(store, e);
      if cursor.Err? {
        r := Err(cursor.error);
      } else {
        var it := new SelectedEntryIterator(e.codec, cursor.value, pred);
        r := Ok(it);
      }
    }
  }

  /**
   * `Transaction::new` over a transactional database: a transaction handle whose
   * view starts as the database's contents, with the same partitions.
   */
  method NewTransaction(db: Handle) returns (t: Handle)
    requires db.kind == TransactionDb
    ensures fresh(t) && t.kind == Transaction && t.store == db.store
  {
    t := new Handle(Transaction, db.store);
  }
}
