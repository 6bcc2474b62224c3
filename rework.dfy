/**
 * The reworked table layer (a draft that the crate root does not build): a
 * `Table<N>` describes one key/value type with its codec, its `N`-byte index
 * encoding, its prefix length and its merge operator; a `NamedTable` places it
 * in the default partition or in a named one; a `TableConfig` is what a
 * database is opened with; and the `Database` handle scans and writes tables.
 */
module Rework {
  import opened Wrappers
  import opened Bytes
  import opened Errors
  import opened Engine
  import opened Entries
  import opened Access
  import opened ReworkMode
  import opened ReworkIterators

  /**
   * `Table<N>`: `n` is the const parameter `N`, `prefixLen` what `prefix_len()`
   * returns, `associativeMerge` the named merge operator, if any.
   */
  datatype Table<!K, !V, !I> = Table(
    n: nat,
    prefixLen: nat,
    codec: Codec<K, V>,
    indexToBytes: I -> Bytes,
    associativeMerge: Option<MergeOperator>)

  /** The `[u8; N]` result type of `index_to_bytes`: every encoded index has exactly `n` bytes. */
  ghost predicate IndexWidth<K, V, I(!new)>(t: Table<K, V, I>)
  {
    forall i :: |t.indexToBytes(i)| == t.n
  }

  /** A table that keeps the trait's default `prefix_len`, which is `N`. */
  function DefaultPrefixTable<K, V, I>(n: nat, codec: Codec<K, V>, indexToBytes: I -> Bytes, merge: Option<MergeOperator>): (t: Table<K, V, I>)
    ensures t.prefixLen == t.n == n
    ensures t.codec == codec && t.indexToBytes == indexToBytes && t.associativeMerge == merge
  {
    Table(n, n, codec, indexToBytes, merge)
  }

  /**
   * The options `configure_options` leaves behind: a fixed prefix extractor of
   * `prefix_len()` bytes when that is positive, and the merge operator when the
   * table has one; everything else as it was.
   */
  function TableOptions<K, V, I>(t: Table<K, V, I>, o: Options): (r: Options)
    ensures r.createIfMissing == o.createIfMissing && r.createMissingColumnFamilies == o.createMissingColumnFamilies
    ensures r.prefixExtractor == (if t.prefixLen > 0 then Some(t.prefixLen) else o.prefixExtractor)
    ensures r.mergeOperator == (if t.associativeMerge.Some? then t.associativeMerge else o.mergeOperator)
  {
    o.(prefixExtractor := if t.prefixLen > 0 then Some(t.prefixLen) else o.prefixExtractor,
       mergeOperator := if t.associativeMerge.Some? then t.associativeMerge else o.mergeOperator)
  }

  /**
   * On fresh options, the table's options have an extractor exactly when the
   * prefix length is positive, and a merge operator exactly when the table names one.
   */
  lemma TableOptionsOnDefault<K, V, I>(t: Table<K, V, I>)
    ensures TableOptions(t, DefaultOptions()).prefixExtractor.Some? <==> t.prefixLen > 0
    ensures TableOptions(t, DefaultOptions()).prefixExtractor.Some? ==> TableOptions(t, DefaultOptions()).prefixExtractor.value == t.prefixLen
    ensures TableOptions(t, DefaultOptions()).mergeOperator.Some? <==> t.associativeMerge.Some?
    ensures TableOptions(t, DefaultOptions()).mergeOperator == t.associativeMerge
    ensures !TableOptions(t, DefaultOptions()).createIfMissing && !TableOptions(t, DefaultOptions()).createMissingColumnFamilies
  {
  }

  /** Configuring twice is configuring once. */
  lemma TableOptionsIdempotent<K, V, I>(t: Table<K, V, I>, o: Options)
    ensures TableOptions(t, TableOptions(t, o)) == TableOptions(t, o)
  {
  }

  /** `configure_options`: updates the options in place, extractor first, then merge operator. */
  method ConfigureOptions<K, V, I>(t: Table<K, V, I>, options: Options) returns (r: Options)
    ensures r == TableOptions(t, options)
  {
    r := options;
    if t.prefixLen > 0 {
      r := r.(prefixExtractor := Some(t.prefixLen));
    }
    if t.associativeMerge.Some? {
      r := r.(mergeOperator := t.associativeMerge);
    }
  }

  /** `NamedTable<T>`: the table type `T` and the partition it lives in (`None`: the default one). */
  datatype NamedTable<!K, !V, !I> = NamedTable(name: Option<string>, table: Table<K, V, I>)

  /** `NamedTable::new`: in the default partition. */
  function New<K, V, I>(t: Table<K, V, I>): (nt: NamedTable<K, V, I>)
    ensures nt.name.None? && nt.table == t
  {
    NamedTable(None, t)
  }

  /** `NamedTable::new_cf`: in the partition called `name`. */
  function NewCf<K, V, I>(t: Table<K, V, I>, name: string): (nt: NamedTable<K, V, I>)
    ensures nt.name == Some(name) && nt.table == t
  {
    NamedTable(Some(name), t)
  }

  /**
   * `cf_descriptor_opt`: no descriptor for the default partition; otherwise one
   * for the table's partition, whose options are fresh options configured by
   * the table first and by the caller's `configure` after.
   */
  method CfDescriptorOpt<K, V, I>(nt: NamedTable<K, V, I>, configure: Options -> Options) returns (r: Option<ColumnFamilyDescriptor>)
    ensures r.None? <==> nt.name.None?
    ensures r.Some? ==> r.value == ColumnFamilyDescriptor(nt.name.value, configure(TableOptions(nt.table, DefaultOptions())))
  {
    if nt.name.None? {
      r := None;
    } else {
      var options := DefaultOptions();
      options := ConfigureOptions(nt.table, options);
      options := configure(options);
      r := Some(ColumnFamilyDescriptor(nt.name.value, options));
    }
  }

  /** The closure `|_| ()`: leaves the options alone. */
  function KeepOptions(o: Options): Options
  {
    o
  }

  /** `cf_descriptor`: the descriptor with the table's own options only. */
  method CfDescriptor<K, V, I>(nt: NamedTable<K, V, I>) returns (r: Option<ColumnFamilyDescriptor>)
    ensures r.None? <==> nt.name.None?
    ensures r.Some? ==> r.value == ColumnFamilyDescriptor(nt.name.value, TableOptions(nt.table, DefaultOptions()))
  {
    r := CfDescriptorOpt(nt, KeepOptions);
  }

  /** What a database is opened with: partition descriptors, or the options of a database without partitions. */
  datatype TableConfig =
    | WithCfs(cfDescriptors: seq<ColumnFamilyDescriptor>)
    | WithoutCfs(options: Options)

  /**
   * `TableConfig::from_table_1`: a named table gives exactly its one descriptor;
   * an unnamed one gives fresh options configured by the table.
   */
  method FromTable1<K, V, I>(nt: NamedTable<K, V, I>) returns (c: TableConfig)
    ensures nt.name.Some? ==> c == WithCfs([ColumnFamilyDescriptor(nt.name.value, TableOptions(nt.table, DefaultOptions()))])
    ensures nt.name.None? ==> c == WithoutCfs(TableOptions(nt.table, DefaultOptions()))
  {
    var d := CfDescriptor(nt);
    if d.Some? {
      c := WithCfs([d.value]);
    } else {
      var options := DefaultOptions();
      options := ConfigureOptions(nt.table, options);
      c := WithoutCfs(options);
    }
  }

  /** `parts`: the base options and the descriptor list a configuration opens with. */
  function Parts(c: TableConfig): (r: (Options, seq<ColumnFamilyDescriptor>))
    ensures r.1 != [] ==> c.WithCfs? && r.0 == DefaultOptions()
    ensures c.WithCfs? ==> r.0 == DefaultOptions() && r.1 == c.cfDescriptors
    ensures c.WithoutCfs? ==> r.0 == c.options && r.1 == []
  {
    match c
    case WithCfs(cfs) => (DefaultOptions(), cfs)
    case WithoutCfs(o) => (o, [])
  }

  /** The engine entry point `open` goes through (`D::open` or `D::open_read_only`) and its arguments. */
  datatype OpenRequest = OpenRequest(readOnly: bool, options: Options, cfs: seq<ColumnFamilyDescriptor>)

  /** The modes `open` has an arm for. */
  predicate Openable(m: Marker)
  {
    ModeTypeOf(m) == Writeable || ModeTypeOf(m) == ReadOnly
  }

  /**
   * What `open` hands the engine: the configuration's parts, with missing
   * databases always created and missing partitions created exactly when there
   * are descriptors; read-only exactly for the `ReadOnly` marker.
   */
  function OpenRequestFor(m: Marker, config: TableConfig): (req: OpenRequest)
    requires Openable(m)
    ensures req.readOnly <==> m == ReadOnlyMarker
    ensures req.cfs == Parts(config).1
    ensures req.options.createIfMissing
    ensures req.options.createMissingColumnFamilies <==> req.cfs != []
    ensures req.options.prefixExtractor == Parts(config).0.prefixExtractor
    ensures req.options.mergeOperator == Parts(config).0.mergeOperator
  {
    var (base, cfs) := Parts(config);
    OpenRequest(m == ReadOnlyMarker, base.(createIfMissing := true, createMissingColumnFamilies := cfs != []), cfs)
  }

  /**
   * Opening with a single table: a named table's database is opened with its one
   * descriptor and bare options; an unnamed table's with the table's options and
   * no descriptors, so no partition is created.
   */
  lemma OpenTable1<K, V, I>(m: Marker, nt: NamedTable<K, V, I>, config: TableConfig)
    requires Openable(m)
    requires nt.name.Some? ==> config == WithCfs([ColumnFamilyDescriptor(nt.name.value, TableOptions(nt.table, DefaultOptions()))])
    requires nt.name.None? ==> config == WithoutCfs(TableOptions(nt.table, DefaultOptions()))
    ensures nt.name.Some? ==> OpenRequestFor(m, config).cfs == [ColumnFamilyDescriptor(nt.name.value, TableOptions(nt.table, DefaultOptions()))]
    ensures nt.name.Some? ==> OpenRequestFor(m, config).options == DefaultOptions().(createIfMissing := true, createMissingColumnFamilies := true)
    ensures nt.name.None? ==> OpenRequestFor(m, config).cfs == []
    ensures nt.name.None? ==> (OpenRequestFor(m, config).options ==
      TableOptions(nt.table, DefaultOptions()).(createIfMissing := true, createMissingColumnFamilies := false))
  {
  }

  /** The entity view of a named table, on which the main layer's operations are defined. */
  function TableEntry<K, V, I>(nt: NamedTable<K, V, I>): (e: Entry<K, V>)
    ensures e.name == nt.name && e.associativeMerge == nt.table.associativeMerge && e.codec == nt.table.codec
  {
    Entry(nt.name, nt.table.associativeMerge, nt.table.codec)
  }

  /** The items an index scan over a table visits: the keys that start with the encoded index, in key order. */
  function IndexScan<K, V, I>(s: Store, nt: NamedTable<K, V, I>, index: I): (r: Result<seq<RawItem>, Error>)
    ensures Resolve(s, nt.name).Err? ==> r == Err(Resolve(s, nt.name).error)
    ensures Resolve(s, nt.name).Ok? ==> (r.Ok? &&
      forall item :: item in r.value <==> item.Ok? && item.value in Resolve(s, nt.name).value && IsPrefix(nt.table.indexToBytes(index), item.value.0))
    ensures Resolve(s, nt.name).Ok? && Ordered(Resolve(s, nt.name).value) ==>
      forall i, j :: 0 <= i < j < |r.value| ==> Less(r.value[i].value.0, r.value[j].value.0)
  {
    var p :- Resolve(s, nt.name);
    var q := WithPrefix(p, nt.table.indexToBytes(index));
    assert forall item :: item in Cursor(q) <==> item.Ok? && item.value in q by {
      forall item ensures item in Cursor(q) <==> item.Ok? && item.value in q {
        if item in Cursor(q) {
          var i :| 0 <= i < |q| && Cursor(q)[i] == item;
        }
        if item.Ok? && item.value in q {
          var i :| 0 <= i < |q| && q[i] == item.value;
          assert Cursor(q)[i] == item;
        }
      }
    }
    Ok(Cursor(q))
  }

  /** `Database<M, D>`: an open engine handle of marker `M`. */
  class Database {
    const marker: Marker
    var store: Store

    constructor (marker: Marker, store: Store)
      ensures this.marker == marker && this.store == store
    {
      this.marker := marker;
      this.store := store;
    }

    /** `iter`: a fresh iterator over the table's whole partition; an unknown partition name fails. */
    method Iter<K, V, I>(nt: NamedTable<K, V, I>) returns (r: Result<TableIterator<K, V>, Error>)
      ensures StartCursor(store, TableEntry(nt)).Err? ==> r == Err(InvalidCfName(nt.name.value))
      ensures StartCursor(store, TableEntry(nt)).Ok? ==> (r.Ok? && fresh(r.value) && r.value.Valid() &&
        r.value.codec == nt.table.codec && r.value.underlying == StartCursor(store, TableEntry(nt)).value && r.value.pos == 0)
    {
      var p := Resolve(store, nt.name);
      if p.Err? {
        r := Err(p.error);
      } else {
        var it := new TableIterator(nt.table.codec, Cursor(p.value));
        r := Ok(it);
      }
    }

    /**
     * `iter_index`: a fresh iterator over the keys starting with the encoded
     * index. `N == 0` is refused when the program is built, so callers have `N > 0`,
     * and every key visited starts with the `N` bytes of the index.
     */
    method IterIndex<K, V, I(!new)>(nt: NamedTable<K, V, I>, index: I) returns (r: Result<TableIterator<K, V>, Error>)
      requires NonZeroN(nt.table.n) && IndexWidth(nt.table)
      ensures IndexScan(store, nt, index).Ok? ==> forall item :: item in IndexScan(store, nt, index).value ==>
        item.Ok? && 0 < nt.table.n <= |item.value.0| && item.value.0[..nt.table.n] == nt.table.indexToBytes(index)
      ensures IndexScan(store, nt, index).Err? ==> r == Err(InvalidCfName(nt.name.value))
      ensures IndexScan(store, nt, index).Ok? ==> (r.Ok? && fresh(r.value) && r.value.Valid() &&
        r.value.codec == nt.table.codec && r.value.underlying == IndexScan(store, nt, index).value && r.value.pos == 0)
    {
      var p := Resolve(store, nt.name);
      if p.Err? {
        r := Err(p.error);
      } else {
        var it := new TableIterator(nt.table.codec, Cursor(WithPrefix(p.value, nt.table.indexToBytes(index))));
        r := Ok(it);
      }
    }

    /**
     * `put`, for writeable handles only: the key is encoded, then the value, then
     * the partition is resolved, then the pair is upserted; on failure nothing changes.
     */
    method Put<K, V, I>(nt: NamedTable<K, V, I>, key: K, value: V) returns (r: Result<(), Error>)
      requires marker == WriteableMarker
      modifies this
      ensures InsertEntry(old(store), TableEntry(nt), key, value).Ok? ==>
        r == Ok(()) && store == InsertEntry(old(store), TableEntry(nt), key, value).value
      ensures InsertEntry(old(store), TableEntry(nt), key, value).Err? ==>
        r == Err(InsertEntry(old(store), TableEntry(nt), key, value).error) && store == old(store)
    {
      var kb := nt.table.codec.keyToBytes(key);
      if kb.Err? {
        return Err(kb.error);
      }
      var vb := nt.table.codec.valueToBytes(value);
      if vb.Err? {
        return Err(vb.error);
      }
      var p := Resolve(store, nt.name);
      if p.Err? {
        return Err(p.error);
      }
      store := Write(store, nt.name, Engine.Put(p.value, kb.value, vb.value));
      r := Ok(());
    }
  }

  /**
   * `Database::open`: the configuration is split into its parts, the creation
   * flags are set, and the engine is opened read-only or not by the marker.
   * Only the `Writeable` and `ReadOnly` markers have an arm.
   */
  method Open(m: Marker, config: TableConfig, engine: OpenRequest -> Result<Store, Error>) returns (r: Result<Database, Error>)
    requires Openable(m)
    ensures engine(OpenRequestFor(m, config)).Err? ==> r == Err(engine(OpenRequestFor(m, config)).error)
    ensures engine(OpenRequestFor(m, config)).Ok? ==> (r.Ok? && fresh(r.value) &&
      r.value.marker == m && r.value.store == engine(OpenRequestFor(m, config)).value)
  {
    var (base, cfs) := Parts(config);
    base := base.(createIfMissing := true);
    base := base.(createMissingColumnFamilies := cfs != []);
    var result: Result<Store, Error>;
    if ModeTypeOf(m) == Writeable {
      result := engine(OpenRequest(false, base, cfs));
    } else {
      result := engine(OpenRequest(true, base, cfs));
    }
    if result.Err? {
      r := Err(result.error);
    } else {
      var d := new Database(m, result.value);
      r := Ok(d);
    }
  }
}
