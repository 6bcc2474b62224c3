/**
 * `Database<D, M>`: an engine handle of kind `D` opened in mode `M`, together
 * with the options it was opened with. Reads are available in every mode;
 * writing needs a writeable mode.
 */
module Db {
  import opened Wrappers
  import opened Errors
  import opened Engine
  import opened Entries
  import opened Iter
  import opened Modes
  import opened Lib
  import opened Access

  /** The engine entry point an open goes through, with the arguments it is given. */
  datatype EngineCall =
    | OpenForReadOnly(options: Options, errorIfLogFileExist: bool)
    | OpenCfDescriptorsReadOnly(options: Options, cfs: seq<ColumnFamilyDescriptor>, errorIfLogFileExist: bool)
    | OpenPlain(options: Options)
    | OpenCfDescriptors(options: Options, cfs: seq<ColumnFamilyDescriptor>)
    | OpenTransactionDb(options: Options)
    | OpenTransactionDbCfDescriptors(options: Options, cfs: seq<ColumnFamilyDescriptor>)

  /** The partitions a call names (none for the calls that open the default partition only). */
  function Descriptors(c: EngineCall): seq<ColumnFamilyDescriptor>
  {
    match c
    case OpenCfDescriptorsReadOnly(_, cfs, _) => cfs
    case OpenCfDescriptors(_, cfs) => cfs
    case OpenTransactionDbCfDescriptors(_, cfs) => cfs
    case _ => []
  }

  predicate ReadOnlyCall(c: EngineCall)
  {
    c.OpenForReadOnly? || c.OpenCfDescriptorsReadOnly?
  }

  predicate TransactionalCall(c: EngineCall)
  {
    c.OpenTransactionDb? || c.OpenTransactionDbCfDescriptors?
  }

  /** The entry points that are handed a descriptor list. */
  predicate DescriptorCall(c: EngineCall)
  {
    c.OpenCfDescriptorsReadOnly? || c.OpenCfDescriptors? || c.OpenTransactionDbCfDescriptors?
  }

  /**
   * The choice `Database::open` makes: read-only or not by the mode, with a
   * descriptor list exactly when partitions are configured; the global options
   * go with every call, and read-only opens fail if a log file exists.
   */
  function OpenCall(mode: Mode, o: DatabaseOptions): (c: EngineCall)
    ensures ReadOnlyCall(c) <==> IsReadOnly(mode)
    ensures !TransactionalCall(c)
    ensures DescriptorCall(c) <==> ColumnFamilies(o) != []
    ensures c.options == o.options
    ensures Descriptors(c) == ColumnFamilies(o)
    ensures ReadOnlyCall(c) ==> c.errorIfLogFileExist
  {
    var cfs := ColumnFamilies(o);
    if IsReadOnly(mode) then
      if cfs == [] then OpenForReadOnly(o.options, true)
      else OpenCfDescriptorsReadOnly(o.options, cfs, true)
    else if cfs == [] then OpenPlain(o.options)
    else OpenCfDescriptors(o.options, cfs)
  }

  /** The choice `Database::open_transactional` makes: the same descriptor rule, on the transactional entry points. */
  function OpenTransactionalCall(o: DatabaseOptions): (c: EngineCall)
    ensures TransactionalCall(c)
    ensures DescriptorCall(c) <==> ColumnFamilies(o) != []
    ensures c.options == o.options
    ensures Descriptors(c) == ColumnFamilies(o)
  {
    var cfs := ColumnFamilies(o);
    if cfs == [] then OpenTransactionDb(o.options) else OpenTransactionDbCfDescriptors(o.options, cfs)
  }

  /** The properties `OpenCall` promises pick out a single call: the four-way choice is a function of its two inputs. */
  lemma OpenCallDetermined(mode: Mode, o: DatabaseOptions, c: EngineCall)
    requires ReadOnlyCall(c) <==> IsReadOnly(mode)
    requires !TransactionalCall(c)
    requires DescriptorCall(c) <==> ColumnFamilies(o) != []
    requires c.options == o.options && Descriptors(c) == ColumnFamilies(o)
    requires ReadOnlyCall(c) ==> c.errorIfLogFileExist
    ensures c == OpenCall(mode, o)
  {
  }

  /** The store the engine opens for a brand-new database: every named partition exists and is empty. */
  function FreshStore(c: EngineCall): (s: Store)
    ensures s.defaultCf == []
    ensures forall d :: d in Descriptors(c) ==> d.name in s.cfs && s.cfs[d.name] == []
    ensures forall n :: n in s.cfs ==> exists d :: d in Descriptors(c) && d.name == n
  {
    var cfs := Descriptors(c);
    var m := map d | d in cfs :: d.name := [];
    Store([], m)
  }

  class Database {
    const db: Handle
    const options: DatabaseOptions
    const mode: Mode

    constructor (db: Handle, options: DatabaseOptions, mode: Mode)
      ensures this.db == db && this.options == options && this.mode == mode
    {
      this.db := db;
      this.options := options;
      this.mode := mode;
    }

    /** `lookup`: forwarded unchanged, in every mode. */
    function Lookup<K, V>(e: Entry<K, V>, key: K): (r: Result<Option<V>, Error>)
      reads db
      ensures r == LookupEntry(db.kind, db.store, e, key)
    {
      LookupEntry(db.kind, db.store, e, key)
    }

    /** `multi_lookup`: forwarded unchanged, in every mode. */
    function MultiLookup<K, V>(e: Entry<K, V>, keys: seq<K>): (r: Result<seq<Option<V>>, Error>)
      reads db
      ensures r == LookupEntries(db.store, e, keys)
    {
      LookupEntries(db.store, e, keys)
    }

    /** `lookup_index`: forwarded unchanged, in every mode. */
    method LookupIndex<K, V, I>(ix: Indexed<K, V, I>, index: I) returns (r: Result<EntryIterator<K, V>, Error>)
      ensures IndexCursor(db.store, ix, index).Err? ==> r == Err(IndexCursor(db.store, ix, index).error)
      ensures IndexCursor(db.store, ix, index).Ok? ==> (r.Ok? && fresh(r.value) && r.value.Valid() &&
        r.value.codec == ix.entry.codec && r.value.underlying == IndexCursor(db.store, ix, index).value && r.value.pos == 0)
    {
      r := db.LookupEntriesByIndex(ix, index);
    }

    /** `lookup_index_selected`: forwarded unchanged, in every mode. */
    method LookupIndexSelected<K, V, I>(ix: Indexed<K, V, I>, index: I, pred: K -> bool)
      returns (r: Result<SelectedEntryIterator<K, V>, Error>)
      ensures IndexCursor(db.store, ix, index).Err? ==> r == Err(IndexCursor(db.store, ix, index).error)
      ensures IndexCursor(db.store, ix, index).Ok? ==> (r.Ok? && fresh(r.value) && r.value.Valid() &&
        r.value.codec == ix.entry.codec && r.value.pred == pred &&
        r.value.underlying == IndexCursor(db.store, ix, index).value && r.value.pos == 0)
    {
      r := db.LookupSelectedEntriesByIndex(ix, index, pred);
    }

    /** `iter`: forwarded unchanged, in every mode. */
    method Iter<K, V>(e: Entry<K, V>) returns (r: Result<EntryIterator<K, V>, Error>)
      ensures StartCursor(db.store, e).Err? ==> r == Err(StartCursor(db.store, e).error)
      ensures StartCursor(db.store, e).Ok? ==> (r.Ok? && fresh(r.value) && r.value.Valid() &&
        r.value.codec == e.codec && r.value.underlying == StartCursor(db.store, e).value && r.value.pos == 0)
    {
      r := db.IterEntries(e);
    }

    /** `iter_selected`: forwarded unchanged, in every mode. */
    method IterSelected<K, V>(e: Entry<K, V>, pred: K -> bool) returns (r: Result<SelectedEntryIterator<K, V>, Error>)
      ensures StartCursor(db.store, e).Err? ==> r == Err(StartCursor(db.store, e).error)
      ensures StartCursor(db.store, e).Ok? ==> (r.Ok? && fresh(r.value) && r.value.Valid() &&
        r.value.codec == e.codec && r.value.pred == pred && r.value.underlying == StartCursor(db.store, e).value && r.value.pos == 0)
    {
      r := db.IterSelectedEntries(e, pred);
    }

    /** `insert`: only for a writeable mode; forwarded unchanged. */
    method Insert<K, V>(e: Entry<K, V>, key: K, value: V) returns (r: Result<(), Error>)
      requires IsWriteable(mode)
      modifies db
      ensures InsertEntry(old(db.store), e, key, value).Ok? ==> r == Ok(()) && db.store == InsertEntry(old(db.store), e, key, value).value
      ensures InsertEntry(old(db.store), e, key, value).Err? ==> r == Err(InsertEntry(old(db.store), e, key, value).error) && db.store == old(db.store)
    {
      r := db.Insert(e, key, value);
    }

    /** `transaction`: a transaction over this transactional database. */
    method Transaction() returns (t: Handle)
      requires db.kind == TransactionDb && mode == Writeable
      ensures fresh(t) && t.kind == Access.Transaction && t.store == db.store
    {
      t := NewTransaction(db);
    }
  }

  /**
   * `Database::open`: the engine is opened through `OpenCall(mode, options)`;
   * on success the handle keeps the mode and the options it was given.
   */
  method Open(mode: Mode, options: DatabaseOptions, engine: EngineCall -> Result<Store, Error>) returns (r: Result<Database, Error>)
    ensures engine(OpenCall(mode, options)).Err? ==> r == Err(engine(OpenCall(mode, options)).error)
    ensures engine(OpenCall(mode, options)).Ok? ==> (r.Ok? && fresh(r.value) && fresh(r.value.db) &&
      r.value.mode == mode && r.value.options == options &&
      r.value.db.kind == PlainDb && r.value.db.store == engine(OpenCall(mode, options)).value)
  {
    var result := engine(OpenCall(mode, options));
    if result.Err? {
      r := Err(result.error);
    } else {
      var h := new Handle(PlainDb, result.value);
      var d := new Database(h, options, mode);
      r := Ok(d);
    }
  }

  /** `Database::open_transactional`: always a writeable handle on a transactional database. */
  method OpenTransactional(options: DatabaseOptions, engine: EngineCall -> Result<Store, Error>) returns (r: Result<Database, Error>)
    ensures engine(OpenTransactionalCall(options)).Err? ==> r == Err(engine(OpenTransactionalCall(options)).error)
    ensures engine(OpenTransactionalCall(options)).Ok? ==> (r.Ok? && fresh(r.value) && fresh(r.value.db) &&
      r.value.mode == Writeable && r.value.options == options &&
      r.value.db.kind == TransactionDb && r.value.db.store == engine(OpenTransactionalCall(options)).value)
  {
    var result := engine(OpenTransactionalCall(options));
    if result.Err? {
      r := Err(result.error);
    } else {
      var h := new Handle(TransactionDb, result.value);
      var d := new Database(h, options, Writeable);
      r := Ok(d);
    }
  }
}
