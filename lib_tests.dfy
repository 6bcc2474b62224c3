/**
 * The repository's own tests, as procedures over a database handle: values
 * are inserted one by one, then read back by full scan, by selective scan with
 * an accept-all predicate, and (for `Score`) by index. Each procedure returns
 * `Ok(true)` for every input: what it compares is always equal.
 */
module LibTests {
  import opened Wrappers
  import opened Bytes
  import opened Errors
  import opened Engine
  import opened Entries
  import opened Iter
  import opened Modes
  import opened Lib
  import opened Access
  import opened Db
  import opened EncodingLaws
  import opened TestCodecs
  import opened SortDedup

  /** `filter_left`: errors are kept, `Left` entities become `Ok`, `Right` keys are dropped. */
  function FilterLeft<L, R, E>(result: Result<Either<L, R>, E>): (r: Option<Result<L, E>>)
    ensures r.None? <==> result.Ok? && result.value.Right?
    ensures result.Err? ==> r == Some(Err(result.error))
    ensures result.Ok? && result.value.Left? ==> r == Some(Ok(result.value.left))
  {
    match result
    case Err(e) => Some(Err(e))
    case Ok(Left(l)) => Some(Ok(l))
    case Ok(Right(_)) => None
  }

  /** `filter_map(filter_left)` over everything an iterator yields. */
  function FilterLefts<L, R, E>(rs: seq<Result<Either<L, R>, E>>): (r: seq<Result<L, E>>)
    ensures |r| <= |rs|
    ensures forall x :: x in r ==> exists i :: 0 <= i < |rs| && FilterLeft(rs[i]) == Some(x)
    ensures forall i :: 0 <= i < |rs| && FilterLeft(rs[i]).Some? ==> FilterLeft(rs[i]).value in r
    ensures (forall i :: 0 <= i < |rs| ==> FilterLeft(rs[i]).Some?) ==> |r| == |rs|
  {
    if rs == [] then []
    else
      match FilterLeft(rs[0])
      case Some(x) => [x] + FilterLefts(rs[1..])
      case None => FilterLefts(rs[1..])
  }

  lemma FilterLeftsCons<L, R, E>(x: Result<Either<L, R>, E>, rest: seq<Result<Either<L, R>, E>>)
    ensures FilterLefts([x] + rest) == (if FilterLeft(x).Some? then [FilterLeft(x).value] + FilterLefts(rest) else FilterLefts(rest))
  {
    assert ([x] + rest)[1..] == rest;
  }

  /** The closure `|_| true`. */
  predicate AcceptAll<K>(k: K)
  {
    true
  }

  /** Under the accept-all predicate, `filter_left` of the selective decode keeps the full decode. */
  lemma AcceptedItemKept<K, V>(c: Codec<K, V>, item: RawItem)
    ensures FilterLeft(DecodeSelected(c, AcceptAll, item)) == Some(DecodeEntry(c, item))
  {
    if item.Ok? && c.bytesToKey(item.value.0).Ok? {
      AcceptedIsFullDecode(c, AcceptAll, item);
    }
  }

  /** When every item passes `filter_left`, the filtered sequence is just the items' payloads. */
  lemma {:induction false} AllLeftsKept<L, R, E>(rs: seq<Result<Either<L, R>, E>>, out: seq<Result<L, E>>)
    requires |rs| == |out|
    requires forall i :: 0 <= i < |rs| ==> FilterLeft(rs[i]) == Some(out[i])
    ensures FilterLefts(rs) == out
  {
    if rs != [] {
      AllLeftsKept(rs[1..], out[1..]);
      assert out == [out[0]] + out[1..];
    }
  }

  /** With the accept-all predicate, the `Left` items of a selective scan are exactly a full scan's items. */
  lemma AcceptAllLeftsAreEntries<K, V>(c: Codec<K, V>, items: seq<RawItem>)
    ensures FilterLefts(DecodedSelected(c, AcceptAll, items)) == DecodedEntries(c, items)
  {
    var sel := DecodedSelected(c, AcceptAll, items);
    var all := DecodedEntries(c, items);
    forall i | 0 <= i < |items| ensures FilterLeft(sel[i]) == Some(all[i]) {
      AcceptedItemKept(c, items[i]);
    }
    AllLeftsKept(sel, all);
  }

  /** `collect::<Result<Vec<_>, _>>()` on an entry iterator: pulls items until exhaustion or the first error. */
  method CollectEntries<K, V>(it: EntryIterator<K, V>) returns (r: Result<seq<Row<K, V>>, Error>)
    requires it.Valid()
    modifies it
    ensures r == CollectResults(old(it.Remaining()))
  {
    ghost var all := it.Remaining();
    var acc := [];
    assert Prepend([], CollectResults(all)) == CollectResults(all) by {
      if CollectResults(all).Ok? {
        assert [] + CollectResults(all).value == CollectResults(all).value;
      }
    }
    while true
      invariant it.Valid()
      invariant CollectResults(all) == Prepend(acc, CollectResults(it.Remaining()))
      decreases |it.underlying| - it.pos
    {
      ghost var before := it.Remaining();
      var n := it.Next();
      if n.None? {
        assert before == [] && acc + [] == acc;
        return Ok(acc);
      }
      CollectCons(n.value, it.Remaining());
      if n.value.Err? {
        return Err(n.value.error);
      }
      PrependAppend(acc, n.value.value, CollectResults(it.Remaining()));
      acc := acc + [n.value.value];
    }
  }

  /** `filter_map(filter_left).collect::<Result<Vec<_>, _>>()` on a selective iterator. */
  method CollectLefts<K, V>(it: SelectedEntryIterator<K, V>) returns (r: Result<seq<Row<K, V>>, Error>)
    requires it.Valid()
    modifies it
    ensures r == CollectResults(FilterLefts(old(it.Remaining())))
  {
    ghost var all := it.Remaining();
    var acc := [];
    assert Prepend([], CollectResults(FilterLefts(all))) == CollectResults(FilterLefts(all)) by {
      if CollectResults(FilterLefts(all)).Ok? {
        assert [] + CollectResults(FilterLefts(all)).value == CollectResults(FilterLefts(all)).value;
      }
    }
    while true
      invariant it.Valid()
      invariant CollectResults(FilterLefts(all)) == Prepend(acc, CollectResults(FilterLefts(it.Remaining())))
      decreases |it.underlying| - it.pos
    {
      ghost var before := it.Remaining();
      var n := it.Next();
      if n.None? {
        assert before == [] && FilterLefts(before) == [] && acc + [] == acc;
        return Ok(acc);
      }
      FilterLeftsCons(n.value, it.Remaining());
      var kept := FilterLeft(n.value);
      if kept.Some? {
        CollectCons(kept.value, FilterLefts(it.Remaining()));
        if kept.value.Err? {
          return Err(kept.value.error);
        }
        PrependAppend(acc, kept.value.value, CollectResults(FilterLefts(it.Remaining())));
        acc := acc + [kept.value.value];
      }
    }
  }

  /** Under a lawful codec, `insert` never fails on an open partition and is an ordered upsert of the row. */
  lemma InsertIsUpsert<K(!new), V(!new)>(s: Store, e: Entry<K, V>, less: (K, K) -> bool, rows: seq<Row<K, V>>, row: Row<K, V>)
    requires Lawful(e.codec, less)
    requires Resolve(s, e.name) == Ok(Encode(e.codec, rows))
    ensures InsertEntry(s, e, row.key, row.value).Ok?
    ensures Resolve(InsertEntry(s, e, row.key, row.value).value, e.name) == Ok(Encode(e.codec, Upsert(rows, row, less)))
    ensures InsertEntry(s, e, row.key, row.value).value.cfs.Keys == s.cfs.Keys
  {
    PutEncode(e.codec, less, rows, row);
  }

  /** Scanning a stored table and collecting the results gives back its rows. */
  lemma ScanReadsRows<K(!new), V(!new)>(s: Store, e: Entry<K, V>, less: (K, K) -> bool, rows: seq<Row<K, V>>)
    requires Lawful(e.codec, less)
    requires Resolve(s, e.name) == Ok(Encode(e.codec, rows))
    ensures StartCursor(s, e).Ok?
    ensures CollectResults(DecodedEntries(e.codec, StartCursor(s, e).value)) == Ok(rows)
    ensures CollectResults(FilterLefts(DecodedSelected(e.codec, AcceptAll, StartCursor(s, e).value))) == Ok(rows)
  {
    CursorRoundTrip(e.codec, less, rows);
    AcceptAllLeftsAreEntries(e.codec, StartCursor(s, e).value);
  }

  /** After inserting `values`, the table holds `sort_and_dedup(values)` and both scans read it back. */
  lemma InsertedReadsBack<K(!new), V(!new)>(s: Store, e: Entry<K, V>, less: (K, K) -> bool, values: seq<Row<K, V>>, sorted: seq<Row<K, V>>)
    requires Lawful(e.codec, less)
    requires Resolve(s, e.name) == Ok(Encode(e.codec, UpsertFold(values, less)))
    requires StrictlySorted(sorted, less) && LastWins(sorted) == LastWins(values)
    ensures Resolve(s, e.name) == Ok(Encode(e.codec, sorted))
    ensures StartCursor(s, e).Ok?
    ensures CollectResults(DecodedEntries(e.codec, StartCursor(s, e).value)) == Ok(sorted)
    ensures CollectResults(FilterLefts(DecodedSelected(e.codec, AcceptAll, StartCursor(s, e).value))) == Ok(sorted)
  {
    LawfulOrder(e.codec, less);
    SortAndDedupIsUpsertFold(values, sorted, less);
    ScanReadsRows(s, e, less, sorted);
  }

  /** The insert loop of both test procedures: every row is inserted in turn. */
  method InsertAll<K(==, !new), V(!new)>(db: Database, e: Entry<K, V>, less: (K, K) -> bool, values: seq<Row<K, V>>)
    requires IsWriteable(db.mode) && Lawful(e.codec, less)
    requires Resolve(db.db.store, e.name) == Ok([])
    modifies db.db
    ensures Resolve(db.db.store, e.name) == Ok(Encode(e.codec, UpsertFold(values, less)))
    ensures db.db.store.cfs.Keys == old(db.db.store.cfs.Keys)
  {
    var i := 0;
    while i < |values|
      invariant 0 <= i <= |values|
      invariant Resolve(db.db.store, e.name) == Ok(Encode(e.codec, UpsertFold(values[..i], less)))
      invariant db.db.store.cfs.Keys == old(db.db.store.cfs.Keys)
    {
      var before := UpsertFold(values[..i], less);
      assert values[..i + 1][..i] == values[..i];
      assert UpsertFold(values[..i + 1], less) == Upsert(before, values[i], less);
      InsertIsUpsert(db.db.store, e, less, before, values[i]);
      var ins := db.Insert(e, values[i].key, values[i].value);
      assert ins == Ok(());
      i := i + 1;
    }
    assert values[..i] == values;
  }

  /**
   * The part both table procedures share: insert `values`, compute
   * `sort_and_dedup(values)`, and scan the table back plainly.
   */
  method InsertAndRead<K(==, !new), V(!new)>(db: Database, e: Entry<K, V>, less: (K, K) -> bool, values: seq<Row<K, V>>)
    returns (sorted: seq<Row<K, V>>, read: Result<seq<Row<K, V>>, Error>)
    requires IsWriteable(db.mode) && Lawful(e.codec, less)
    requires Resolve(db.db.store, e.name) == Ok([])
    modifies db.db
    ensures Resolve(db.db.store, e.name) == Ok(Encode(e.codec, sorted))
    ensures db.db.store.cfs.Keys == old(db.db.store.cfs.Keys)
    ensures StrictlySorted(sorted, less) && LastWins(sorted) == LastWins(values)
    ensures read == Ok(sorted)
  {
    LawfulOrder(e.codec, less);
    InsertAll(db, e, less, values);
    sorted := SortAndDedup(values, less);
    InsertedReadsBack(db.db.store, e, less, values, sorted);
    var it := db.Iter(e);
    assert it.value.underlying[0..] == it.value.underlying;
    read := CollectEntries(it.value);
  }

  /** An accept-all selective scan of a stored table, collected through `filter_left`, gives back its rows. */
  method ReadSelected<K(==, !new), V(!new)>(db: Database, e: Entry<K, V>, less: (K, K) -> bool, rows: seq<Row<K, V>>)
    returns (readSelected: Result<seq<Row<K, V>>, Error>)
    requires Lawful(e.codec, less)
    requires Resolve(db.db.store, e.name) == Ok(Encode(e.codec, rows))
    ensures readSelected == Ok(rows)
  {
    ScanReadsRows(db.db.store, e, less, rows);
    var sel := db.IterSelected(e, AcceptAll);
    assert sel.value.underlying[0..] == sel.value.underlying;
    readSelected := CollectLefts(sel.value);
  }

  /**
   * `simple_table_operations`: after inserting `values`, a full scan of the
   * default partition equals `sort_and_dedup(values)`.
   */
  method SimpleTableOperations(db: Database, values: seq<SimpleRow>) returns (r: Result<bool, Error>)
    requires IsWriteable(db.mode)
    requires db.db.store.defaultCf == []
    modifies db.db
    ensures r == Ok(true)
  {
    SimpleCodecLawful();
    var sorted, read := InsertAndRead(db, SimpleEntry(), SimpleLess, values);
    r := Ok(read.value == sorted);
  }

  /** The stored `scores` table, for a given sequence of rows. */
  ghost predicate ScoresStored(s: Store, rows: seq<ScoreRow>)
  {
    "scores" in s.cfs && s.cfs["scores"] == Encode(ScoreCodec(), rows)
  }

  /** The closure `|s| s.index() == index`. */
  function IndexFilter(index: U16): ScoreRow -> bool
  {
    (s: ScoreRow) => ScoreIndex(s) == index
  }

  /** The rows of `rows` whose index is `index`, in their order. */
  function ByIndex(rows: seq<ScoreRow>, index: U16): seq<ScoreRow>
  {
    FilterRows(rows, IndexFilter(index))
  }

  /** An index lookup on the stored `scores` table scans exactly the encoded rows with that index. */
  lemma IndexScanEncode(s: Store, rows: seq<ScoreRow>, index: U16)
    requires ScoresStored(s, rows)
    ensures IndexCursor(s, ScoreIndexed(), index) == Ok(Cursor(Encode(ScoreCodec(), ByIndex(rows, index))))
  {
    var c := ScoreCodec();
    forall i | 0 <= i < |rows| ensures IsPrefix(ScoreIndexToBytes(index), KeyBytes(c, rows[i].key)) <==> IndexFilter(index)(rows[i]) {
      ScorePrefixSelectsIndex(rows[i], index);
    }
    PrefixScanEncode(c, rows, ScoreIndexToBytes(index), IndexFilter(index));
    assert ScoreIndexed().indexToBytes(index) == ScoreIndexToBytes(index);
  }

  /** Both index lookups, collected, give the stored rows with that index. */
  lemma IndexLookupReadsRows(s: Store, rows: seq<ScoreRow>, index: U16)
    requires ScoresStored(s, rows)
    ensures IndexCursor(s, ScoreIndexed(), index).Ok?
    ensures CollectResults(DecodedEntries(ScoreCodec(), IndexCursor(s, ScoreIndexed(), index).value)) == Ok(ByIndex(rows, index))
    ensures CollectResults(FilterLefts(DecodedSelected(ScoreCodec(), AcceptAll, IndexCursor(s, ScoreIndexed(), index).value))) ==
      Ok(ByIndex(rows, index))
  {
    IndexScanEncode(s, rows, index);
    ScoreCodecLawful();
    CursorRoundTrip(ScoreCodec(), ScoreLess, ByIndex(rows, index));
    AcceptAllLeftsAreEntries(ScoreCodec(), IndexCursor(s, ScoreIndexed(), index).value);
  }

  /**
   * One index of `indexed_table_operations`: a lookup by index, plain and
   * selective, equals the stored rows filtered by that index.
   */
  method IndexLookupMatches(db: Database, sorted: seq<ScoreRow>, index: U16) returns (r: Result<bool, Error>)
    requires ScoresStored(db.db.store, sorted)
    ensures r == Ok(true)
  {
    var ix := ScoreIndexed();
    var byIndex := ByIndex(sorted, index);
    IndexLookupReadsRows(db.db.store, sorted, index);
    var it := db.LookupIndex(ix, index);
    assert it.value.underlying[0..] == it.value.underlying;
    var read := CollectEntries(it.value);
    var sel := db.LookupIndexSelected(ix, index, AcceptAll);
    assert sel.value.underlying[0..] == sel.value.underlying;
    var readSelected := CollectLefts(sel.value);
    r := Ok(read.value == byIndex && readSelected.value == byIndex);
  }

  /**
   * `indexed_table_operations`: after inserting `scores`, a full scan and an
   * accept-all selective scan equal `sort_and_dedup(scores)`, and for every
   * index that occurs, both index lookups equal that result filtered by index.
   */
  method IndexedTableOperations(db: Database, scores: seq<ScoreRow>) returns (r: Result<bool, Error>)
    requires IsWriteable(db.mode)
    requires "scores" in db.db.store.cfs && db.db.store.cfs["scores"] == []
    modifies db.db
    ensures r == Ok(true)
  {
    ScoreCodecLawful();
    var sorted, read := InsertAndRead(db, ScoreEntry(), ScoreLess, scores);
    var readSelected := ReadSelected(db, ScoreEntry(), ScoreLess, sorted);
    var allMatch := AllIndexLookupsMatch(db, sorted);
    r := Ok(read.value == sorted && readSelected.value == sorted && allMatch);
  }

  /** The loop of `indexed_table_operations` over every index that occurs in the stored rows. */
  method AllIndexLookupsMatch(db: Database, sorted: seq<ScoreRow>) returns (allMatch: bool)
    requires ScoresStored(db.db.store, sorted)
    ensures allMatch
  {
    var rest := set i | 0 <= i < |sorted| :: ScoreIndex(sorted[i]);
    allMatch := true;
    while rest != {}
      invariant allMatch
      decreases |rest|
    {
      var index :| index in rest;
      var m := IndexLookupMatches(db, sorted, index);
      allMatch := allMatch && m.Ok? && m.value;
      rest := rest - {index};
    }
  }

  /** An engine that opens a brand-new database directory. */
  function FreshEngine(call: EngineCall): Result<Store, Error>
  {
    Ok(FreshStore(call))
  }

  /** `test_database_simple`: a new writeable database registered for `Simple`. */
  method TestDatabaseSimple(values: seq<SimpleRow>) returns (r: Result<bool, Error>)
    ensures r == Ok(true)
  {
    var options := Add(Default(), SimpleEntry());
    var db := Open(Writeable, options, FreshEngine);
    r := SimpleTableOperations(db.value, values);
  }

  /** `test_database_simple_transactional`: the same on a new transactional database. */
  method TestDatabaseSimpleTransactional(values: seq<SimpleRow>) returns (r: Result<bool, Error>)
    ensures r == Ok(true)
  {
    var options := Add(Default(), SimpleEntry());
    var db := OpenTransactional(options, FreshEngine);
    r := SimpleTableOperations(db.value, values);
  }

  /** The `scores` partition exists, empty, in a new database registered for `Score`. */
  lemma FreshScoresPartition(call: EngineCall)
    requires Descriptors(call) == ColumnFamilies(AddIndexed(Default(), ScoreIndexed()))
    ensures "scores" in FreshStore(call).cfs && FreshStore(call).cfs["scores"] == []
  {
    var o := AddIndexed(Default(), ScoreIndexed());
    assert "scores" in o.cfOptions;
    var i :| 0 <= i < |ColumnFamilies(o)| && ColumnFamilies(o)[i].name == "scores";
    assert ColumnFamilies(o)[i] in Descriptors(call);
  }

  /** `test_database`: a new writeable database registered for `Score` with its 2-byte index. */
  method TestDatabase(scores: seq<ScoreRow>) returns (r: Result<bool, Error>)
    ensures r == Ok(true)
  {
    var options := AddIndexed(Default(), ScoreIndexed());
    FreshScoresPartition(OpenCall(Writeable, options));
    var db := Open(Writeable, options, FreshEngine);
    r := IndexedTableOperations(db.value, scores);
  }

  /** `test_database_transactional`: the same on a new transactional database. */
  method TestDatabaseTransactional(scores: seq<ScoreRow>) returns (r: Result<bool, Error>)
    ensures r == Ok(true)
  {
    var options := AddIndexed(Default(), ScoreIndexed());
    FreshScoresPartition(OpenTransactionalCall(options));
    var db := OpenTransactional(options, FreshEngine);
    r := IndexedTableOperations(db.value, scores);
  }
}
